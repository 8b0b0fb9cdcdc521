/** The bounded list of cached entries, oldest first: which entries survive a summary. */
module StatsSlots {
  import opened Wrappers
  import opened EventCounts
  import opened StatsFiles

  type Sighting = (Path, Signature)

  function Find(slots: seq<Slot>, p: Path): (r: Option<CachedFile>)
    ensures r.Some? ==> Slot(p, r.value) in slots
    ensures r.None? ==> forall i :: 0 <= i < |slots| ==> slots[i].path != p
  {
    if slots == [] then None
    else if slots[0].path == p then Some(slots[0].entry)
    else Find(slots[1..], p)
  }

  function WithoutPath(slots: seq<Slot>, p: Path): (r: seq<Slot>)
    ensures |r| <= |slots|
    ensures forall x :: x in r <==> x in slots && x.path != p
  {
    if slots == [] then []
    else (if slots[0].path == p then [] else [slots[0]]) + WithoutPath(slots[1..], p)
  }

  /** The slots of files that are still listed. */
  function Listed(slots: seq<Slot>, files: seq<Path>): (r: seq<Slot>)
    ensures |r| <= |slots|
    ensures forall x :: x in r <==> x in slots && x.path in files
  {
    if slots == [] then []
    else (if slots[0].path in files then [slots[0]] else []) + Listed(slots[1..], files)
  }

  /** Files with a slot first, both parts in their own order. */
  function CachedFirst(files: seq<Path>, slots: seq<Slot>): seq<Path> {
    Selected(files, slots, true) + Selected(files, slots, false)
  }

  function Selected(files: seq<Path>, slots: seq<Slot>, cached: bool): seq<Path> {
    if files == [] then []
    else (if Find(slots, files[0]).Some? == cached then [files[0]] else []) + Selected(files[1..], slots, cached)
  }

  /** Putting cached files first loses no file and repeats none. */
  lemma {:induction false} CachedFirstPermutes(files: seq<Path>, slots: seq<Slot>)
    ensures multiset(CachedFirst(files, slots)) == multiset(files)
  {
    if files != [] {
      CachedFirstPermutes(files[1..], slots);
      assert files == [files[0]] + files[1..];
    }
  }

  ghost predicate DistinctSlots(slots: seq<Slot>) {
    forall i, j :: 0 <= i < j < |slots| ==> slots[i].path != slots[j].path
  }

  /** Every entry is of a state that its file was once in. */
  ghost predicate AllSeen(slots: seq<Slot>, seen: set<Sighting>) {
    forall x :: x in slots ==> (x.path, x.entry.signature) in seen
  }

  /** The newest slot at the end; the oldest goes when there are too many. */
  function Remembered(slots: seq<Slot>, slot: Slot, maxFiles: nat): seq<Slot> {
    var all := slots + [slot];
    if |all| > maxFiles then all[1..] else all
  }

  /** Looking after one file takes its slot out and may put a new one at the end, with the
    state that the file is in. */
  predicate Took(before: seq<Slot>, after: seq<Slot>, p: Path, s: Option<Signature>, maxFiles: nat) {
    after == WithoutPath(before, p) || Gained(WithoutPath(before, p), after, p, s, maxFiles)
  }

  predicate Gained(before: seq<Slot>, after: seq<Slot>, p: Path, s: Option<Signature>, maxFiles: nat) {
    && after != [] && after[|after| - 1].path == p && s == Some(after[|after| - 1].entry.signature)
    && after == Remembered(before, after[|after| - 1], maxFiles)
  }

  ghost predicate Tended(slots: seq<Slot>, maxFiles: nat, seen: set<Sighting>) {
    |slots| <= maxFiles && DistinctSlots(slots) && AllSeen(slots, seen)
  }

  lemma {:induction false} WithoutPathDistinct(slots: seq<Slot>, p: Path)
    requires DistinctSlots(slots)
    ensures DistinctSlots(WithoutPath(slots, p))
    ensures Find(slots, p).Some? ==> |WithoutPath(slots, p)| < |slots|
  {
    if slots != [] {
      WithoutPathDistinct(slots[1..], p);
      var rest := WithoutPath(slots[1..], p);
      forall j | 0 <= j < |rest| ensures rest[j].path != slots[0].path {
        assert rest[j] in slots[1..];
      }
    }
  }

  lemma TookKeeps(before: seq<Slot>, after: seq<Slot>, p: Path, s: Option<Signature>, maxFiles: nat, seen: set<Sighting>)
    requires Tended(before, maxFiles, seen) && Took(before, after, p, s, maxFiles) && (s.Some? ==> (p, s.value) in seen)
    ensures Tended(after, maxFiles, seen)
    ensures forall x :: x in after ==> x in before || x.path == p
  {
    var left := WithoutPath(before, p);
    WithoutPathDistinct(before, p);
    forall i | 0 <= i < |left| ensures left[i].path != p {
      assert left[i] in left;
    }
    if after != left {
      var slot := after[|after| - 1];
      var all := left + [slot];
      assert DistinctSlots(all);
      assert forall x :: x in all ==> x in left || x == slot;
    }
  }

  lemma {:induction false} FindElsewhere(slots: seq<Slot>, p: Path, q: Path)
    requires q != p
    ensures Find(WithoutPath(slots, p), q) == Find(slots, q)
  {
    if slots != [] {
      FindElsewhere(slots[1..], p, q);
      FindStep(slots[0], WithoutPath(slots[1..], p), q);
      assert [] + WithoutPath(slots[1..], p) == WithoutPath(slots[1..], p);
    }
  }

  lemma FindStep(slot: Slot, rest: seq<Slot>, q: Path)
    ensures Find([slot] + rest, q) == if slot.path == q then Some(slot.entry) else Find(rest, q)
  {
    assert ([slot] + rest)[1..] == rest;
  }

  lemma {:induction false} FindInFront(slots: seq<Slot>, slot: Slot, q: Path)
    requires q != slot.path
    ensures Find(slots + [slot], q) == Find(slots, q)
  {
    if slots != [] {
      assert (slots + [slot])[1..] == slots[1..] + [slot];
      FindInFront(slots[1..], slot, q);
    }
  }

  /** Another file's entry is still there, unless the cache was full and this file was new. */
  lemma EntryStays(before: seq<Slot>, after: seq<Slot>, p: Path, q: Path, s: Option<Signature>, maxFiles: nat)
    requires q != p && |before| <= maxFiles && DistinctSlots(before) && Took(before, after, p, s, maxFiles)
    requires Find(before, p).Some? || |before| < maxFiles || Find(before, q).None?
    ensures Find(after, q) == Find(before, q)
  {
    var left := WithoutPath(before, p);
    FindElsewhere(before, p, q);
    WithoutPathDistinct(before, p);
    if after != left {
      var slot := after[|after| - 1];
      FindInFront(left, slot, q);
      if |left| + 1 > maxFiles {
        assert Find(before, q).None?;
        forall x | x in after ensures x.path != q {
          assert x in left + [slot];
        }
      }
    }
  }

  /** Files that have a slot come before those that have none. */
  ghost predicate CachedLead(left: seq<Path>, slots: seq<Slot>) {
    forall i, j :: 0 <= i < j < |left| && Find(slots, left[j]).Some? ==> Find(slots, left[i]).Some?
  }

  /** Either every file has room in the cache or the cached files come first. */
  ghost predicate Roomy(files: seq<Path>, left: seq<Path>, slots: seq<Slot>, maxFiles: nat) {
    CachedLead(left, slots) || (|files| <= maxFiles && forall x :: x in slots ==> x.path in files)
  }

  ghost predicate DistinctFiles(files: seq<Path>) {
    forall i, j :: 0 <= i < j < |files| ==> files[i] != files[j]
  }

  lemma {:induction false} SlotsAreFew(slots: seq<Slot>, paths: set<Path>)
    requires DistinctSlots(slots) && forall x :: x in slots ==> x.path in paths
    ensures |slots| <= |paths|
  {
    if slots != [] {
      var front, last := slots[..|slots| - 1], slots[|slots| - 1];
      forall x | x in front ensures x.path in paths - {last.path} {
        var i :| 0 <= i < |front| && front[i] == x;
        assert slots[i].path != last.path;
      }
      SlotsAreFew(front, paths - {last.path});
    }
  }

  lemma {:induction false} AsManyAsFiles(files: seq<Path>)
    ensures |set p | p in files| <= |files|
  {
    if files != [] {
      AsManyAsFiles(files[1..]);
      assert (set p | p in files) == {files[0]} + (set p | p in files[1..]);
    }
  }

  /** With room for every file there is a free place for a new one. */
  lemma RoomForNew(files: seq<Path>, slots: seq<Slot>, p: Path)
    requires DistinctSlots(slots) && (forall x :: x in slots ==> x.path in files) && p in files && Find(slots, p).None?
    ensures |slots| < |files|
  {
    var paths := set q | q in files;
    forall x | x in slots ensures x.path in paths - {p} {
      var i :| 0 <= i < |slots| && slots[i] == x;
    }
    SlotsAreFew(slots, paths - {p});
    AsManyAsFiles(files);
  }

  /** No file that is still to come loses its entry: one changed file never evicts another
    that is cached and not yet looked at. */
  lemma EntriesStay(files: seq<Path>, left: seq<Path>, before: seq<Slot>, after: seq<Slot>, s: Option<Signature>, maxFiles: nat,
                    seen: set<Sighting>)
    requires left != [] && DistinctFiles(left) && (forall q :: q in left ==> q in files)
    requires Tended(before, maxFiles, seen) && Took(before, after, left[0], s, maxFiles) && Roomy(files, left, before, maxFiles)
    requires s.Some? ==> (left[0], s.value) in seen
    ensures forall q :: q in left[1..] ==> Find(after, q) == Find(before, q)
    ensures Roomy(files, left[1..], after, maxFiles)
  {
    var p := left[0];
    forall q | q in left[1..] ensures Find(after, q) == Find(before, q) {
      var j :| 0 <= j < |left[1..]| && left[1..][j] == q;
      assert left[j + 1] == q != p;
      if Find(before, p).None? && !CachedLead(left, before) {
        RoomForNew(files, before, p);
      }
      EntryStays(before, after, p, q, s, maxFiles);
    }
    TookKeeps(before, after, p, s, maxFiles, seen);
    RoomStays(files, left, before, after, maxFiles);
  }

  lemma RoomStays(files: seq<Path>, left: seq<Path>, before: seq<Slot>, after: seq<Slot>, maxFiles: nat)
    requires left != [] && left[0] in files && Roomy(files, left, before, maxFiles)
    requires forall q :: q in left[1..] ==> Find(after, q) == Find(before, q)
    requires forall x :: x in after ==> x in before || x.path == left[0]
    ensures Roomy(files, left[1..], after, maxFiles)
  {
    if CachedLead(left, before) {
      var rest := left[1..];
      forall i, j | 0 <= i < j < |rest| && Find(after, rest[j]).Some? ensures Find(after, rest[i]).Some? {
        assert rest[i] in rest && rest[j] in rest && rest[i] == left[i + 1] && rest[j] == left[j + 1];
      }
    }
  }

  lemma {:induction false} SelectedExactly(files: seq<Path>, slots: seq<Slot>, cached: bool)
    ensures forall p :: p in Selected(files, slots, cached) <==> p in files && Find(slots, p).Some? == cached
  {
    if files != [] {
      SelectedExactly(files[1..], slots, cached);
      assert files == [files[0]] + files[1..];
    }
  }

  lemma CachedFirstLeads(files: seq<Path>, slots: seq<Slot>)
    ensures CachedLead(CachedFirst(files, slots), slots)
  {
    SelectedExactly(files, slots, true);
    SelectedExactly(files, slots, false);
    var a, b := Selected(files, slots, true), Selected(files, slots, false);
    forall i | 0 <= i < |a + b| ensures Find(slots, (a + b)[i]).Some? <==> i < |a| {
      assert if i < |a| then (a + b)[i] in a else (a + b)[i] in b;
    }
  }

  lemma {:induction false} ListedDistinct(slots: seq<Slot>, files: seq<Path>)
    requires DistinctSlots(slots)
    ensures DistinctSlots(Listed(slots, files))
  {
    if slots != [] {
      ListedDistinct(slots[1..], files);
      var rest := Listed(slots[1..], files);
      forall j | 0 <= j < |rest| ensures rest[j].path != slots[0].path {
        assert rest[j] in slots[1..];
      }
    }
  }

  lemma {:induction false} FindListed(slots: seq<Slot>, files: seq<Path>, p: Path)
    requires p in files
    ensures Find(Listed(slots, files), p) == Find(slots, p)
  {
    if slots != [] {
      FindListed(slots[1..], files, p);
      FindStep(slots[0], Listed(slots[1..], files), p);
      assert [] + Listed(slots[1..], files) == Listed(slots[1..], files);
    }
  }

  /** Dropping the slots of files that are gone keeps those of the others. */
  lemma ListedKeeps(slots: seq<Slot>, files: seq<Path>, maxFiles: nat, seen: set<Sighting>)
    requires Tended(slots, maxFiles, seen)
    ensures Tended(Listed(slots, files), maxFiles, seen)
    ensures forall p :: p in files ==> Find(Listed(slots, files), p) == Find(slots, p)
  {
    ListedDistinct(slots, files);
    forall p | p in files ensures Find(Listed(slots, files), p) == Find(slots, p) {
      FindListed(slots, files, p);
    }
  }

  /** The states that the files are in when a summary looks at them. */
  function Sightings(looks: map<Path, Look>): set<Sighting> {
    set p | p in looks && looks[p].before.Some? :: (p, looks[p].before.value)
  }

  /** What the first stats of all files show. */
  function FirstLook(looks: map<Path, Look>): Fingerprint {
    map p | p in looks :: looks[p].before
  }

  function SecondLook(looks: map<Path, Look>): Fingerprint {
    map p | p in looks :: looks[p].after
  }
}
