/** What a summary reads: the bytes that its cache makes necessary, and a bound on them that
  only depends on what happened to the files. */
module StatsCost {
  import opened Wrappers
  import opened Lines
  import opened EventCounts
  import opened StatsPass
  import opened StatsScan
  import opened StatsFiles
  import opened StatsSlots

  /** The file can have grown behind what its entry lists. */
  predicate Grown(p: Path, s: Signature, e: CachedFile) {
    !p.archive && e.appendable && s.inode == e.signature.inode && s.size > e.signature.size
  }

  /** What was there before is still the same. */
  predicate SamePrefix(e: CachedFile, bytes: seq<Byte>) {
    e.offset <= e.signature.size <= |bytes| && bytes[..e.signature.size] == e.digest
  }

  /** The bytes that a pass reads: of a grown file the old part for verification, then what
    lies behind the resume offset or, if the old part changed, everything again. */
  function PassCost(p: Path, s: Signature, cached: Option<CachedFile>, bytes: seq<Byte>): nat {
    if cached.Some? && Grown(p, s, cached.value) then
      cached.value.signature.size + (if SamePrefix(cached.value, bytes) then |bytes| - cached.value.offset else |bytes|)
    else |bytes|
  }

  /** An entry that saw an event in the future is of no use once that event is due. */
  function Usable(cached: Option<CachedFile>, now: int): Option<CachedFile> {
    if cached.Some? && StillFuture(cached.value.Counted(), now) then cached else None
  }

  /** An unchanged file with a usable entry is not read again. */
  predicate Current(cached: Option<CachedFile>, s: Option<Signature>, now: int) {
    Usable(cached, now).Some? && s == Some(cached.value.signature)
  }

  /** The bytes that a summary reads of one file. */
  function FileCost(world: World, p: Path, s: Option<Signature>, cached: Option<CachedFile>, now: int): nat {
    if s.None? || !s.value.regular || Current(cached, s, now) then 0
    else PassCost(p, s.value, Usable(cached, now), world.contentOf(p, s.value))
  }

  /** A sum over files in any order. */
  ghost function Sum(paths: set<Path>, cost: Path -> nat): nat {
    if paths == {} then 0
    else
      var p :| p in paths;
      cost(p) + Sum(paths - {p}, cost)
  }

  lemma {:induction false} SumTakes(paths: set<Path>, cost: Path -> nat, p: Path)
    requires p in paths
    ensures Sum(paths, cost) == cost(p) + Sum(paths - {p}, cost)
  {
    var q :| q in paths && Sum(paths, cost) == cost(q) + Sum(paths - {q}, cost);
    if q != p {
      SumTakes(paths - {q}, cost, p);
      SumTakes(paths - {p}, cost, q);
      assert paths - {q} - {p} == paths - {p} - {q};
    }
  }

  lemma {:induction false} SumAtMost(paths: set<Path>, cost: Path -> nat, bound: Path -> nat)
    requires forall p :: p in paths ==> cost(p) <= bound(p)
    ensures Sum(paths, cost) <= Sum(paths, bound)
  {
    if paths != {} {
      var p :| p in paths;
      SumTakes(paths, cost, p);
      SumTakes(paths, bound, p);
      SumAtMost(paths - {p}, cost, bound);
    }
  }

  function Shown(fp: Fingerprint, p: Path): Option<Signature> {
    if p in fp then fp[p] else None
  }

  /** The cost of each file for a cache with these entries. */
  function CostOf(world: World, fp: Fingerprint, slots: seq<Slot>, now: int): Path -> nat {
    p => FileCost(world, p, Shown(fp, p), Find(slots, p), now)
  }

  ghost function ReadCost(world: World, fp: Fingerprint, slots: seq<Slot>, now: int): nat {
    Sum(fp.Keys, CostOf(world, fp, slots, now))
  }

  lemma ReadCostDependsOn(world: World, fp: Fingerprint, slots: seq<Slot>, slots': seq<Slot>, now: int)
    requires forall p :: p in fp ==> Find(slots, p) == Find(slots', p)
    ensures ReadCost(world, fp, slots, now) == ReadCost(world, fp, slots', now)
  {
    hide FileCost;
    SumAtMost(fp.Keys, CostOf(world, fp, slots, now), CostOf(world, fp, slots', now));
    SumAtMost(fp.Keys, CostOf(world, fp, slots', now), CostOf(world, fp, slots, now));
  }

  // ---------- what it costs at most ----------

  /** An earlier state of the file, smaller and with the same inode, was seen. */
  ghost predicate SeenSmaller(seen: set<Sighting>, p: Path, s: Signature) {
    exists x :: x in seen && x.0 == p && x.1.inode == s.inode && x.1.size < s.size
  }

  /** And the file is not that one with bytes appended. */
  ghost predicate Rewritten(world: World, seen: set<Sighting>, p: Path, s: Signature) {
    exists x :: x in seen && x.0 == p && x.1.inode == s.inode && x.1.size < s.size && !(world.contentOf(p, x.1) <= world.contentOf(p, s))
  }

  /** Whatever a cache remembers of what it saw: the file itself, at most one open line more
    if it grew, and at most twice the file if it was rewritten in place. */
  ghost function FileCharge(world: World, seen: set<Sighting>, p: Path, s: Option<Signature>): nat {
    if s.None? || !s.value.regular then 0
    else
      var size := |world.contentOf(p, s.value)|;
      if p.archive then size
      else if Rewritten(world, seen, p, s.value) then 2 * size
      else if SeenSmaller(seen, p, s.value) then size + (if size < MAX_LINE_BYTES then size else MAX_LINE_BYTES)
      else size
  }

  ghost function ChargeOf(world: World, seen: set<Sighting>, fp: Fingerprint): Path -> nat {
    p => FileCharge(world, seen, p, Shown(fp, p))
  }

  ghost function Charge(world: World, seen: set<Sighting>, fp: Fingerprint): nat {
    Sum(fp.Keys, ChargeOf(world, seen, fp))
  }

  lemma FileCostWithinCharge(world: World, seen: set<Sighting>, p: Path, s: Option<Signature>, cached: Option<CachedFile>, now: int)
    requires world.Sized()
    requires cached.Some? ==> (p, cached.value.signature) in seen && (cached.value.appendable ==> Grounded(world, p, cached.value))
    ensures FileCost(world, p, s, cached, now) <= FileCharge(world, seen, p, s)
  {
    hide EndsLine, NearlyFits;
    var usable := Usable(cached, now);
    if s.Some? && s.value.regular && usable.Some? && Grown(p, s.value, usable.value) {
      var e, content := usable.value, world.contentOf(p, s.value);
      var x := (p, e.signature);
      assert x in seen && SeenSmaller(seen, p, s.value);
      assert |content| == s.value.size > e.signature.size == |world.contentOf(p, e.signature)|;
      if Rewritten(world, seen, p, s.value) {
        assert FileCost(world, p, s, cached, now) <= e.signature.size + |content|;
      } else {
        assert world.contentOf(p, x.1) <= content;
        assert content[..e.signature.size] == e.digest;
      }
    }
  }

  lemma CostWithinCharge(world: World, seen: set<Sighting>, fp: Fingerprint, slots: seq<Slot>, w: Window, now: int)
    requires world.Sized() && AllFaithful(world, slots, w, now) && AllSeen(slots, seen)
    ensures ReadCost(world, fp, slots, now) <= Charge(world, seen, fp)
  {
    hide FileCost, FileCharge, Grounded;
    forall p | p in fp.Keys ensures CostOf(world, fp, slots, now)(p) <= ChargeOf(world, seen, fp)(p) {
      var cached := Find(slots, p);
      if cached.Some? {
        assert Slot(p, cached.value) in slots;
        assert Faithful(world, p, cached.value, w, now);
      }
      FileCostWithinCharge(world, seen, p, Shown(fp, p), cached, now);
    }
    SumAtMost(fp.Keys, CostOf(world, fp, slots, now), ChargeOf(world, seen, fp));
  }

  /** More sightings never make a file cheaper. */
  lemma ChargeGrows(world: World, seen: set<Sighting>, seen': set<Sighting>, fp: Fingerprint)
    requires world.Sized() && seen <= seen'
    ensures Charge(world, seen, fp) <= Charge(world, seen', fp)
  {
    forall p | p in fp.Keys ensures ChargeOf(world, seen, fp)(p) <= ChargeOf(world, seen', fp)(p) {
      FileChargeGrows(world, seen, seen', p, Shown(fp, p));
    }
    hide FileCharge;
    SumAtMost(fp.Keys, ChargeOf(world, seen, fp), ChargeOf(world, seen', fp));
  }

  lemma FileChargeGrows(world: World, seen: set<Sighting>, seen': set<Sighting>, p: Path, s: Option<Signature>)
    requires world.Sized() && seen <= seen'
    ensures FileCharge(world, seen, p, s) <= FileCharge(world, seen', p, s)
  {
  }

  /** The input on which a summary gives up although a fresh scan would fit: a cached log of
    40 MiB that is rewritten in place and then holds 41 MiB. */
  lemma RewriteExhausts(world: World, p: Path, e: CachedFile, s: Signature, now: int)
    requires world.Sized() && !p.archive && e.appendable && Grounded(world, p, e) && StillFuture(e.Counted(), now)
    requires s.regular && s.inode == e.signature.inode
    requires e.signature.size == 40 * 1024 * 1024 && s.size == 41 * 1024 * 1024
    requires !(world.contentOf(p, e.signature) <= world.contentOf(p, s))
    ensures FileCost(world, p, Some(s), Some(e), now) == 81 * 1024 * 1024 > MAX_SCAN_BYTES
    ensures FileCost(world, p, Some(s), None, now) == 41 * 1024 * 1024 < MAX_SCAN_BYTES
  {
    hide Resumable;
  }

  lemma {:induction false} EmptyLines(s: seq<Byte>)
    requires forall i :: 0 <= i < |s| ==> s[i] == LF
    ensures EndsLine(s) && NearlyFits(s, MAX_LINE_BYTES)
    ensures TextBodies(s) == [] && BodiesRead(s, MAX_LINE_BYTES) == [] && !Refused(s, MAX_LINE_BYTES)
  {
    if s != [] {
      LoneNewlineIsBlank(s);
      EmptyLines(s[1..]);
    }
  }

  /** Such a log, with the entry that a scan of it leaves behind. */
  lemma RewrittenLog(w: Window, now: int) returns (world: World, p: Path, e: CachedFile, s: Signature)
    ensures world.Sized() && FaithfulAt(world, p, e, w, now)
    ensures FileCost(world, p, Some(s), Some(e), now) == 81 * 1024 * 1024 > MAX_SCAN_BYTES
    ensures FileCost(world, p, Some(s), None, now) == 41 * 1024 * 1024 < MAX_SCAN_BYTES
  {
    var before := Signature(1, 40 * 1024 * 1024, 0, true);
    p, s, world := Path(0, false), before.(size := 41 * 1024 * 1024), OverwrittenWorld(before);
    OverwrittenContents(before, p, s);
    var content := world.contentOf(p, before);
    hide Filled, OverwrittenWorld;
    e := EmptyLog(world, p, before, w, now);
    RewriteExhausts(world, p, e, s, now);
  }

  /** Empty lines before, CR bytes after. */
  function OverwrittenWorld(before: Signature): World {
    World(b => Blank, (q: Path, t: Signature) => Filled(t.size, if t == before then LF else CR))
  }

  lemma OverwrittenContents(before: Signature, p: Path, s: Signature)
    requires s != before && before.size > 0 && s.size > 0
    ensures var world := OverwrittenWorld(before);
            && world.Sized() && world.contentOf(p, before) == Filled(before.size, LF)
            && !(world.contentOf(p, before) <= world.contentOf(p, s))
  {
    assert Filled(before.size, LF)[0] == LF && Filled(s.size, CR)[0] == CR;
  }

  lemma EmptyLog(world: World, p: Path, before: Signature, w: Window, now: int) returns (e: CachedFile)
    requires before.regular && world.contentOf(p, before) == Filled(before.size, LF)
    ensures e.signature == before && e.appendable && FaithfulAt(world, p, e, w, now) && StillFuture(e.Counted(), now)
  {
    var content := world.contentOf(p, before);
    e := CachedFile(before, content, |content|, ZERO, ZERO, true);
    hide NearlyFits, TextBodies, BodiesRead, Refused, FaithfulAt;
    EmptyLines(content);
    WholeSlices(content, []);
    hide EndsLine, Include, Filled;
    NothingCounted(world, p, e, w, now);
  }

  function Filled(size: nat, b: Byte): seq<Byte> {
    seq(size, i => b)
  }

  lemma NothingCounted(world: World, p: Path, e: CachedFile, w: Window, now: int)
    requires e.signature.regular && e.digest == world.contentOf(p, e.signature) && e.offset == |e.digest|
    requires e.stable == ZERO && e.tail == ZERO && Resumable(e.digest, e.offset)
    requires TextBodies(e.digest) == [] && BodiesRead(e.digest, MAX_LINE_BYTES) == [] && !Refused(e.digest, MAX_LINE_BYTES)
    ensures FaithfulAt(world, p, e, w, now) && StillFuture(e.Counted(), now)
  {
    hide Resumable, Include, Refused, TextBodies, BodiesRead;
    PlusNothing(e.stable, e.tail);
    WholeSlices(e.digest, []);
    assert e.Counted() == e.stable && e.stable.futureAt == None;
  }
}
