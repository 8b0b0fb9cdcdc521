/** What the daily statistics take from outside, what a fresh scan counts, and what a cached
  entry claims about its file. */
module StatsFiles {
  import opened Wrappers
  import opened Lines
  import opened EventCounts
  import opened StatsPass
  import opened StatsScan
  import opened CountMeaning

  const MAX_SCAN_BYTES := 64 * 1024 * 1024

  /** An archive is read through a decompressor and its decompressed size is not known. */
  datatype Path = Path(name: nat, archive: bool)

  /** What a stat call shows: device and inode, size, the change times, and the file kind. */
  datatype Signature = Signature(inode: int, size: nat, stamp: int, regular: bool)

  /** What the model takes from outside: how a line decodes, and what a file with a given
    signature contains; that it is a function says that equal signatures mean equal content. */
  datatype World = World(decode: Decoder, contentOf: (Path, Signature) -> seq<Byte>) {
    ghost predicate Sized() {
      forall p: Path, s: Signature :: !p.archive && s.regular ==> |contentOf(p, s)| == s.size
    }
  }

  /** One file as a summary meets it: the stat before, the bytes a read delivers (none when
    reading fails) and the stat after. */
  datatype Look = Look(before: Option<Signature>, bytes: Option<seq<Byte>>, after: Option<Signature>) {
    predicate Steady() {
      before == after
    }
  }

  /** A file whose signature did not change while it was read delivered its content. */
  predicate Coherent(world: World, p: Path, look: Look) {
    look.Steady() && look.before.Some? && look.before.value.regular && look.bytes.Some? ==>
      look.bytes.value == world.contentOf(p, look.before.value)
  }

  /** `digest` stands for the hash of the bytes it lists: the hash is taken as injective. */
  datatype CachedFile = CachedFile(signature: Signature, digest: seq<Byte>, offset: nat,
                                   stable: Counts, tail: Counts, appendable: bool) {
    function Counted(): Counts {
      Include(stable, tail)
    }
  }

  datatype Slot = Slot(path: Path, entry: CachedFile)

  type Fingerprint = map<Path, Option<Signature>>

  datatype Aggregate = Aggregate(fingerprint: Fingerprint, counts: Counts)

  // ---------- the truth ----------

  /** What a fresh scan of one file counts. */
  function FileTruth(world: World, p: Path, s: Option<Signature>, w: Window, now: int): Counts {
    match s
    case None => ZERO
    case Some(signature) =>
      if !signature.regular then UNREADABLE
      else ScanText(world.contentOf(p, signature), MAX_LINE_BYTES, StepAt(world.decode, w, now))
  }

  /** The sum over all files: a scan of everything, from scratch. */
  ghost function FreshScan(world: World, fp: Fingerprint, w: Window, now: int): Counts
    decreases |fp|
  {
    if fp == map[] then ZERO
    else
      var p :| p in fp;
      Include(FileTruth(world, p, fp[p], w, now), FreshScan(world, fp - {p}, w, now))
  }

  lemma FreshScanPicks(world: World, fp: Fingerprint, w: Window, now: int) returns (q: Path)
    requires fp != map[]
    ensures q in fp
    ensures FreshScan(world, fp, w, now) == Include(FileTruth(world, q, fp[q], w, now), FreshScan(world, fp - {q}, w, now))
  {
    q :| q in fp && FreshScan(world, fp, w, now) == Include(FileTruth(world, q, fp[q], w, now), FreshScan(world, fp - {q}, w, now));
  }

  lemma Exchange(x: Counts, y: Counts, rest: Counts)
    ensures Include(x, Include(y, rest)) == Include(y, Include(x, rest))
  {
    hide Include;
    IncludeLaws(x, y, rest);
    IncludeLaws(y, x, rest);
  }

  /** The order of the files does not matter. */
  lemma {:induction false} FreshScanTakes(world: World, fp: Fingerprint, p: Path, w: Window, now: int)
    requires p in fp
    ensures FreshScan(world, fp, w, now) == Include(FileTruth(world, p, fp[p], w, now), FreshScan(world, fp - {p}, w, now))
    decreases |fp|
  {
    hide FileTruth, Include;
    var q := FreshScanPicks(world, fp, w, now);
    if q != p {
      FreshScanTakes(world, fp - {q}, p, w, now);
      FreshScanTakes(world, fp - {p}, q, w, now);
      assert fp - {q} - {p} == fp - {p} - {q};
      Exchange(FileTruth(world, p, fp[p], w, now), FileTruth(world, q, fp[q], w, now), FreshScan(world, fp - {p} - {q}, w, now));
    }
  }

  /** The books of a fresh scan balance: every access is one operation by one party, failures
    are among them, and the last one lies in the day so far. */
  lemma {:induction false} FreshScanIsBalanced(world: World, fp: Fingerprint, w: Window, now: int)
    ensures Balanced(FreshScan(world, fp, w, now), w, now)
    decreases |fp|
  {
    if fp != map[] {
      var p := FreshScanPicks(world, fp, w, now);
      FileIsBalanced(world, p, fp[p], w, now);
      FreshScanIsBalanced(world, fp - {p}, w, now);
      IncludeKeepsBalance(FileTruth(world, p, fp[p], w, now), FreshScan(world, fp - {p}, w, now), w, now);
    }
  }

  lemma FileIsBalanced(world: World, p: Path, s: Option<Signature>, w: Window, now: int)
    ensures Balanced(FileTruth(world, p, s, w, now), w, now)
  {
    if s.Some? && s.value.regular {
      FoldIsBalanced(world.decode, w, now, BodiesRead(world.contentOf(p, s.value), MAX_LINE_BYTES));
    }
  }

  // ---------- what the truth says ----------

  /** The lines that can be read of a file. */
  function LinesOf(world: World, p: Path, s: Option<Signature>): seq<Parsed> {
    if s.None? || !s.value.regular then [] else Decoded(world.decode, BodiesRead(world.contentOf(p, s.value), MAX_LINE_BYTES))
  }

  /** A file that is not a log, or that has a line over the cap. */
  predicate Unreadable(world: World, p: Path, s: Option<Signature>) {
    s.Some? && (!s.value.regular || Refused(world.contentOf(p, s.value), MAX_LINE_BYTES))
  }

  /** The lines of all files, one file after the other in some order. */
  ghost function AllLines(world: World, fp: Fingerprint): seq<Parsed>
    decreases |fp|
  {
    if fp == map[] then []
    else
      var p :| p in fp;
      LinesOf(world, p, fp[p]) + AllLines(world, fp - {p})
  }

  lemma AllLinesPick(world: World, fp: Fingerprint) returns (q: Path)
    requires fp != map[]
    ensures q in fp && AllLines(world, fp) == LinesOf(world, q, fp[q]) + AllLines(world, fp - {q})
  {
    q :| q in fp && AllLines(world, fp) == LinesOf(world, q, fp[q]) + AllLines(world, fp - {q});
  }

  function UnreadableFiles(world: World, fp: Fingerprint): set<Path> {
    set p | p in fp && Unreadable(world, p, fp[p])
  }

  /** The counters are those of the lines of all files together, and the number of logs that
    could not be read to their end. */
  ghost predicate Tells(world: World, fp: Fingerprint, c: Counts, w: Window, now: int) {
    Means(c, AllLines(world, fp), |UnreadableFiles(world, fp)|, w, now)
  }

  lemma FileMeans(world: World, p: Path, s: Option<Signature>, w: Window, now: int)
    ensures Means(FileTruth(world, p, s, w, now), LinesOf(world, p, s), if Unreadable(world, p, s) then 1 else 0, w, now)
  {
    if s.None? {
      MeansNothing(FileTruth(world, p, s, w, now), w, now);
    } else if !s.value.regular {
      MeansNothing(FileTruth(world, p, s, w, now).(unreadable := 0), w, now);
      OnlyUnreadable(FileTruth(world, p, s, w, now), FileTruth(world, p, s, w, now).(unreadable := 0), [], w, now);
    } else {
      var content := world.contentOf(p, s.value);
      var c := Fold(ZERO, StepAt(world.decode, w, now), BodiesRead(content, MAX_LINE_BYTES));
      FoldMeans(world.decode, BodiesRead(content, MAX_LINE_BYTES), w, now);
      if Refused(content, MAX_LINE_BYTES) {
        OnlyUnreadable(OneUnreadable(c), c, LinesOf(world, p, s), w, now);
      }
    }
  }

  lemma OnlyUnreadable(c: Counts, c0: Counts, lines: seq<Parsed>, w: Window, now: int)
    requires Means(c0, lines, 0, w, now) && c == OneUnreadable(c0)
    ensures Means(c, lines, 1, w, now)
  {
    hide Latest, Soonest;
  }

  /** A fresh scan tells what the lines of the files say. */
  lemma {:induction false} FreshScanTells(world: World, fp: Fingerprint, w: Window, now: int)
    ensures Tells(world, fp, FreshScan(world, fp, w, now), w, now)
    decreases |fp|
  {
    if fp == map[] {
      MeansNothing(FreshScan(world, fp, w, now), w, now);
      assert UnreadableFiles(world, fp) == {};
    } else {
      hide Means, FileTruth, LinesOf, Unreadable, Include;
      var p := AllLinesPick(world, fp);
      FreshScanTakes(world, fp, p, w, now);
      FreshScanTells(world, fp - {p}, w, now);
      FileMeans(world, p, fp[p], w, now);
      MeansInclude(FileTruth(world, p, fp[p], w, now), FreshScan(world, fp - {p}, w, now), LinesOf(world, p, fp[p]),
                   AllLines(world, fp - {p}), if Unreadable(world, p, fp[p]) then 1 else 0, |UnreadableFiles(world, fp - {p})|, w, now);
      OneFileLess(world, fp, p);
    }
  }

  lemma OneFileLess(world: World, fp: Fingerprint, p: Path)
    requires p in fp
    ensures |UnreadableFiles(world, fp)| == |UnreadableFiles(world, fp - {p})| + (if Unreadable(world, p, fp[p]) then 1 else 0)
  {
    hide Unreadable;
    var all, others := UnreadableFiles(world, fp), UnreadableFiles(world, fp - {p});
    assert all == if Unreadable(world, p, fp[p]) then others + {p} else others;
    assert p !in others;
  }

  /** No line is taken over the line cap by the LF of its pair alone. */
  predicate Fits(world: World, p: Path, s: Option<Signature>) {
    s.Some? && s.value.regular ==> PairsFit(world.contentOf(p, s.value), MAX_LINE_BYTES)
  }

  predicate AllFit(world: World, fp: Fingerprint) {
    forall p :: p in fp ==> Fits(world, p, fp[p])
  }

  // ---------- time passes ----------

  lemma ScanTextKeeps(s: seq<Byte>, cap: nat, decode: Decoder, w: Window, earlier: int, later: int)
    requires earlier <= later < w.end && StillFuture(ScanText(s, cap, StepAt(decode, w, earlier)), later)
    ensures ScanText(s, cap, StepAt(decode, w, later)) == ScanText(s, cap, StepAt(decode, w, earlier))
  {
    FoldKeeps(BodiesRead(s, cap), decode, w, earlier, later);
  }

  lemma {:induction false} FreshScanKeeps(world: World, fp: Fingerprint, w: Window, earlier: int, later: int)
    requires earlier <= later < w.end && StillFuture(FreshScan(world, fp, w, earlier), later)
    ensures FreshScan(world, fp, w, later) == FreshScan(world, fp, w, earlier)
    decreases |fp|
  {
    if fp != map[] {
      var p :| p in fp;
      FreshScanTakes(world, fp, p, w, earlier);
      FreshScanTakes(world, fp, p, w, later);
      FreshScanKeeps(world, fp - {p}, w, earlier, later);
      if fp[p].Some? && fp[p].value.regular {
        ScanTextKeeps(world.contentOf(p, fp[p].value), MAX_LINE_BYTES, world.decode, w, earlier, later);
      }
    }
  }

  // ---------- cached entries ----------

  /** An entry that can be resumed lists its file, and its offset is behind the last complete
    line. */
  ghost predicate Grounded(world: World, p: Path, e: CachedFile) {
    var content := world.contentOf(p, e.signature);
    e.signature.regular && e.digest == content && Resumable(content, e.offset) && |content| <= e.offset + MAX_LINE_BYTES
  }

  /** The entry says what a scan of its file at time `t` counts, and how far it can be resumed. */
  ghost predicate FaithfulAt(world: World, p: Path, e: CachedFile, w: Window, t: int) {
    && (Fits(world, p, Some(e.signature)) ==> e.Counted() == FileTruth(world, p, Some(e.signature), w, t))
    && (e.appendable ==>
          && Grounded(world, p, e)
          && e.stable == Prefix(world.contentOf(p, e.signature), e.offset, StepAt(world.decode, w, t)))
  }

  ghost predicate Faithful(world: World, p: Path, e: CachedFile, w: Window, now: int) {
    exists t :: w.start <= t <= now && FaithfulAt(world, p, e, w, t)
  }

  ghost predicate AllFaithful(world: World, slots: seq<Slot>, w: Window, now: int) {
    forall s :: s in slots ==> Faithful(world, s.path, s.entry, w, now)
  }

  /** The aggregate is what a fresh scan counts, if the visit that made it, which had to read
    `owed` bytes, was within the budget; one that was not says that it is incomplete. */
  ghost predicate AggregateFaithfulAt(world: World, a: Aggregate, owed: nat, w: Window, t: int) {
    && (AllFit(world, a.fingerprint) && owed < MAX_SCAN_BYTES ==> a.counts == FreshScan(world, a.fingerprint, w, t))
    && (owed > MAX_SCAN_BYTES ==> a.counts.unreadable > 0)
  }

  ghost predicate AggregateFaithful(world: World, a: Option<Aggregate>, owed: nat, w: Window, now: int) {
    a.Some? ==> exists t :: w.start <= t <= now && AggregateFaithfulAt(world, a.value, owed, w, t)
  }

  /** An entry none of whose counted events was still to come keeps its word. */
  lemma EntryKeeps(world: World, p: Path, e: CachedFile, w: Window, now: int)
    requires Faithful(world, p, e, w, now) && now < w.end && StillFuture(e.Counted(), now)
    ensures FaithfulAt(world, p, e, w, now)
  {
    var t :| w.start <= t <= now && FaithfulAt(world, p, e, w, t);
    var content := world.contentOf(p, e.signature);
    if Fits(world, p, Some(e.signature)) && e.signature.regular {
      ScanTextKeeps(content, MAX_LINE_BYTES, world.decode, w, t, now);
    }
    if e.appendable {
      FoldKeeps(TextBodies(content[..e.offset]), world.decode, w, t, now);
    }
  }

  lemma AggregateKeeps(world: World, a: Aggregate, owed: nat, w: Window, now: int)
    requires AggregateFaithful(world, Some(a), owed, w, now) && now < w.end && StillFuture(a.counts, now)
    ensures AggregateFaithfulAt(world, a, owed, w, now)
  {
    var t :| w.start <= t <= now && AggregateFaithfulAt(world, a, owed, w, t);
    if AllFit(world, a.fingerprint) && owed < MAX_SCAN_BYTES {
      FreshScanKeeps(world, a.fingerprint, w, t, now);
    }
  }
}
