/** The incremental cache behind the daily summary. */
module DailyStats {
  import opened Wrappers
  import opened Lines
  import opened EventCounts
  import opened StatsPass
  import opened StatsScan
  import opened StatsFiles
  import opened StatsSlots
  import opened StatsCost

  // ---------- one file ----------

  /** Reads the old prefix again before a resumed scan: an append is believed only when the
    bytes that were there before are still the same. */
  method PrefixUnchanged(bytes: seq<Byte>, oldSize: nat, digest: seq<Byte>, budget: ScanBudget)
    returns (same: bool, spent: bool)
    modifies budget`remaining
    ensures budget.remaining <= old(budget.remaining) <= budget.remaining + oldSize
    ensures oldSize <= |bytes| && old(budget.remaining) >= oldSize ==> !spent
    ensures oldSize <= |bytes| && !spent ==> budget.remaining + oldSize == old(budget.remaining)
    ensures spent ==> !same
    ensures !spent ==> (same <==> oldSize <= |bytes| && bytes[..oldSize] == digest)
  {
    var seen: seq<Byte> := [];
    same, spent := false, false;
    ghost var start := budget.remaining;
    while |seen| < oldSize
      invariant |seen| <= oldSize && seen <= bytes && budget.remaining + |seen| == start
    {
      var left := oldSize - |seen|;
      var chunk := budget.Read(bytes, |seen|, if left < READ_CHUNK_BYTES then left else READ_CHUNK_BYTES);
      if chunk.None? {
        return false, true;
      }
      if chunk.value == [] {
        assert |seen| == |bytes|;
        break;
      }
      assert bytes[..|seen| + |chunk.value|] == bytes[..|seen|] + bytes[|seen|..][..|chunk.value|];
      seen := seen + chunk.value;
    }
    same := |seen| == oldSize && seen == digest;
  }

  /** A pass that starts at the top. */
  const FROM_THE_TOP := Progress(ZERO, ZERO, 0, 0, [])

  /** A pass may start at the top of any text, or where an unchanged prefix was counted before. */
  ghost predicate Startable(bytes: seq<Byte>, start: Progress, oldSize: nat, step: Step) {
    && start.offset == start.position <= oldSize <= |bytes| && start.tail == ZERO
    && start.digest == bytes[..oldSize]
    && Resumable(bytes, start.offset) && start.stable == Prefix(bytes, start.offset, step)
  }

  lemma TopIsStartable(bytes: seq<Byte>, step: Step)
    ensures Startable(bytes, FROM_THE_TOP, 0, step)
  {
    assert bytes[..0] == [];
  }

  lemma EntryIsStartable(world: World, p: Path, e: CachedFile, w: Window, now: int, bytes: seq<Byte>)
    requires world.Sized() && !p.archive && e.appendable && FaithfulAt(world, p, e, w, now)
    requires e.signature.size <= |bytes| && bytes[..e.signature.size] == e.digest
    ensures Startable(bytes, Progress(e.stable, ZERO, e.offset, e.offset, e.digest), e.signature.size, StepAt(world.decode, w, now))
  {
    assert bytes[..e.signature.size][..e.offset] == bytes[..e.offset];
  }

  /** The size of the stream is the one that the stat showed, or not looked at. */
  predicate Known(p: Path, signature: Signature, bytes: seq<Byte>) {
    p.archive || |bytes| == signature.size
  }

  /** What the start of a pass took from the budget, with `left` bytes still to be read. */
  predicate Started(cost: nat, left: int, remaining0: nat, remaining: nat, spent: bool) {
    && remaining0 <= remaining + cost
    && (remaining0 >= cost ==> !spent)
    && (!spent ==> remaining + cost == remaining0 + left)
  }

  method ChooseStart(p: Path, signature: Signature, cached: Option<CachedFile>, bytes: seq<Byte>, budget: ScanBudget,
                     ghost world: World, ghost w: Window, ghost now: int)
    returns (start: Progress, oldSize: nat, spent: bool)
    requires cached.Some? ==> FaithfulAt(world, p, cached.value, w, now)
    requires world.Sized()
    modifies budget`remaining
    ensures budget.remaining <= old(budget.remaining)
    ensures Known(p, signature, bytes) ==> Started(PassCost(p, signature, cached, bytes), |bytes| - start.offset, old(budget.remaining), budget.remaining, spent)
    ensures Startable(bytes, start, oldSize, StepAt(world.decode, w, now))
  {
    start, oldSize, spent := FROM_THE_TOP, 0, false;
    TopIsStartable(bytes, StepAt(world.decode, w, now));
    if cached.Some? && Grown(p, signature, cached.value) {
      var entry := cached.value;
      var same;
      same, spent := PrefixUnchanged(bytes, entry.signature.size, entry.digest, budget);
      if same {
        EntryIsStartable(world, p, entry, w, now, bytes);
        start, oldSize := Progress(entry.stable, ZERO, entry.offset, entry.offset, entry.digest), entry.signature.size;
      }
    }
  }

  /** What the counts of a file say, given what reading it can cost.  The budget is never
    charged more; with an unchanged file, no failed read and more than that left, the counts
    are those of a fresh scan; and if nothing is reported as unreadable all of it was read. */
  ghost predicate ReadExactly(world: World, p: Path, look: Look, cost: nat, w: Window, now: int, counts: Counts,
                              remaining0: nat, error0: bool, remaining: nat, error: bool) {
    && remaining <= remaining0
    && (error0 ==> error)
    && (look.Steady() && look.bytes.Some? ==> error == error0)
    && (look.Steady() ==> remaining0 <= remaining + cost)
    && (look.Steady() && counts.unreadable == 0 ==> remaining0 == remaining + cost)
    && (look.Steady() && Fits(world, p, look.before) && remaining0 > cost ==> error || counts == FileTruth(world, p, look.before, w, now))
  }

  /** The result of a pass over the bytes, and what of it may be kept. */
  method Conclude(signature: Signature, at: Progress, ending: Ending, after: Option<Signature>, budget: ScanBudget)
    returns (counts: Counts, entry: Option<CachedFile>)
    modifies budget`limited, budget`retryableError
    ensures budget.retryableError == (old(budget.retryableError) || (ending == Finished && after.None?))
    ensures budget.limited == (old(budget.limited) || ending != Finished)
    ensures after.Some? ==> counts == Reported(ending != Finished, at.stable, at.tail)
    ensures entry == if ending != BudgetSpent && after == Some(signature) then Some(Kept(signature, at, ending == Finished)) else None
  {
    entry := None;
    if ending == Finished {
      counts := Include(at.stable, at.tail);
      if after.None? {
        budget.retryableError := true;
        counts := OneUnreadable(counts);
      } else if after.value == signature {
        entry := Some(CachedFile(signature, at.digest, at.offset, at.stable, at.tail, true));
      }
      return;
    }
    budget.limited := true;
    var partial := OneUnreadable(at.stable);
    counts := Include(partial, at.tail);
    if after.None? {
      counts := ZERO;
    } else if ending == LineTooLong && after.value == signature {
      entry := Some(CachedFile(signature, at.digest, at.offset, partial, at.tail, false));
    }
  }

  function Kept(signature: Signature, at: Progress, finished: bool): CachedFile {
    CachedFile(signature, at.digest, at.offset, if finished then at.stable else OneUnreadable(at.stable), at.tail, finished)
  }

  /** Counts that were not read from the file. */
  lemma WithoutReading(world: World, p: Path, look: Look, cost: nat, w: Window, now: int, counts: Counts, remaining: nat, error: bool)
    requires cost == 0 || counts.unreadable > 0
    requires Fits(world, p, look.before) && remaining > cost ==> counts == FileTruth(world, p, look.before, w, now)
    ensures ReadExactly(world, p, look, cost, w, now, counts, remaining, error, remaining, error)
  {
  }

  function Unsupported(signature: Signature): CachedFile {
    CachedFile(signature, [], 0, UNREADABLE, ZERO, false)
  }

  lemma UnsupportedCounts(signature: Signature)
    ensures Unsupported(signature).Counted() == UNREADABLE
  {
    PlusNothing(UNREADABLE, ZERO);
  }

  lemma UnsupportedTruth(world: World, p: Path, signature: Signature, w: Window, now: int)
    requires !signature.regular
    ensures FileTruth(world, p, Some(signature), w, now) == UNREADABLE
  {
  }

  lemma UnsupportedIsFaithful(world: World, p: Path, signature: Signature, w: Window, now: int)
    requires w.start <= now && !signature.regular
    ensures Faithful(world, p, Unsupported(signature), w, now)
  {
    UnsupportedCounts(signature);
    UnsupportedTruth(world, p, signature, w, now);
    UnreadableIsFaithful(world, p, Unsupported(signature), w, now);
  }

  method UnsupportedEntry(ghost world: World, ghost p: Path, signature: Signature, ghost w: Window, ghost now: int)
    returns (entry: CachedFile)
    requires w.start <= now && !signature.regular
    ensures Faithful(world, p, entry, w, now) && entry.signature == signature && !entry.appendable
  {
    UnsupportedIsFaithful(world, p, signature, w, now);
    entry := Unsupported(signature);
  }

  /** Passing over a file that is not regular, or that there is no budget for. */
  lemma PassingOver(world: World, p: Path, signature: Signature, look: Look, cost: nat, w: Window, now: int, remaining: nat, error: bool)
    requires look.before == Some(signature) && (!signature.regular || remaining == 0)
    ensures ReadExactly(world, p, look, cost, w, now, UNREADABLE, remaining, error, remaining, error)
  {
    if !signature.regular {
      UnsupportedTruth(world, p, signature, w, now);
    }
    WithoutReading(world, p, look, cost, w, now, UNREADABLE, remaining, error);
  }

  lemma UnreadableIsFaithful(world: World, p: Path, e: CachedFile, w: Window, now: int)
    requires w.start <= now && !e.signature.regular && !e.appendable
    requires e.Counted() == FileTruth(world, p, Some(e.signature), w, now)
    ensures Faithful(world, p, e, w, now)
  {
    assert FaithfulAt(world, p, e, w, now);
  }

  lemma FaithfulNow(world: World, p: Path, e: CachedFile, w: Window, now: int)
    requires w.start <= now && FaithfulAt(world, p, e, w, now)
    ensures Faithful(world, p, e, w, now)
  {
  }

  /** Reads one changed file, from the top or from where the last scan of it can be resumed. */
  method ReadFile(world: World, p: Path, signature: Signature, cached: Option<CachedFile>, look: Look, w: Window, now: int,
                  budget: ScanBudget)
    returns (counts: Counts, entry: Option<CachedFile>)
    requires world.Sized() && signature.regular && look.before == Some(signature) && Coherent(world, p, look)
    requires cached.Some? ==> FaithfulAt(world, p, cached.value, w, now)
    modifies budget
    ensures entry.Some? ==> FaithfulAt(world, p, entry.value, w, now) && entry.value.signature == signature
    ensures ReadExactly(world, p, look, PassCost(p, signature, cached, world.contentOf(p, signature)), w, now, counts,
                        old(budget.remaining), old(budget.retryableError), budget.remaining, budget.retryableError)
  {
    ghost var cost := PassCost(p, signature, cached, world.contentOf(p, signature));
    if look.bytes.None? {
      budget.retryableError := true;
      return UNREADABLE, None;
    }
    var bytes := look.bytes.value;
    var expected := if p.archive then None else Some(signature.size);
    ghost var remaining, error := budget.remaining, budget.retryableError;
    var at, ending := Pass(world, p, signature, cached, bytes, expected, w, now, budget);
    counts, entry := Conclude(signature, at, ending, look.after, budget);
    if Known(p, signature, bytes) {
      KnownPass(world, p, look, signature, at, ending, PassCost(p, signature, cached, bytes), w, now, remaining, error, budget.remaining);
    }
  }

  /** One pass over the bytes: where it starts, what is read, what that counts. */
  method Pass(world: World, p: Path, signature: Signature, cached: Option<CachedFile>, bytes: seq<Byte>, expected: Option<nat>,
              w: Window, now: int, budget: ScanBudget)
    returns (at: Progress, ending: Ending)
    requires world.Sized() && (cached.Some? ==> FaithfulAt(world, p, cached.value, w, now))
    modifies budget`remaining
    requires expected == if p.archive then None else Some(signature.size)
    ensures budget.remaining <= old(budget.remaining)
    ensures Known(p, signature, bytes) ==>
              && Paid(PassCost(p, signature, cached, bytes), old(budget.remaining), budget.remaining, ending)
              && (ending != BudgetSpent ==> Consumed(bytes, ending == LineTooLong, at, StepAt(world.decode, w, now)))
  {
    hide PassCost, Startable, Consumed, Underway, Delivered;
    var step := StepAt(world.decode, w, now);
    var start, oldSize, spent := ChooseStart(p, signature, cached, bytes, budget, world, w, now);
    StartsWithin(bytes, start, oldSize, step);
    var lines: seq<seq<Byte>> := [];
    ending := BudgetSpent;
    if !spent {
      lines, ending := BoundedLines(bytes, start.offset, expected, MAX_LINE_BYTES, budget);
    }
    ghost var known := Known(p, signature, bytes) && ending != BudgetSpent;
    if known {
      Setout(bytes, lines, ending == LineTooLong, start, oldSize, step);
    }
    StepAtIsNeutral(world.decode, w, now);
    at := ConsumeLines(lines, start, oldSize, step, bytes, ending == LineTooLong, known);
  }

  /** What a pass took from the budget: no more than its cost, all of it if it got through, and
    it gets through or meets a line that is too long if there is more. */
  predicate Paid(cost: nat, remaining0: nat, remaining: nat, ending: Ending) {
    && remaining0 <= remaining + cost
    && (remaining0 > cost ==> ending != BudgetSpent)
    && (ending == Finished ==> remaining0 == remaining + cost)
  }

  lemma StartsWithin(bytes: seq<Byte>, start: Progress, oldSize: nat, step: Step)
    requires Startable(bytes, start, oldSize, step)
    ensures start.offset <= |bytes|
  {
  }

  lemma Setout(bytes: seq<Byte>, lines: seq<seq<Byte>>, refused: bool, start: Progress, oldSize: nat, step: Step)
    requires Startable(bytes, start, oldSize, step) && Delivered(bytes[start.offset..], lines, refused, MAX_LINE_BYTES)
    ensures Underway(bytes, lines, refused, oldSize, start, step)
  {
    hide TextBodies, BodiesRead, NearlyFits, LinesRead, Refused, Fold;
  }

  /** A pass over a file whose bytes are known: what is kept is faithful, and the counts are
    those of a fresh scan. */
  lemma KnownPass(world: World, p: Path, look: Look, signature: Signature, at: Progress, ending: Ending, cost: nat, w: Window, now: int,
                  remaining0: nat, error0: bool, remaining: nat)
    requires look.before == Some(signature) && signature.regular && look.bytes.Some? && Coherent(world, p, look)
    requires remaining <= remaining0 && Paid(cost, remaining0, remaining, ending)
    requires ending != BudgetSpent ==> Consumed(look.bytes.value, ending == LineTooLong, at, StepAt(world.decode, w, now))
    ensures look.Steady() && ending != BudgetSpent ==> FaithfulAt(world, p, Kept(signature, at, ending == Finished), w, now)
    ensures look.after.Some? ==>
              ReadExactly(world, p, look, cost, w, now, Reported(ending != Finished, at.stable, at.tail), remaining0, error0, remaining, error0)
  {
    hide TextBodies, BodiesRead, NearlyFits, LinesRead, Refused, Fold, Include;
    var bytes, step := look.bytes.value, StepAt(world.decode, w, now);
    if look.Steady() && ending != BudgetSpent && PairsFit(bytes, MAX_LINE_BYTES) {
      StepAtIsAdditive(world.decode, w, now);
      PassIsFresh(bytes, ending == LineTooLong, at, step);
    }
    if ending != Finished {
      CutShortIsUnreadable(at.stable, at.tail);
    }
  }

  lemma CutShortIsUnreadable(stable: Counts, tail: Counts)
    ensures Reported(true, stable, tail).unreadable > 0
  {
  }

  // ---------- the cache ----------

  /** The cache of one desktop session; `maxFiles` bounds its entries. */
  class DailySummaryCache {
    const world: World
    const maxFiles: nat
    var slots: seq<Slot>
    var aggregate: Option<Aggregate>
    var window: Option<Window>
    var lastNow: int
    /** Every state that a file was seen in, and what the visit that made the aggregate read. */
    ghost var seen: set<Sighting>
    ghost var owed: nat

    ghost predicate Valid()
      reads this
    {
      && world.Sized() && maxFiles > 0 && Tended(slots, maxFiles, seen)
      && (window.None? ==> slots == [] && aggregate == None)
      && (window.Some? ==>
            && window.value.start <= lastNow < window.value.end
            && AllFaithful(world, slots, window.value, lastNow)
            && AggregateFaithful(world, aggregate, owed, window.value, lastNow)
            && (aggregate.Some? ==> owed <= Charge(world, seen, aggregate.value.fingerprint)))
    }

    /** The aggregate answers without looking at a file. */
    predicate Repeats(looks: map<Path, Look>, w: Window, now: int)
      reads this
    {
      && window == Some(w) && lastNow <= now && aggregate.Some?
      && aggregate.value.fingerprint == FirstLook(looks) && StillFuture(aggregate.value.counts, now)
    }

    /** The bytes that a summary has to read, or that the one it repeats had to read. */
    ghost function Cost(looks: map<Path, Look>, w: Window, now: int): nat
      reads this
    {
      if Repeats(looks, w, now) then owed
      else ReadCost(world, FirstLook(looks), if window == Some(w) && lastNow <= now then slots else [], now)
    }

    constructor (world: World, maxFiles: nat)
      requires world.Sized() && maxFiles > 0
      ensures Valid() && this.world == world && this.maxFiles == maxFiles && seen == {}
    {
      this.world, this.maxFiles := world, maxFiles;
      slots, aggregate, window, lastNow := [], None, None, 0;
      seen, owed := {}, 0;
    }

    /** Keeps the newest entries when there are too many. */
    method Remember(p: Path, entry: CachedFile, ghost w: Window, ghost now: int)
      requires maxFiles > 0 && |slots| <= maxFiles
      requires AllFaithful(world, slots, w, now) && Faithful(world, p, entry, w, now)
      modifies this`slots
      ensures |slots| <= maxFiles && AllFaithful(world, slots, w, now)
      ensures Gained(old(slots), slots, p, Some(entry.signature), maxFiles)
    {
      slots := slots + [Slot(p, entry)];
      if |slots| > maxFiles {
        slots := slots[1..];
      }
    }

    /** Takes the entry of a file out of the cache, unless an event it saw in the future is due. */
    method TakeEntry(p: Path, w: Window, now: int) returns (cached: Option<CachedFile>)
      requires w.start <= now < w.end && AllFaithful(world, slots, w, now)
      modifies this`slots
      ensures slots == WithoutPath(old(slots), p) && AllFaithful(world, slots, w, now)
      ensures cached == Usable(Find(old(slots), p), now)
      ensures cached.Some? ==> FaithfulAt(world, p, cached.value, w, now)
    {
      cached := Find(slots, p);
      slots := WithoutPath(slots, p);
      if cached.Some? {
        if StillFuture(cached.value.Counted(), now) {
          EntryKeeps(world, p, cached.value, w, now);
        } else {
          cached := None;
        }
      }
    }

    /** The counts of one file: from its entry when nothing changed, else from a read. */
    method FileCounts(p: Path, look: Look, w: Window, now: int, budget: ScanBudget) returns (counts: Counts)
      requires world.Sized() && maxFiles > 0 && |slots| <= maxFiles && w.start <= now < w.end
      requires Coherent(world, p, look) && AllFaithful(world, slots, w, now)
      modifies this`slots, budget
      ensures |slots| <= maxFiles && AllFaithful(world, slots, w, now)
      ensures Took(old(slots), slots, p, look.before, maxFiles)
      ensures ReadExactly(world, p, look, FileCost(world, p, look.before, Find(old(slots), p), now), w, now, counts,
                          old(budget.remaining), old(budget.retryableError), budget.remaining, budget.retryableError)
      ensures Current(Find(old(slots), p), look.before, now) ==> budget.remaining == old(budget.remaining)
    {
      ghost var cost := FileCost(world, p, look.before, Find(slots, p), now);
      var cached := TakeEntry(p, w, now);
      if look.before.None? {
        WithoutReading(world, p, look, cost, w, now, ZERO, budget.remaining, budget.retryableError);
        return ZERO;
      }
      var signature := look.before.value;
      if cached.Some? && cached.value.signature == signature {
        counts := Recall(p, cached.value, look, w, now, budget);
      } else if !signature.regular || (budget.remaining == 0 && signature.size > 0) {
        PassOver(p, signature, w, now, budget);
        PassingOver(world, p, signature, look, cost, w, now, budget.remaining, budget.retryableError);
        counts := UNREADABLE;
      } else {
        counts := ReadAndRemember(p, signature, cached, look, w, now, budget);
      }
    }

    /** A file that is not regular is remembered as unreadable; one that there is no budget
      for is only counted as unreadable. */
    method PassOver(p: Path, signature: Signature, w: Window, now: int, budget: ScanBudget)
      requires maxFiles > 0 && |slots| <= maxFiles && w.start <= now < w.end && AllFaithful(world, slots, w, now)
      modifies this`slots, budget`limited
      ensures |slots| <= maxFiles && AllFaithful(world, slots, w, now) && budget.limited
      ensures slots == old(slots) || Gained(old(slots), slots, p, Some(signature), maxFiles)
    {
      budget.limited := true;
      if !signature.regular {
        var entry := UnsupportedEntry(world, p, signature, w, now);
        Remember(p, entry, w, now);
      }
    }

    method Recall(p: Path, entry: CachedFile, look: Look, w: Window, now: int, budget: ScanBudget) returns (counts: Counts)
      requires maxFiles > 0 && |slots| <= maxFiles && w.start <= now < w.end
      requires AllFaithful(world, slots, w, now) && FaithfulAt(world, p, entry, w, now) && look.before == Some(entry.signature)
      modifies this`slots, budget`limited
      ensures |slots| <= maxFiles && AllFaithful(world, slots, w, now)
      ensures Gained(old(slots), slots, p, look.before, maxFiles)
      ensures ReadExactly(world, p, look, 0, w, now, counts, budget.remaining, budget.retryableError,
                          budget.remaining, budget.retryableError)
    {
      budget.limited := budget.limited || !entry.appendable;
      FaithfulNow(world, p, entry, w, now);
      Remember(p, entry, w, now);
      counts := entry.Counted();
      WithoutReading(world, p, look, 0, w, now, counts, budget.remaining, budget.retryableError);
    }

    method ReadAndRemember(p: Path, signature: Signature, cached: Option<CachedFile>, look: Look, w: Window, now: int,
                           budget: ScanBudget)
      returns (counts: Counts)
      requires world.Sized() && maxFiles > 0 && |slots| <= maxFiles && w.start <= now < w.end
      requires Coherent(world, p, look) && AllFaithful(world, slots, w, now)
      requires signature.regular && look.before == Some(signature)
      requires cached.Some? ==> FaithfulAt(world, p, cached.value, w, now)
      modifies this`slots, budget
      ensures |slots| <= maxFiles && AllFaithful(world, slots, w, now)
      ensures slots == old(slots) || Gained(old(slots), slots, p, look.before, maxFiles)
      ensures ReadExactly(world, p, look, PassCost(p, signature, cached, world.contentOf(p, signature)), w, now, counts,
                          old(budget.remaining), old(budget.retryableError), budget.remaining, budget.retryableError)
    {
      var entry;
      counts, entry := ReadFile(world, p, signature, cached, look, w, now, budget);
      if entry.Some? {
        FaithfulNow(world, p, entry.value, w, now);
        Remember(p, entry.value, w, now);
      }
    }

    /** Adds up the files in any order: the sum is that of a fresh scan, if no file changes, no
      read fails and the budget is large enough; if it is not, the sum says so. */
    method AddAll(files: seq<Path>, looks: map<Path, Look>, w: Window, now: int, budget: ScanBudget) returns (counts: Counts)
      requires world.Sized() && maxFiles > 0 && w.start <= now < w.end
      requires Tended(slots, maxFiles, seen) && Sightings(looks) <= seen && Roomy(files, files, slots, maxFiles)
      requires AllFaithful(world, slots, w, now) && AllCoherent(world, looks)
      requires multiset(files) == multiset(looks.Keys) && budget.remaining == MAX_SCAN_BYTES && !budget.retryableError
      modifies this`slots, budget
      ensures Tended(slots, maxFiles, seen) && AllFaithful(world, slots, w, now)
      ensures AllSteady(looks) && AllRead(looks) ==> !budget.retryableError
      ensures Coverable(world, looks, ReadCost(world, FirstLook(looks), old(slots), now)) ==>
                budget.retryableError || counts == FreshScan(world, FirstLook(looks), w, now)
      ensures AllSteady(looks) && ReadCost(world, FirstLook(looks), old(slots), now) > MAX_SCAN_BYTES ==> counts.unreadable > 0
    {
      hide DistinctSlots, AllSeen, Took, Roomy, ReadExactly, AllFaithful, FreshScan, FileCost, AllFit, AllSteady, AllRead, SumSoFar, Include;
      counts := ZERO;
      ghost var slots0, cost := slots, CostOf(world, FirstLook(looks), slots, now);
      ghost var sum := SumStarts(world, looks, files, cost, counts, w, now);
      FilesAreDistinct(files, looks.Keys);
      assert files[0..] == files && FirstLook(looks).Keys == looks.Keys;
      for i := 0 to |files|
        invariant Tended(slots, maxFiles, seen) && AllFaithful(world, slots, w, now)
        invariant Roomy(files, files[i..], slots, maxFiles) && forall q :: q in files[i..] ==> Find(slots, q) == Find(slots0, q)
        invariant SumSoFar(world, looks, cost, files[i..], sum, counts, w, now, budget.remaining, budget.retryableError)
      {
        SumNext(world, looks, cost, files[i..], sum, counts, w, now, budget.remaining, budget.retryableError);
        var look := looks[files[i]];
        ghost var remaining, error, before := budget.remaining, budget.retryableError, slots;
        assert files[i..][0] == files[i] && files[i..][1..] == files[i + 1..];
        var c := FileCounts(files[i], look, w, now, budget);
        OneFile(world, files, files[i..], looks, before, slots, maxFiles, seen);
        sum := SumGrows(world, looks, cost, files[i..], sum, counts, w, now, remaining, error, c,
                        budget.remaining, budget.retryableError);
        counts := Include(counts, c);
      }
      assert files[|files|..] == [];
      SumEnds(world, looks, cost, sum, counts, w, now, budget.remaining, budget.retryableError);
    }

    /** Forgets everything on another day or when the clock went back. */
    method Restart(w: Window, now: int)
      requires Valid() && w.start <= now < w.end
      modifies this
      ensures Valid() && window == Some(w) && lastNow == now && seen == old(seen) && owed == old(owed)
      ensures if old(window) == Some(w) && old(lastNow) <= now then slots == old(slots) && aggregate == old(aggregate)
              else slots == [] && aggregate == None
    {
      if window != Some(w) || now < lastNow {
        slots, aggregate := [], None;
      }
      window, lastNow := Some(w), now;
    }

    /** The daily summary: whatever happened to the files and the clock since the last one, it
      is what a fresh scan of all files counts if what it has to read is within the budget, and
      says that it is incomplete if that exceeds the budget. */
    method Summary(files: seq<Path>, looks: map<Path, Look>, w: Window, now: int) returns (counts: Counts)
      requires Valid() && w.start <= now < w.end
      requires multiset(files) == multiset(looks.Keys) && AllCoherent(world, looks)
      modifies this
      ensures Valid() && window == Some(w) && lastNow == now && seen == old(seen) + Sightings(looks)
      ensures AllRead(looks) && Coverable(world, looks, old(Cost(looks, w, now))) ==>
                counts == FreshScan(world, FirstLook(looks), w, now) && Tells(world, FirstLook(looks), counts, w, now)
      ensures AllSteady(looks) && old(Cost(looks, w, now)) > MAX_SCAN_BYTES ==> counts.unreadable > 0
      ensures old(Cost(looks, w, now)) <= Charge(world, old(seen), FirstLook(looks))
    {
      Restart(w, now);
      FreshScanTells(world, FirstLook(looks), w, now);
      assert Cost(looks, w, now) == old(Cost(looks, w, now));
      CostWithinCharge(world, seen, FirstLook(looks), slots, w, now);
      var fingerprint := FirstLook(looks);
      if aggregate.Some? && aggregate.value.fingerprint == fingerprint && StillFuture(aggregate.value.counts, now) {
        AggregateKeeps(world, aggregate.value, owed, w, now);
        Witnessed(looks);
        return aggregate.value.counts;
      }
      aggregate := None;
      Witnessed(looks);
      counts := Rescan(files, looks, fingerprint, w, now);
    }

    /** The summary now knows the states that it met. */
    ghost method Witnessed(looks: map<Path, Look>)
      requires Valid()
      modifies this`seen
      ensures Valid() && seen == old(seen) + Sightings(looks)
    {
      if aggregate.Some? {
        ChargeGrows(world, seen, seen + Sightings(looks), aggregate.value.fingerprint);
      }
      seen := seen + Sightings(looks);
    }

    method Rescan(files: seq<Path>, looks: map<Path, Look>, fingerprint: Fingerprint, w: Window, now: int) returns (counts: Counts)
      requires Valid() && window == Some(w) && lastNow == now && aggregate == None && fingerprint == FirstLook(looks)
      requires multiset(files) == multiset(looks.Keys) && AllCoherent(world, looks) && Sightings(looks) <= seen
      modifies this`slots, this`aggregate, this`owed
      ensures Valid()
      ensures AllRead(looks) && Coverable(world, looks, ReadCost(world, fingerprint, old(slots), now)) ==>
                counts == FreshScan(world, fingerprint, w, now)
      ensures AllSteady(looks) && ReadCost(world, fingerprint, old(slots), now) > MAX_SCAN_BYTES ==> counts.unreadable > 0
    {
      hide Tended, ReadCost, FreshScan, Charge, Fits, AllSteady, AllRead, CachedFirst, CachedLead, Find;
      slots := Listed(slots, files);
      ListedKeeps(old(slots), files, maxFiles, seen);
      SameFiles(files, looks.Keys);
      ReadCostDependsOn(world, fingerprint, slots, old(slots), now);
      CostWithinCharge(world, seen, fingerprint, slots, w, now);
      ghost var cost := ReadCost(world, fingerprint, slots, now);
      var budget := new ScanBudget(MAX_SCAN_BYTES);
      var overflow := |files| > maxFiles;
      CachedFirstPermutes(files, slots);
      CachedFirstLeads(files, slots);
      counts := AddAll(if overflow then CachedFirst(files, slots) else files, looks, w, now, budget);
      if (overflow || budget.limited) && !budget.retryableError && fingerprint == SecondLook(looks) {
        AggregateIsFaithful(world, looks, counts, cost, w, now);
        aggregate, owed := Some(Aggregate(fingerprint, counts)), cost;
      }
    }
  }

  // ---------- any run ----------

  /** One request for the summary: the files as it meets them, the day and the time. */
  datatype Visit = Visit(files: seq<Path>, looks: map<Path, Look>, day: Window, now: int) {
    predicate WellFormed(world: World) {
      day.start <= now < day.end && multiset(files) == multiset(looks.Keys) && AllCoherent(world, looks)
    }

    /** A fresh scan, if the bytes to be read are certainly within the budget. */
    ghost predicate Answered(world: World, seen: set<Sighting>, counts: Counts) {
      AllRead(looks) && Coverable(world, looks, Charge(world, seen, FirstLook(looks))) ==>
        counts == FreshScan(world, FirstLook(looks), day, now) && Tells(world, FirstLook(looks), counts, day, now)
    }
  }

  /** The states that the files were in at all these visits. */
  function SeenAt(visits: seq<Visit>): set<Sighting> {
    if visits == [] then {} else SeenAt(visits[..|visits| - 1]) + Sightings(visits[|visits| - 1].looks)
  }

  lemma SeenNext(visits: seq<Visit>, i: nat)
    requires i <= |visits|
    ensures SeenAt(visits[..0]) == {}
    ensures i < |visits| ==> SeenAt(visits[..i + 1]) == SeenAt(visits[..i]) + Sightings(visits[i].looks)
  {
    if i < |visits| {
      assert visits[..i + 1][..i] == visits[..i];
    }
  }

  lemma AnsweredWithin(v: Visit, world: World, seen: set<Sighting>, cost: nat, counts: Counts)
    requires AllRead(v.looks) && Coverable(world, v.looks, cost) ==>
               counts == FreshScan(world, FirstLook(v.looks), v.day, v.now) && Tells(world, FirstLook(v.looks), counts, v.day, v.now)
    requires cost <= Charge(world, seen, FirstLook(v.looks))
    ensures v.Answered(world, seen, counts)
  {
  }

  /** Every answer of any run is a fresh scan, whatever the files, the days and the clock did
    between the requests, if the files of that visit are within the budget: at their size,
    with room for an open line if they grew, and twice if they were rewritten in place. */
  method AnyRun(world: World, maxFiles: nat, visits: seq<Visit>) returns (answers: seq<Counts>)
    requires world.Sized() && maxFiles > 0 && forall v :: v in visits ==> v.WellFormed(world)
    ensures |answers| == |visits|
    ensures forall i :: 0 <= i < |visits| ==> visits[i].Answered(world, SeenAt(visits[..i]), answers[i])
  {
    hide FreshScan, Charge, AllFit, AllSteady, AllRead, AllCoherent, FirstLook, Sightings, Coverable, SeenAt;
    answers := [];
    var cache := new DailySummaryCache(world, maxFiles);
    SeenNext(visits, 0);
    for i := 0 to |visits|
      invariant cache.Valid() && fresh(cache) && cache.world == world && cache.seen == SeenAt(visits[..i])
      invariant |answers| == i && forall j :: 0 <= j < i ==> visits[j].Answered(world, SeenAt(visits[..j]), answers[j])
    {
      var v := visits[i];
      assert v in visits && v.WellFormed(world);
      ghost var cost := cache.Cost(v.looks, v.day, v.now);
      var counts := cache.Summary(v.files, v.looks, v.day, v.now);
      AnsweredWithin(v, world, SeenAt(visits[..i]), cost, counts);
      SeenNext(visits, i);
      answers := answers + [counts];
    }
  }

  // ---------- adding up ----------

  predicate AllSteady(looks: map<Path, Look>) {
    forall p :: p in looks ==> looks[p].Steady()
  }

  predicate AllCoherent(world: World, looks: map<Path, Look>) {
    forall p :: p in looks ==> Coherent(world, p, looks[p])
  }

  /** No file changes, no line is a CRLF line just over the cap, and the bytes to be read fit
    the scan budget. */
  ghost predicate Coverable(world: World, looks: map<Path, Look>, cost: nat) {
    AllSteady(looks) && AllFit(world, FirstLook(looks)) && cost < MAX_SCAN_BYTES
  }

  predicate AllRead(looks: map<Path, Look>) {
    forall p :: p in looks ==> looks[p].bytes.Some?
  }

  lemma AgreeingLooks(looks: map<Path, Look>)
    requires FirstLook(looks) == SecondLook(looks)
    ensures AllSteady(looks)
  {
    forall p | p in looks ensures looks[p].Steady() {
      assert FirstLook(looks)[p] == SecondLook(looks)[p];
    }
  }

  lemma AggregateIsFaithful(world: World, looks: map<Path, Look>, counts: Counts, cost: nat, w: Window, now: int)
    requires FirstLook(looks) == SecondLook(looks) && w.start <= now
    requires Coverable(world, looks, cost) ==> counts == FreshScan(world, FirstLook(looks), w, now)
    requires AllSteady(looks) && cost > MAX_SCAN_BYTES ==> counts.unreadable > 0
    ensures AggregateFaithful(world, Some(Aggregate(FirstLook(looks), counts)), cost, w, now)
  {
    AgreeingLooks(looks);
    assert AggregateFaithfulAt(world, Aggregate(FirstLook(looks), counts), cost, w, now);
  }

  /** After one file the files that are left still have their entries. */
  lemma OneFile(world: World, files: seq<Path>, left: seq<Path>, looks: map<Path, Look>, before: seq<Slot>, after: seq<Slot>,
                maxFiles: nat, seen: set<Sighting>)
    requires left != [] && left[0] in looks && DistinctFiles(left) && (forall q :: q in left ==> q in files)
    requires Tended(before, maxFiles, seen) && Sightings(looks) <= seen && Roomy(files, left, before, maxFiles)
    requires Took(before, after, left[0], looks[left[0]].before, maxFiles)
    ensures Tended(after, maxFiles, seen) && Roomy(files, left[1..], after, maxFiles)
    ensures forall q :: q in left[1..] ==> Find(after, q) == Find(before, q)
  {
    hide Tended, Took, Roomy;
    var s := looks[left[0]].before;
    assert s.Some? ==> (left[0], s.value) in Sightings(looks);
    EntriesStay(files, left, before, after, s, maxFiles, seen);
    TookKeeps(before, after, left[0], s, maxFiles, seen);
  }

  lemma FilesAreDistinct(files: seq<Path>, paths: set<Path>)
    requires multiset(files) == multiset(paths)
    ensures DistinctFiles(files)
  {
    forall i, j | 0 <= i < j < |files| ensures files[i] != files[j] {
      var p := files[i];
      assert files == files[..i] + [p] + files[i + 1..];
      assert multiset(paths)[p] <= 1;
      assert multiset(files)[p] == multiset(files[..i])[p] + 1 + multiset(files[i + 1..])[p];
      assert multiset(files[i + 1..])[p] == 0;
      assert files[i + 1..][j - i - 1] == files[j];
      assert files[j] in multiset(files[i + 1..]);
    }
  }

  lemma SameFiles(files: seq<Path>, paths: set<Path>)
    requires multiset(files) == multiset(paths)
    ensures forall p :: p in files <==> p in paths
  {
    forall p ensures p in files <==> p in paths {
      assert p in files <==> p in multiset(files);
    }
  }

  /** How far a sum is: the files that are left, what a fresh scan counts for the others, and
    what they could cost. */
  datatype Partial = Partial(rest: Fingerprint, done: Counts, paid: nat)

  ghost predicate SumSoFar(world: World, looks: map<Path, Look>, cost: Path -> nat, left: seq<Path>, sum: Partial, counts: Counts,
                           w: Window, now: int, remaining: nat, error: bool) {
    && multiset(left) == multiset(sum.rest.Keys)
    && (forall p :: p in sum.rest ==> p in looks && sum.rest[p] == looks[p].before)
    && (AllSteady(looks) && AllRead(looks) ==> !error)
    && FreshScan(world, FirstLook(looks), w, now) == Include(sum.done, FreshScan(world, sum.rest, w, now))
    && Spent(looks, cost, sum, counts, remaining)
    && (Coverable(world, looks, Sum(looks.Keys, cost)) ==> error || counts == sum.done)
  }

  /** The budget so far: never below what the files done so far may cost, and exactly that if
    nothing is reported as unreadable. */
  ghost predicate Spent(looks: map<Path, Look>, cost: Path -> nat, sum: Partial, counts: Counts, remaining: nat) {
    && Sum(looks.Keys, cost) == sum.paid + Sum(sum.rest.Keys, cost)
    && (AllSteady(looks) ==> MAX_SCAN_BYTES <= remaining + sum.paid)
    && (AllSteady(looks) && counts.unreadable == 0 ==> MAX_SCAN_BYTES == remaining + sum.paid)
  }

  lemma SumStarts(world: World, looks: map<Path, Look>, files: seq<Path>, cost: Path -> nat, counts: Counts, w: Window, now: int)
    returns (sum: Partial)
    requires multiset(files) == multiset(looks.Keys) && counts == ZERO
    ensures SumSoFar(world, looks, cost, files, sum, counts, w, now, MAX_SCAN_BYTES, false)
  {
    sum := Partial(FirstLook(looks), counts, 0);
    assert sum.rest.Keys == looks.Keys;
    NothingDone(counts, FreshScan(world, sum.rest, w, now));
  }

  lemma NothingDone(done: Counts, all: Counts)
    requires done == ZERO
    ensures Include(done, all) == all
  {
    hide Include;
    IncludeLaws(all, done, done);
  }

  lemma SumGrows(world: World, looks: map<Path, Look>, cost: Path -> nat, left: seq<Path>, sum: Partial, counts: Counts, w: Window,
                 now: int, remaining0: nat, error0: bool, c: Counts, remaining: nat, error: bool)
    returns (sum': Partial)
    requires left != [] && SumSoFar(world, looks, cost, left, sum, counts, w, now, remaining0, error0)
    requires left[0] in looks && ReadExactly(world, left[0], looks[left[0]], cost(left[0]), w, now, c, remaining0, error0, remaining, error)
    ensures SumSoFar(world, looks, cost, left[1..], sum', Include(counts, c), w, now, remaining, error)
  {
    hide FileTruth, AllFit, AllSteady, Include;
    var p := left[0];
    NextFile(left, sum.rest);
    var truth := FileTruth(world, p, sum.rest[p], w, now);
    FreshScanTakes(world, sum.rest, p, w, now);
    IncludeLaws(sum.done, truth, FreshScan(world, sum.rest - {p}, w, now));
    sum' := Partial(sum.rest - {p}, Include(sum.done, truth), sum.paid + cost(p));
    SumTakes(sum.rest.Keys, cost, p);
    assert sum'.rest.Keys == sum.rest.Keys - {p};
    FileInSum(world, looks, p);
    UnreadableAdds(counts, c);
  }

  lemma UnreadableAdds(a: Counts, b: Counts)
    ensures Include(a, b).unreadable == a.unreadable + b.unreadable
  {
  }

  lemma FileInSum(world: World, looks: map<Path, Look>, p: Path)
    requires p in looks
    ensures AllSteady(looks) ==> looks[p].Steady()
    ensures AllRead(looks) ==> looks[p].bytes.Some?
    ensures AllFit(world, FirstLook(looks)) ==> Fits(world, p, looks[p].before)
  {
    assert FirstLook(looks)[p] == looks[p].before;
  }

  lemma SumNext(world: World, looks: map<Path, Look>, cost: Path -> nat, left: seq<Path>, sum: Partial, counts: Counts,
                w: Window, now: int, remaining: nat, error: bool)
    requires left != [] && SumSoFar(world, looks, cost, left, sum, counts, w, now, remaining, error)
    ensures left[0] in looks
  {
    NextFile(left, sum.rest);
  }

  lemma SumEnds(world: World, looks: map<Path, Look>, cost: Path -> nat, sum: Partial, counts: Counts,
                w: Window, now: int, remaining: nat, error: bool)
    requires SumSoFar(world, looks, cost, [], sum, counts, w, now, remaining, error)
    ensures AllSteady(looks) && AllRead(looks) ==> !error
    ensures Coverable(world, looks, Sum(looks.Keys, cost)) ==> error || counts == FreshScan(world, FirstLook(looks), w, now)
    ensures AllSteady(looks) && Sum(looks.Keys, cost) > MAX_SCAN_BYTES ==> counts.unreadable > 0
  {
    NothingLeft(sum.rest);
    PlusNothing(sum.done, FreshScan(world, sum.rest, w, now));
    hide Include, AllSteady, AllFit;
    assert Sum(sum.rest.Keys, cost) == 0;
  }

  lemma NextFile(left: seq<Path>, rest: Fingerprint)
    requires left != [] && multiset(left) == multiset(rest.Keys)
    ensures left[0] in rest && multiset(left[1..]) == multiset((rest - {left[0]}).Keys)
  {
    var p := left[0];
    assert left == [p] + left[1..];
    assert p in multiset(left);
    assert (rest - {p}).Keys == rest.Keys - {p};
    forall x: Path ensures multiset(left[1..])[x] == multiset(rest.Keys - {p})[x] {
      assert multiset(left)[x] == multiset(rest.Keys)[x];
    }
  }

  lemma NothingLeft(rest: Fingerprint)
    requires multiset([]) == multiset(rest.Keys)
    ensures rest == map[]
  {
    forall p: Path ensures p !in rest {
      assert p !in multiset(rest.Keys);
    }
  }
}
