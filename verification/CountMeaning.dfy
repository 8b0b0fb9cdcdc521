/** What the daily counters say about the lines that were read, by filtering the lines. */
module CountMeaning {
  import opened Wrappers
  import opened Lines
  import opened EventCounts

  // ---------- filtering ----------

  /** How many of the lines there are that are to be kept. */
  ghost function Tally(items: seq<Parsed>, keep: Parsed -> bool): nat {
    if items == [] then 0
    else Tally(items[..|items| - 1], keep) + (if keep(items[|items| - 1]) then 1 else 0)
  }

  lemma TallyNext(items: seq<Parsed>, x: Parsed, keep: Parsed -> bool)
    ensures Tally(items + [x], keep) == Tally(items, keep) + (if keep(x) then 1 else 0)
  {
    assert (items + [x])[..|items|] == items;
  }

  lemma {:induction false} TallyConcat(a: seq<Parsed>, b: seq<Parsed>, keep: Parsed -> bool)
    ensures Tally(a + b, keep) == Tally(a, keep) + Tally(b, keep)
    decreases |b|
  {
    if b == [] {
      assert a + b == a;
    } else {
      assert (a + b)[..|a + b| - 1] == a + b[..|b| - 1];
      TallyConcat(a, b[..|b| - 1], keep);
    }
  }

  // ---------- the lines that count ----------

  /** An access event of the day so far. */
  predicate Today(p: Parsed, w: Window, now: int) {
    p.Event? && p.access && w.start <= p.ts <= now
  }

  /** Its outcome is known, so it counts. */
  predicate Counted(p: Parsed, w: Window, now: int) {
    Today(p, w, now) && p.success.Some?
  }

  /** An access event later this day. */
  predicate Due(p: Parsed, w: Window, now: int) {
    p.Event? && p.access && now < p.ts < w.end
  }

  function IsCounted(w: Window, now: int): Parsed -> bool {
    p => Counted(p, w, now)
  }

  function IsFailure(w: Window, now: int): Parsed -> bool {
    p => Counted(p, w, now) && p.success == Some(false)
  }

  function IsBy(who: Attribution, w: Window, now: int): Parsed -> bool {
    p => Counted(p, w, now) && p.who == who
  }

  function IsOf(op: string, w: Window, now: int): Parsed -> bool {
    p => Counted(p, w, now) && p.op == op
  }

  /** Not an event at all, or an access of the day so far without an outcome. */
  function IsSkipped(w: Window, now: int): Parsed -> bool {
    (p: Parsed) => p.Malformed? || (Today(p, w, now) && p.success.None?)
  }

  /** The greatest of the times of the counted lines. */
  ghost predicate Latest(x: Option<int>, lines: seq<Parsed>, w: Window, now: int) {
    && (x.None? ==> forall p :: p in lines ==> !Counted(p, w, now))
    && (x.Some? ==> exists p :: p in lines && Counted(p, w, now) && p.ts == x.value)
    && (x.Some? ==> forall p :: p in lines && Counted(p, w, now) ==> p.ts <= x.value)
  }

  /** The least of the access times that are still to come. */
  ghost predicate Soonest(x: Option<int>, lines: seq<Parsed>, w: Window, now: int) {
    && (x.None? ==> forall p :: p in lines ==> !Due(p, w, now))
    && (x.Some? ==> exists p :: p in lines && Due(p, w, now) && p.ts == x.value)
    && (x.Some? ==> forall p :: p in lines && Due(p, w, now) ==> x.value <= p.ts)
  }

  /** The numbers of accesses, failures and skipped lines. */
  ghost predicate Numbers(c: Counts, lines: seq<Parsed>, w: Window, now: int) {
    && c.total == Tally(lines, IsCounted(w, now))
    && c.failed == Tally(lines, IsFailure(w, now))
    && c.skipped == Tally(lines, IsSkipped(w, now))
  }

  /** Who made the accesses. */
  ghost predicate Parties(c: Counts, lines: seq<Parsed>, w: Window, now: int) {
    && c.desktop == Tally(lines, IsBy(Desktop, w, now))
    && c.unknown == Tally(lines, IsBy(Unknown, w, now))
    && forall name :: c.agents[name] == Tally(lines, IsBy(Agent(name), w, now))
  }

  /** What the accesses were. */
  ghost predicate Operations(c: Counts, lines: seq<Parsed>, w: Window, now: int) {
    forall op :: c.operations[op] == Tally(lines, IsOf(op, w, now))
  }

  /** Each counter says what the lines say; `unreadable` is the number of logs that could not
    be read to their end. */
  ghost predicate Means(c: Counts, lines: seq<Parsed>, unreadable: nat, w: Window, now: int) {
    && Numbers(c, lines, w, now) && Parties(c, lines, w, now) && Operations(c, lines, w, now)
    && Latest(c.lastAccess, lines, w, now) && Soonest(c.futureAt, lines, w, now)
    && c.unreadable == unreadable
  }

  // ---------- one more line ----------

  lemma NumbersNext(c: Counts, lines: seq<Parsed>, p: Parsed, w: Window, now: int)
    requires Numbers(c, lines, w, now)
    ensures Numbers(CountLine(c, p, w, now), lines + [p], w, now)
  {
    TallyNext(lines, p, IsCounted(w, now));
    TallyNext(lines, p, IsFailure(w, now));
    TallyNext(lines, p, IsSkipped(w, now));
  }

  lemma PartiesNext(c: Counts, lines: seq<Parsed>, p: Parsed, w: Window, now: int)
    requires Parties(c, lines, w, now)
    ensures Parties(CountLine(c, p, w, now), lines + [p], w, now)
  {
    TallyNext(lines, p, IsBy(Desktop, w, now));
    TallyNext(lines, p, IsBy(Unknown, w, now));
    var c' := CountLine(c, p, w, now);
    forall name ensures c'.agents[name] == Tally(lines + [p], IsBy(Agent(name), w, now)) {
      TallyNext(lines, p, IsBy(Agent(name), w, now));
      assert c'.agents == if Counted(p, w, now) && p.who.Agent? then c.agents + multiset{p.who.name} else c.agents;
    }
  }

  lemma OperationsNext(c: Counts, lines: seq<Parsed>, p: Parsed, w: Window, now: int)
    requires Operations(c, lines, w, now)
    ensures Operations(CountLine(c, p, w, now), lines + [p], w, now)
  {
    var c' := CountLine(c, p, w, now);
    forall op ensures c'.operations[op] == Tally(lines + [p], IsOf(op, w, now)) {
      TallyNext(lines, p, IsOf(op, w, now));
      assert c'.operations == if Counted(p, w, now) then c.operations + multiset{p.op} else c.operations;
    }
  }

  lemma TimesNext(c: Counts, lines: seq<Parsed>, p: Parsed, w: Window, now: int)
    requires Latest(c.lastAccess, lines, w, now) && Soonest(c.futureAt, lines, w, now)
    ensures Latest(CountLine(c, p, w, now).lastAccess, lines + [p], w, now)
    ensures Soonest(CountLine(c, p, w, now).futureAt, lines + [p], w, now)
  {
    var c' := CountLine(c, p, w, now);
    assert forall q :: q in lines + [p] <==> q in lines || q == p;
    assert c'.lastAccess == if Counted(p, w, now) then Later(c.lastAccess, Some(p.ts)) else c.lastAccess;
    assert c'.futureAt == if Due(p, w, now) then Earlier(c.futureAt, Some(p.ts)) else c.futureAt;
    assert p in lines + [p];
  }

  lemma MeansNext(c: Counts, lines: seq<Parsed>, unreadable: nat, p: Parsed, w: Window, now: int)
    requires Means(c, lines, unreadable, w, now)
    ensures Means(CountLine(c, p, w, now), lines + [p], unreadable, w, now)
  {
    NumbersNext(c, lines, p, w, now);
    PartiesNext(c, lines, p, w, now);
    OperationsNext(c, lines, p, w, now);
    TimesNext(c, lines, p, w, now);
    hide Numbers, Parties, Operations, Latest, Soonest;
  }

  lemma MeansNothing(c: Counts, w: Window, now: int)
    requires c == ZERO
    ensures Means(c, [], 0, w, now)
  {
  }

  // ---------- two files ----------

  lemma TimesInclude(a: Counts, b: Counts, la: seq<Parsed>, lb: seq<Parsed>, w: Window, now: int)
    requires Latest(a.lastAccess, la, w, now) && Soonest(a.futureAt, la, w, now)
    requires Latest(b.lastAccess, lb, w, now) && Soonest(b.futureAt, lb, w, now)
    ensures Latest(Later(a.lastAccess, b.lastAccess), la + lb, w, now)
    ensures Soonest(Earlier(a.futureAt, b.futureAt), la + lb, w, now)
  {
    assert forall q :: q in la + lb <==> q in la || q in lb;
  }

  lemma CountsInclude(a: Counts, b: Counts, la: seq<Parsed>, lb: seq<Parsed>, w: Window, now: int)
    requires Numbers(a, la, w, now) && Parties(a, la, w, now) && Operations(a, la, w, now)
    requires Numbers(b, lb, w, now) && Parties(b, lb, w, now) && Operations(b, lb, w, now)
    ensures var c := Include(a, b); Numbers(c, la + lb, w, now) && Parties(c, la + lb, w, now) && Operations(c, la + lb, w, now)
  {
    TallyConcat(la, lb, IsCounted(w, now));
    TallyConcat(la, lb, IsFailure(w, now));
    TallyConcat(la, lb, IsSkipped(w, now));
    TallyConcat(la, lb, IsBy(Desktop, w, now));
    TallyConcat(la, lb, IsBy(Unknown, w, now));
    forall name ensures Include(a, b).agents[name] == Tally(la + lb, IsBy(Agent(name), w, now)) {
      TallyConcat(la, lb, IsBy(Agent(name), w, now));
    }
    forall op ensures Include(a, b).operations[op] == Tally(la + lb, IsOf(op, w, now)) {
      TallyConcat(la, lb, IsOf(op, w, now));
    }
  }

  lemma MeansInclude(a: Counts, b: Counts, la: seq<Parsed>, lb: seq<Parsed>, m: nat, n: nat, w: Window, now: int)
    requires Means(a, la, m, w, now) && Means(b, lb, n, w, now)
    ensures Means(Include(a, b), la + lb, m + n, w, now)
  {
    CountsInclude(a, b, la, lb, w, now);
    TimesInclude(a, b, la, lb, w, now);
    hide Numbers, Parties, Operations, Latest, Soonest;
  }

  // ---------- the lines of a text ----------

  function Decoded(decode: Decoder, bodies: seq<seq<Byte>>): seq<Parsed> {
    seq(|bodies|, i requires 0 <= i < |bodies| => decode(bodies[i]))
  }

  /** Counting lines one by one gives the counters that the lines call for. */
  lemma {:induction false} FoldMeans(decode: Decoder, bodies: seq<seq<Byte>>, w: Window, now: int)
    ensures Means(Fold(ZERO, StepAt(decode, w, now), bodies), Decoded(decode, bodies), 0, w, now)
  {
    if bodies == [] {
      MeansNothing(Fold(ZERO, StepAt(decode, w, now), bodies), w, now);
    } else {
      hide Means, CountLine, Fold;
      var front, last := bodies[..|bodies| - 1], bodies[|bodies| - 1];
      assert bodies == front + [last];
      FoldMeans(decode, front, w, now);
      FoldAppend(ZERO, StepAt(decode, w, now), front, last);
      MeansNext(Fold(ZERO, StepAt(decode, w, now), front), Decoded(decode, front), 0, decode(last), w, now);
      assert Decoded(decode, bodies) == Decoded(decode, front) + [decode(last)];
    }
  }
}
