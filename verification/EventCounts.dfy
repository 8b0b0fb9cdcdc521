/** Daily counters and how one log line changes them. */
module EventCounts {
  import opened Wrappers
  import opened Lines

  datatype Attribution = Agent(name: string) | Desktop | Unknown

  /** What decoding a line gives.  `success` is absent when the outcome is not a boolean. */
  datatype Parsed =
    | Blank
    | Malformed
    | Event(ts: int, op: string, access: bool, success: Option<bool>, who: Attribution)

  /** The local day: an event counts from `start` up to now; `end` is the next midnight. */
  datatype Window = Window(start: int, end: int)

  datatype Counts = Counts(
    total: nat, failed: nat, unknown: nat, desktop: nat, skipped: nat, unreadable: nat,
    agents: multiset<string>, operations: multiset<string>, lastAccess: Option<int>, futureAt: Option<int>)

  const ZERO := Counts(0, 0, 0, 0, 0, 0, multiset{}, multiset{}, None, None)

  function Later(a: Option<int>, b: Option<int>): Option<int> {
    if b.Some? && (a.None? || b.value > a.value) then b else a
  }

  function Earlier(a: Option<int>, b: Option<int>): Option<int> {
    if b.Some? && (a.None? || b.value < a.value) then b else a
  }

  function Include(a: Counts, b: Counts): Counts {
    Counts(a.total + b.total, a.failed + b.failed, a.unknown + b.unknown, a.desktop + b.desktop,
           a.skipped + b.skipped, a.unreadable + b.unreadable,
           a.agents + b.agents, a.operations + b.operations,
           Later(a.lastAccess, b.lastAccess), Earlier(a.futureAt, b.futureAt))
  }

  /** One decoded line under a window and a time of asking. */
  function CountLine(c: Counts, p: Parsed, w: Window, now: int): Counts {
    match p
    case Blank => c
    case Malformed => c.(skipped := c.skipped + 1)
    case Event(ts, op, access, success, who) =>
      if !(w.start <= ts <= now) || !access then
        if access && now < ts < w.end then c.(futureAt := Earlier(c.futureAt, Some(ts))) else c
      else if success.None? then c.(skipped := c.skipped + 1)
      else
        var attributed := match who
                          case Agent(name) => c.(agents := c.agents + multiset{name})
                          case Desktop => c.(desktop := c.desktop + 1)
                          case Unknown => c.(unknown := c.unknown + 1);
        attributed.(total := c.total + 1, failed := c.failed + (if success.value then 0 else 1),
                    operations := c.operations + multiset{op}, lastAccess := Later(c.lastAccess, Some(ts)))
  }

  /** Decoding ignores white space, so a blank line is blank whatever ends it. */
  type Decoder = f: seq<Byte> -> Parsed | f([]) == Blank witness (b: seq<Byte>) => Blank

  // ---------- counters add up ----------

  lemma IncludeLaws(a: Counts, b: Counts, c: Counts)
    ensures Include(a, ZERO) == a == Include(ZERO, a)
    ensures Include(Include(a, b), c) == Include(a, Include(b, c))
    ensures Include(a, b) == Include(b, a)
  {
    assert (a.agents + b.agents) + c.agents == a.agents + (b.agents + c.agents);
    assert (a.operations + b.operations) + c.operations == a.operations + (b.operations + c.operations);
  }

  lemma PlusNothing(x: Counts, y: Counts)
    requires y == ZERO
    ensures Include(x, y) == x
  {
    IncludeLaws(x, y, y);
  }

  lemma CountLineAdds(c: Counts, p: Parsed, w: Window, now: int)
    ensures CountLine(c, p, w, now) == Include(c, CountLine(ZERO, p, w, now))
  {
    if p.Event? && w.start <= p.ts <= now && p.access && p.success.Some? {
      match p.who
      case Agent(name) => AccessAdds(c, p, w, now);
      case Desktop => AccessAdds(c, p, w, now);
      case Unknown => AccessAdds(c, p, w, now);
    } else {
      OtherLineAdds(c, p, w, now);
    }
  }

  lemma AccessAdds(c: Counts, p: Parsed, w: Window, now: int)
    requires p.Event? && w.start <= p.ts <= now && p.access && p.success.Some?
    ensures CountLine(c, p, w, now) == Include(c, CountLine(ZERO, p, w, now))
  {
    assert c.agents + multiset{} == c.agents && c.operations + multiset{} == c.operations;
  }

  lemma OtherLineAdds(c: Counts, p: Parsed, w: Window, now: int)
    requires !(p.Event? && w.start <= p.ts <= now && p.access && p.success.Some?)
    ensures CountLine(c, p, w, now) == Include(c, CountLine(ZERO, p, w, now))
  {
    assert c.agents + multiset{} == c.agents && c.operations + multiset{} == c.operations;
  }

  function OneUnreadable(c: Counts): Counts {
    c.(unreadable := c.unreadable + 1)
  }

  const UNREADABLE := OneUnreadable(ZERO)

  // ---------- counting lines one by one ----------

  /** What a line does to the counters. */
  type Step = (Counts, seq<Byte>) -> Counts

  function StepAt(decode: Decoder, w: Window, now: int): Step {
    (c, body) => CountLine(c, decode(body), w, now)
  }

  function Fold<C>(start: C, step: (C, seq<Byte>) -> C, bodies: seq<seq<Byte>>): C {
    if bodies == [] then start else step(Fold(start, step, bodies[..|bodies| - 1]), bodies[|bodies| - 1])
  }

  lemma FoldAppend<C>(start: C, step: (C, seq<Byte>) -> C, bodies: seq<seq<Byte>>, body: seq<Byte>)
    ensures Fold(start, step, bodies + [body]) == step(Fold(start, step, bodies), body)
  {
    assert (bodies + [body])[..|bodies|] == bodies;
  }

  /** A line adds the same to any counters. */
  ghost predicate Additive<C(!new)>(start: C, step: (C, seq<Byte>) -> C, plus: (C, C) -> C) {
    && (forall x :: plus(x, start) == x)
    && (forall x, y, body :: step(plus(x, y), body) == plus(x, step(y, body)))
  }

  /** Counting two runs of lines separately and adding up is counting them together. */
  lemma {:induction false} FoldConcat<C(!new)>(start: C, step: (C, seq<Byte>) -> C, plus: (C, C) -> C,
                                              a: seq<seq<Byte>>, b: seq<seq<Byte>>)
    requires Additive(start, step, plus)
    ensures Fold(start, step, a + b) == plus(Fold(start, step, a), Fold(start, step, b))
    decreases |b|
  {
    if b == [] {
      assert a + b == a;
    } else {
      var front, last := b[..|b| - 1], b[|b| - 1];
      FoldConcat(start, step, plus, a, front);
      assert a + b == (a + front) + [last] && b == front + [last];
      FoldAppend(start, step, a + front, last);
      FoldAppend(start, step, front, last);
    }
  }

  lemma StepAtIsAdditive(decode: Decoder, w: Window, now: int)
    ensures Additive(ZERO, StepAt(decode, w, now), Include)
  {
    forall x ensures Include(x, ZERO) == x {
      PlusNothing(x, ZERO);
    }
    forall x, y, body
      ensures StepAt(decode, w, now)(Include(x, y), body) == Include(x, StepAt(decode, w, now)(y, body))
    {
      LineAdds(x, y, decode(body), w, now);
    }
  }

  lemma LineAdds(x: Counts, y: Counts, p: Parsed, w: Window, now: int)
    ensures CountLine(Include(x, y), p, w, now) == Include(x, CountLine(y, p, w, now))
  {
    var line := CountLine(ZERO, p, w, now);
    CountLineAdds(Include(x, y), p, w, now);
    CountLineAdds(y, p, w, now);
    IncludeLaws(x, y, line);
  }

  // ---------- what the counters mean together ----------

  /** Every counted access is one operation by one party; failures are among them; the last one
    lies in the day so far and the next future one in what is left of it. */
  ghost predicate Balanced(c: Counts, w: Window, now: int) {
    && c.total == |c.agents| + c.desktop + c.unknown == |c.operations|
    && c.failed <= c.total
    && (c.total == 0 <==> c.lastAccess.None?)
    && (c.lastAccess.Some? ==> w.start <= c.lastAccess.value <= now)
    && (c.futureAt.Some? ==> now < c.futureAt.value < w.end)
  }

  lemma LineKeepsBalance(c: Counts, p: Parsed, w: Window, now: int)
    requires Balanced(c, w, now)
    ensures Balanced(CountLine(c, p, w, now), w, now)
  {
  }

  /** Counting any lines from nothing keeps the books balanced. */
  lemma {:induction false} FoldIsBalanced(decode: Decoder, w: Window, now: int, bodies: seq<seq<Byte>>)
    ensures Balanced(Fold(ZERO, StepAt(decode, w, now), bodies), w, now)
  {
    if bodies != [] {
      var front, last := bodies[..|bodies| - 1], bodies[|bodies| - 1];
      FoldIsBalanced(decode, w, now, front);
      LineKeepsBalance(Fold(ZERO, StepAt(decode, w, now), front), decode(last), w, now);
    }
  }

  /** And so does adding up several files. */
  lemma IncludeKeepsBalance(a: Counts, b: Counts, w: Window, now: int)
    requires Balanced(a, w, now) && Balanced(b, w, now)
    ensures Balanced(Include(a, b), w, now)
  {
  }

  // ---------- time passes ----------

  /** Nothing that was in the future at `earlier` has come due at `later`. */
  predicate StillFuture(c: Counts, later: int) {
    c.futureAt.None? || later < c.futureAt.value
  }

  lemma LineKeeps(c: Counts, p: Parsed, w: Window, earlier: int, later: int)
    requires earlier <= later < w.end && StillFuture(CountLine(c, p, w, earlier), later)
    ensures CountLine(c, p, w, later) == CountLine(c, p, w, earlier) && StillFuture(c, later)
  {
  }

  /** Until the first future event is due, counting again gives the same counters. */
  lemma {:induction false} FoldKeeps(bodies: seq<seq<Byte>>, decode: Decoder, w: Window, earlier: int, later: int)
    requires earlier <= later < w.end && StillFuture(Fold(ZERO, StepAt(decode, w, earlier), bodies), later)
    ensures Fold(ZERO, StepAt(decode, w, later), bodies) == Fold(ZERO, StepAt(decode, w, earlier), bodies)
  {
    if bodies != [] {
      var front, last := bodies[..|bodies| - 1], bodies[|bodies| - 1];
      LineKeeps(Fold(ZERO, StepAt(decode, w, earlier), front), decode(last), w, earlier, later);
      FoldKeeps(front, decode, w, earlier, later);
    }
  }

  // ---------- lines with their terminators ----------

  /** A CR at `i` is followed by its LF. */
  predicate PairAt(s: seq<Byte>, i: nat) {
    i + 1 < |s| && s[i] == CR && s[i + 1] == LF
  }

  /** Where the line that goes on at `i` ends, terminator included. */
  function LineEnd(s: seq<Byte>, i: nat): (n: nat)
    requires i <= |s|
    ensures i <= n <= |s| && (i < |s| ==> i < n)
    decreases |s| - i
  {
    if i == |s| then i
    else if !IsNewline(s[i]) then LineEnd(s, i + 1)
    else if PairAt(s, i) then i + 2 else i + 1
  }

  /** Bytes of the first line with its terminator. */
  function LineLength(s: seq<Byte>): (n: nat)
    requires s != []
    ensures 0 < n <= |s|
  {
    LineEnd(s, 0)
  }

  /** The line without its terminator. */
  function Body(line: seq<Byte>): seq<Byte> {
    line[..BodyEnd(line, |line|)]
  }

  /** What is left of the first `i` bytes without newline bytes at their end. */
  function BodyEnd(line: seq<Byte>, i: nat): (n: nat)
    requires i <= |line|
    ensures n <= i
  {
    if i > 0 && IsNewline(line[i - 1]) then BodyEnd(line, i - 1) else i
  }

  function IfAny(body: seq<Byte>): seq<seq<Byte>> {
    if body == [] then [] else [body]
  }

  /** The lines of a text that are not empty, without terminators. */
  function TextBodies(s: seq<Byte>): seq<seq<Byte>>
    decreases |s|
  {
    if s == [] then [] else IfAny(Body(s[..LineLength(s)])) + TextBodies(s[LineLength(s)..])
  }

  // ---------- cutting a text after a newline ----------

  predicate EndsLine(s: seq<Byte>) {
    s == [] || IsNewline(s[|s| - 1])
  }

  predicate MeetInPair(a: seq<Byte>, b: seq<Byte>) {
    a != [] && b != [] && a[|a| - 1] == CR && b[0] == LF
  }

  lemma {:induction false} LineEndPrefix(a: seq<Byte>, b: seq<Byte>, i: nat)
    requires i < |a| && EndsLine(a)
    ensures LineEnd(a, i) < |a| ==> LineEnd(a + b, i) == LineEnd(a, i)
    ensures LineEnd(a, i) == |a| ==> LineEnd(a + b, i) == |a| + (if MeetInPair(a, b) then 1 else 0)
    decreases |a| - i
  {
    assert (a + b)[i] == a[i];
    if IsNewline(a[i]) {
      assert i + 1 < |a| + |b| ==> (a + b)[i + 1] == if i + 1 < |a| then a[i + 1] else b[0];
    } else {
      LineEndPrefix(a, b, i + 1);
    }
  }

  /** The first line of a text does not see what follows the text, unless a CR at its very end
    meets an LF. */
  lemma LineLengthPrefix(a: seq<Byte>, b: seq<Byte>)
    requires a != [] && EndsLine(a)
    ensures LineLength(a) < |a| ==> LineLength(a + b) == LineLength(a)
    ensures LineLength(a) == |a| ==> LineLength(a + b) == |a| + (if MeetInPair(a, b) then 1 else 0)
  {
    LineEndPrefix(a, b, 0);
  }

  lemma {:induction false} LineEndEnds(a: seq<Byte>, i: nat)
    requires i < |a| && LineEnd(a, i) < |a|
    ensures IsNewline(a[LineEnd(a, i) - 1])
    decreases |a| - i
  {
    if !IsNewline(a[i]) {
      LineEndEnds(a, i + 1);
    }
  }

  lemma LineLengthEnds(a: seq<Byte>)
    requires a != [] && LineLength(a) < |a|
    ensures IsNewline(a[LineLength(a) - 1])
  {
    LineEndEnds(a, 0);
  }

  lemma BodyOfPair(a: seq<Byte>)
    requires a != [] && a[|a| - 1] == CR
    ensures Body(a + [LF]) == Body(a)
  {
    BodyEndPrefix(a, [LF], |a|);
  }

  lemma {:induction false} BodyEndPrefix(a: seq<Byte>, b: seq<Byte>, i: nat)
    requires i <= |a|
    ensures BodyEnd(a + b, i) == BodyEnd(a, i)
  {
    if i > 0 && IsNewline(a[i - 1]) {
      BodyEndPrefix(a, b, i - 1);
    }
  }

  /** The LF left over from a pair is a blank line. */
  lemma LoneNewlineIsBlank(b: seq<Byte>)
    requires b != [] && b[0] == LF
    ensures LineLength(b) == 1 && Body(b[..1]) == [] && TextBodies(b) == TextBodies(b[1..])
  {
    assert BodyEnd(b[..1], 1) == BodyEnd(b[..1], 0) == 0;
  }

  /** A text has the lines of both sides of any cut after a newline byte, even when the cut
    separates a CR from its LF. */
  lemma {:induction false} TextBodiesCut(a: seq<Byte>, b: seq<Byte>)
    requires EndsLine(a)
    ensures TextBodies(a + b) == TextBodies(a) + TextBodies(b)
    decreases |a|
  {
    hide LineEnd, BodyEnd;
    if a == [] {
      assert a + b == b;
    } else if LineLength(a) < |a| {
      var n := LineLength(a);
      TextBodiesCut(a[n..], b);
      LineLengthPrefix(a, b);
      CutAfterFirstLine(a, b, n);
    } else {
      CutAfterOnlyLine(a, b);
    }
  }

  lemma FirstBody(s: seq<Byte>, n: nat)
    requires s != [] && n == LineLength(s)
    ensures TextBodies(s) == IfAny(Body(s[..n])) + TextBodies(s[n..])
  {
  }

  lemma SlicesOfSum(a: seq<Byte>, b: seq<Byte>, n: nat)
    requires n <= |a|
    ensures (a + b)[..n] == a[..n] && (a + b)[n..] == a[n..] + b
  {
  }

  lemma Regroup(x: seq<seq<Byte>>, y: seq<seq<Byte>>, z: seq<seq<Byte>>)
    ensures x + (y + z) == (x + y) + z
  {
  }

  lemma CutAfterFirstLine(a: seq<Byte>, b: seq<Byte>, n: nat)
    requires a != [] && n == LineLength(a) == LineLength(a + b) && n < |a|
    requires TextBodies(a[n..] + b) == TextBodies(a[n..]) + TextBodies(b)
    ensures TextBodies(a + b) == TextBodies(a) + TextBodies(b)
  {
    SlicesOfSum(a, b, n);
    FirstBody(a, n);
    FirstBody(a + b, n);
    Regroup(IfAny(Body(a[..n])), TextBodies(a[n..]), TextBodies(b));
  }

  /** A text that ends in CR takes the LF that follows into its last line. */
  lemma PairSlices(a: seq<Byte>, b: seq<Byte>)
    requires b != [] && b[0] == LF
    ensures (a + b)[..|a| + 1] == a + [LF] && (a + b)[|a| + 1..] == b[1..]
  {
  }

  lemma WholeSlices(a: seq<Byte>, b: seq<Byte>)
    ensures a[..|a|] == a && a[|a|..] == [] && (a + b)[..|a|] == a && (a + b)[|a|..] == b
  {
  }

  lemma OnlyBody(a: seq<Byte>)
    requires a != [] && LineLength(a) == |a|
    ensures TextBodies(a) == IfAny(Body(a))
  {
    FirstBody(a, |a|);
    WholeSlices(a, []);
  }

  lemma CutAfterOnlyLine(a: seq<Byte>, b: seq<Byte>)
    requires a != [] && EndsLine(a) && LineLength(a) == |a|
    ensures TextBodies(a + b) == TextBodies(a) + TextBodies(b)
  {
    LineLengthPrefix(a, b);
    OnlyBody(a);
    if MeetInPair(a, b) {
      CutInPair(a, b);
    } else {
      FirstBody(a + b, |a|);
      WholeSlices(a, b);
    }
  }

  lemma CutInPair(a: seq<Byte>, b: seq<Byte>)
    requires MeetInPair(a, b) && LineLength(a + b) == |a| + 1
    ensures TextBodies(a + b) == IfAny(Body(a)) + TextBodies(b)
  {
    FirstBody(a + b, |a| + 1);
    PairSlices(a, b);
    BodyOfPair(a);
    LoneNewlineIsBlank(b);
  }

  // ---------- the lines of a text are its segments ----------

  lemma SegmentOfByte(s: seq<Byte>, i: nat)
    requires i < |s| && !IsNewline(s[i])
    ensures Segments(s[i..], CR, LF) == Prepended(s[i], Segments(s[i + 1..], CR, LF))
  {
    assert s[i..][1..] == s[i + 1..] && s[i..][0] == s[i];
  }

  lemma SegmentOfNewline(s: seq<Byte>, i: nat)
    requires i < |s| && IsNewline(s[i])
    ensures LineEnd(s, i) == i + DelimiterLength(s[i..], CR, LF)
    ensures Segments(s[i..], CR, LF) == [[]] + Segments(s[LineEnd(s, i)..], CR, LF)
  {
    var n := DelimiterLength(s[i..], CR, LF);
    assert s[i..][n..] == s[i + n..];
  }

  /** A line that starts at `i`: its bytes up to the next newline, what follows, and where it ends. */
  ghost predicate StartsLine(s: seq<Byte>, i: nat, head: seq<Byte>, segments: seq<seq<Byte>>, n: nat)
    requires i <= |s|
  {
    && i + |head| <= n <= |s| && head == s[i..i + |head|] && NoNewline(head)
    && (i + |head| == |s| ==> n == |s| && segments == [head])
    && (i + |head| < |s| ==>
          && IsNewline(s[i + |head|]) && n == i + |head| + DelimiterLength(s[i + |head|..], CR, LF)
          && segments == [head] + Segments(s[n..], CR, LF))
  }

  lemma {:induction false} LineEndsWithSegment(s: seq<Byte>, i: nat)
    requires i < |s|
    ensures StartsLine(s, i, Segments(s[i..], CR, LF)[0], Segments(s[i..], CR, LF), LineEnd(s, i))
    decreases |s| - i
  {
    if IsNewline(s[i]) {
      SegmentOfNewline(s, i);
    } else {
      SegmentOfByte(s, i);
      if i + 1 < |s| {
        LineEndsWithSegment(s, i + 1);
      }
      hide Segments, DelimiterLength;
      LongerHead(s, i, Segments(s[i + 1..], CR, LF), LineEnd(s, i));
    }
  }

  lemma LongerHead(s: seq<Byte>, i: nat, tail: seq<seq<Byte>>, n: nat)
    requires i < |s| && !IsNewline(s[i]) && tail != [] && tail == Segments(s[i + 1..], CR, LF)
    requires if i + 1 < |s| then StartsLine(s, i + 1, tail[0], tail, n) else n == |s|
    ensures StartsLine(s, i, Prepended(s[i], tail)[0], Prepended(s[i], tail), n)
  {
    hide DelimiterLength;
    if i + 1 == |s| {
      assert s[i + 1..] == [];
    }
    hide Segments;
    var head := tail[0];
    assert i + 1 < |s| ==> [s[i]] + head == s[i..i + 1 + |head|];
    if i + 1 < |s| && i + 1 + |head| < |s| {
      assert tail[1..] == Segments(s[n..], CR, LF);
    }
  }

  lemma {:induction false} BodyEndSkips(line: seq<Byte>, k: nat, i: nat)
    requires k <= i <= |line| && NoNewline(line[..k]) && forall j :: k <= j < i ==> IsNewline(line[j])
    ensures BodyEnd(line, i) == k
  {
    if k < i {
      BodyEndSkips(line, k, i - 1);
    } else if i > 0 {
      assert line[i - 1] == line[..k][i - 1];
    }
  }

  function NonEmpty(segments: seq<seq<Byte>>): seq<seq<Byte>> {
    if segments == [] then [] else IfAny(segments[0]) + NonEmpty(segments[1..])
  }

  lemma EmptyRest()
    ensures NonEmpty([[]]) == []
  {
    var nothing: seq<seq<Byte>> := [[]];
    assert nothing[1..] == [];
  }

  /** The first line without its terminator is the first segment. */
  lemma FirstBodyIsSegment(s: seq<Byte>)
    requires s != []
    ensures var n := LineLength(s);
            && Body(s[..n]) == Segments(s, CR, LF)[0]
            && NonEmpty(Segments(s, CR, LF)) == IfAny(Body(s[..n])) + NonEmpty(Segments(s[n..], CR, LF))
  {
    hide LineEnd, DelimiterLength, IfAny, Segments, NonEmpty, BodyEnd;
    LineEndsWithSegment(s, 0);
    assert s[0..] == s;
    var n, head := LineLength(s), Segments(s, CR, LF)[0];
    if |head| < |s| {
      DelimiterIsNewlines(s, |head|);
    }
    BodyOfHead(s[..n], head);
    if |head| == |s| {
      NothingAfter(s, n, head);
    } else {
      NonEmptyFirst(head, Segments(s[n..], CR, LF));
    }
  }

  lemma DelimiterIsNewlines(s: seq<Byte>, k: nat)
    requires k < |s| && IsNewline(s[k])
    ensures k + DelimiterLength(s[k..], CR, LF) <= |s|
    ensures forall j :: k <= j < k + DelimiterLength(s[k..], CR, LF) ==> IsNewline(s[j])
  {
  }

  lemma NonEmptyFirst(head: seq<Byte>, rest: seq<seq<Byte>>)
    ensures NonEmpty([head] + rest) == IfAny(head) + NonEmpty(rest)
  {
    assert ([head] + rest)[1..] == rest;
  }

  lemma BodyOfHead(line: seq<Byte>, head: seq<Byte>)
    requires head <= line && NoNewline(head) && forall j :: |head| <= j < |line| ==> IsNewline(line[j])
    ensures Body(line) == head
  {
    assert line[..|head|] == head;
    BodyEndSkips(line, |head|, |line|);
  }

  lemma NothingAfter(s: seq<Byte>, n: nat, head: seq<Byte>)
    requires n == |s| == |head| && Segments(s, CR, LF) == [head]
    ensures NonEmpty(Segments(s, CR, LF)) == IfAny(head) + NonEmpty(Segments(s[n..], CR, LF))
  {
    EmptyRest();
    assert Segments(s, CR, LF)[1..] == [] && s[n..] == [];
  }

  /** The lines that are counted are the segments between newlines that are not empty. */
  lemma {:induction false} TextBodiesAreSegments(s: seq<Byte>)
    ensures TextBodies(s) == NonEmpty(Segments(s, CR, LF))
    decreases |s|
  {
    if s == [] {
      EmptyRest();
    } else {
      FirstBodyIsSegment(s);
      TextBodiesAreSegments(s[LineLength(s)..]);
    }
  }
}
