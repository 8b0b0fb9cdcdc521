/** The bounded line reader of the daily statistics and what a scan of one file counts. */
module StatsScan {
  import opened Wrappers
  import opened Lines
  import opened EventCounts

  const READ_CHUNK_BYTES := 64 * 1024

  // ---------- specification ----------

  /** The lines a reader delivers: up to the first one that is longer than the cap. */
  function LinesRead(s: seq<Byte>, cap: nat): seq<seq<Byte>>
    decreases |s|
  {
    if s == [] || LineLength(s) > cap then []
    else [s[..LineLength(s)]] + LinesRead(s[LineLength(s)..], cap)
  }

  /** The reader gives up on a line that is longer than the cap. */
  predicate Refused(s: seq<Byte>, cap: nat)
    decreases |s|
  {
    s != [] && (LineLength(s) > cap || Refused(s[LineLength(s)..], cap))
  }

  lemma NextLineRead(s: seq<Byte>, n: nat, cap: nat)
    requires s != [] && n == LineLength(s) <= cap
    ensures LinesRead(s, cap) == [s[..n]] + LinesRead(s[n..], cap)
    ensures Refused(s, cap) <==> Refused(s[n..], cap)
  {
  }

  // ---------- the first line, seen through a buffer ----------

  /** The bytes of a line that has not ended yet are part of it. */
  lemma {:induction false} LineIsLong(x: seq<Byte>, future: seq<Byte>, i: nat)
    requires NoNewline(x) && i <= |x|
    ensures LineEnd(x + future, i) >= |x|
    ensures future == [] ==> LineEnd(x, i) == |x|
    decreases |x| - i
  {
    if i < |x| {
      assert (x + future)[i] == x[i];
      LineIsLong(x, future, i + 1);
    }
  }

  lemma {:induction false} LineEndsAt(s: seq<Byte>, i: nat, e: nat)
    requires i <= e < |s| && IsNewline(s[e]) && forall k :: i <= k < e ==> !IsNewline(s[k])
    ensures LineEnd(s, i) == if PairAt(s, e) then e + 2 else e + 1
    decreases e - i
  {
    if i < e {
      LineEndsAt(s, i + 1, e);
    }
  }

  // ---------- one buffer ----------

  /** Takes one line off a non-empty buffer, unless its end may still be to come. */
  method TakeLine(buffer: seq<Byte>, eof: bool, cap: nat, ghost future: seq<Byte>) returns (line: Option<seq<Byte>>, over: bool)
    requires buffer != [] && (eof ==> future == [])
    ensures over ==> LineLength(buffer + future) > cap
    ensures !over && line.Some? ==>
              |line.value| == LineLength(buffer + future) <= cap && line.value != [] && line.value <= buffer
    ensures !over && line.None? ==> !eof
  {
    var e := FindNewline(buffer, 0, |buffer|);
    line, over := None, false;
    if e == |buffer| {
      assert buffer[0..e] == buffer;
      LineIsLong(buffer, future, 0);
      if |buffer| > cap {
        over := true;
      } else if eof {
        assert buffer + future == buffer;
        line := Some(buffer);
      }
      return;
    }
    forall k | 0 <= k < e ensures !IsNewline((buffer + future)[k]) {
      assert !IsNewline(buffer[0..e][k]);
    }
    LineEndsAt(buffer + future, 0, e);
    var end := e + 1;
    if end > cap {
      over := true;
      return;
    }
    if buffer[end - 1] == CR {
      if end == |buffer| && !eof {
        return;
      }
      if end < |buffer| && buffer[end] == LF {
        end := end + 1;
      }
    }
    over := end > cap;
    line := Some(buffer[..end]);
  }

  /** What a text still holds after some of its lines were taken off. */
  ghost predicate Taking(whole: seq<Byte>, lines: seq<seq<Byte>>, rest: seq<Byte>, over: bool, cap: nat) {
    && LinesRead(whole, cap) == (if over then lines else lines + LinesRead(rest, cap))
    && (Refused(whole, cap) <==> over || Refused(rest, cap))
  }

  lemma TakingMore(whole: seq<Byte>, lines: seq<seq<Byte>>, rest: seq<Byte>, more: seq<seq<Byte>>, rest': seq<Byte>, over: bool, cap: nat)
    requires Taking(whole, lines, rest, false, cap) && Taking(rest, more, rest', over, cap)
    ensures Taking(whole, lines + more, rest', over, cap)
  {
    Regroup(lines, more, LinesRead(rest', cap));
  }

  /** Takes every line off the buffer whose end is known. */
  method Drain(buffer: seq<Byte>, eof: bool, cap: nat, ghost future: seq<Byte>)
    returns (lines: seq<seq<Byte>>, rest: seq<Byte>, over: bool)
    requires eof ==> future == []
    ensures Taking(buffer + future, lines, rest + future, over, cap)
    ensures eof && !over ==> rest == []
  {
    lines, rest, over := [], buffer, false;
    while rest != []
      invariant Taking(buffer + future, lines, rest + future, false, cap)
      decreases |rest|
    {
      var line, tooLong := TakeLine(rest, eof, cap, future);
      if tooLong {
        over := true;
        NothingRead(rest + future, cap);
        return;
      }
      if line.None? {
        return;
      }
      TakeOne(rest, future, line.value, cap);
      TakingMore(buffer + future, lines, rest + future, [line.value], rest[|line.value|..] + future, false, cap);
      lines, rest := lines + [line.value], rest[|line.value|..];
    }
  }

  lemma NothingRead(s: seq<Byte>, cap: nat)
    requires s != [] && LineLength(s) > cap
    ensures LinesRead(s, cap) == [] && Refused(s, cap)
  {
  }

  lemma TakeOne(rest: seq<Byte>, future: seq<Byte>, line: seq<Byte>, cap: nat)
    requires rest != [] && line != [] && line <= rest && |line| == LineLength(rest + future) <= cap
    ensures Taking(rest + future, [line], rest[|line|..] + future, false, cap)
  {
    assert line == rest[..|line|];
    SlicesOfSum(rest, future, |line|);
    NextLineRead(rest + future, |line|, cap);
  }

  /** Appends the lines of a buffer to those found before; `known` says that `whole` is known. */
  method DrainInto(lines: seq<seq<Byte>>, buffer: seq<Byte>, eof: bool, cap: nat, ghost future: seq<Byte>, ghost whole: seq<Byte>,
                   ghost known: bool)
    returns (lines': seq<seq<Byte>>, rest: seq<Byte>, over: bool)
    requires eof ==> future == []
    requires known ==> Taking(whole, lines, buffer + future, false, cap)
    ensures known ==> Taking(whole, lines', rest + future, over, cap)
    ensures eof && !over ==> rest == []
  {
    var found;
    found, rest, over := Drain(buffer, eof, cap, future);
    if known {
      TakingMore(whole, lines, buffer + future, found, rest + future, over, cap);
    }
    lines' := lines + found;
  }

  // ---------- the reader ----------

  datatype Ending = Finished | LineTooLong | BudgetSpent

  /** The read budget that the files of one summary share. */
  class ScanBudget {
    var remaining: nat
    var limited: bool
    var retryableError: bool

    constructor (limit: nat)
      ensures remaining == limit && !limited && !retryableError
    {
      remaining, limited, retryableError := limit, false, false;
    }

    /** A read delivers at least one byte unless the stream is at its end; how many is up to
      the stream.  It is refused when nothing is left of the budget. */
    method Read(content: seq<Byte>, from: nat, size: nat) returns (chunk: Option<seq<Byte>>)
      requires from <= |content| && size > 0
      modifies this`remaining
      ensures chunk.None? <==> old(remaining) == 0
      ensures chunk.None? ==> remaining == old(remaining)
      ensures chunk.Some? ==> remaining == old(remaining) - |chunk.value|
      ensures chunk.Some? ==> |chunk.value| <= size && chunk.value <= content[from..]
      ensures chunk.Some? && from < |content| ==> chunk.value != []
    {
      if remaining == 0 {
        return None;
      }
      var reserved := if size < remaining then size else remaining;
      var n: int := *;
      if n <= 0 || n > reserved {
        n := reserved;
      }
      if n > |content| - from {
        n := |content| - from;
      }
      remaining := remaining - n;
      chunk := Some(content[from..from + n]);
      assert content[from..from + n] == content[from..][..n];
    }
  }

  /** Moves the next chunk from the stream to the buffer. */
  method Refill(content: seq<Byte>, consumed: nat, buffer: seq<Byte>, budget: ScanBudget)
    returns (buffer': seq<Byte>, consumed': nat, spent: bool)
    requires consumed <= |content|
    modifies budget`remaining
    ensures consumed <= consumed' <= |content| && budget.remaining + consumed' == old(budget.remaining) + consumed
    ensures buffer' + content[consumed'..] == buffer + content[consumed..]
    ensures spent <==> old(budget.remaining) == 0
    ensures !spent && consumed < |content| ==> consumed < consumed'
  {
    buffer', consumed', spent := buffer, consumed, false;
    var chunk := budget.Read(content, consumed, READ_CHUNK_BYTES);
    if chunk.None? {
      spent := true;
      return;
    }
    assert buffer + content[consumed..] == (buffer + chunk.value) + content[consumed + |chunk.value|..];
    buffer', consumed' := buffer + chunk.value, consumed + |chunk.value|;
  }

  ghost predicate Delivered(s: seq<Byte>, lines: seq<seq<Byte>>, refused: bool, cap: nat) {
    LinesRead(s, cap) == lines && (Refused(s, cap) <==> refused)
  }

  lemma TakingNothing(s: seq<Byte>, cap: nat)
    ensures Taking(s, [], [] + s, false, cap)
  {
    assert [] + s == s && [] + LinesRead(s, cap) == LinesRead(s, cap);
  }

  lemma TakenAll(s: seq<Byte>, lines: seq<seq<Byte>>, rest: seq<Byte>, over: bool, cap: nat)
    requires Taking(s, lines, rest, over, cap) && (over || rest == [])
    ensures Delivered(s, lines, over, cap)
  {
    assert lines + [] == lines;
  }

  /** The reader's result does not depend on how the stream is cut into chunks.  `expected` is
    the size a plain file is known to have; without it only an empty read ends the stream. */
  method BoundedLines(content: seq<Byte>, offset: nat, expected: Option<nat>, cap: nat, budget: ScanBudget)
    returns (lines: seq<seq<Byte>>, ending: Ending)
    requires offset <= |content|
    modifies budget`remaining
    ensures budget.remaining <= old(budget.remaining) <= budget.remaining + (|content| - offset)
    ensures old(budget.remaining) > |content| - offset ==> ending != BudgetSpent
    ensures ending == Finished && (expected == None || expected == Some(|content|)) ==>
              budget.remaining + (|content| - offset) == old(budget.remaining)
    ensures expected == None || expected == Some(|content|) ==>
              (ending != BudgetSpent ==> Delivered(content[offset..], lines, ending == LineTooLong, cap))
  {
    hide Taking, Delivered, LinesRead, Refused;
    lines, ending := [], Finished;
    var buffer: seq<Byte>, consumed := [], offset;
    var eof := expected == Some(consumed);
    ghost var whole := expected == None || expected == Some(|content|);
    ghost var all := content[offset..];
    ghost var start := budget.remaining;
    TakingNothing(all, cap);
    while true
      invariant offset <= consumed <= |content| && budget.remaining + (consumed - offset) == start
      invariant whole && eof ==> consumed == |content|
      invariant whole ==> Taking(all, lines, buffer + content[consumed..], false, cap)
      decreases |content| - consumed, !eof
    {
      var over;
      ghost var future := if eof then [] else content[consumed..];
      assert whole ==> future == content[consumed..];
      lines, buffer, over := DrainInto(lines, buffer, eof, cap, future, all, whole);
      if over || eof {
        ending := if over then LineTooLong else Finished;
        if whole {
          assert eof ==> content[consumed..] == [];
          TakenAll(all, lines, buffer + content[consumed..], over, cap);
        }
        return;
      }
      var before, spent := consumed, false;
      buffer, consumed, spent := Refill(content, consumed, buffer, budget);
      if spent {
        ending := BudgetSpent;
        return;
      }
      eof := consumed == before || expected == Some(consumed);
    }
  }

  // ---------- what a scan counts ----------

  /** The lines of a text, without terminators and empty lines, up to the first one that is too
    long. */
  function BodiesRead(s: seq<Byte>, cap: nat): seq<seq<Byte>>
    decreases |s|
  {
    if s == [] || LineLength(s) > cap then []
    else IfAny(Body(s[..LineLength(s)])) + BodiesRead(s[LineLength(s)..], cap)
  }

  /** The counts of one text read from its start: its lines, and one unreadable log if the
    reader gave up. */
  function ScanText(s: seq<Byte>, cap: nat, step: Step): Counts {
    var c := Fold(ZERO, step, BodiesRead(s, cap));
    if Refused(s, cap) then OneUnreadable(c) else c
  }

  /** Every line fits, except that a line just over the cap may end in a pair. */
  predicate NearlyFits(s: seq<Byte>, cap: nat)
    decreases |s|
  {
    s == [] || (var n := LineLength(s);
                (n <= cap || JustOver(s[..n], cap)) && NearlyFits(s[n..], cap))
  }

  /** A line that only its LF takes over the cap. */
  predicate JustOver(line: seq<Byte>, cap: nat) {
    |line| == cap + 1 >= 2 && line[|line| - 2] == CR && line[|line| - 1] == LF
  }

  /** No line is taken over the cap by the LF of its pair alone. */
  predicate PairsFit(s: seq<Byte>, cap: nat)
    decreases |s|
  {
    s == [] || (var n := LineLength(s); !JustOver(s[..n], cap) && PairsFit(s[n..], cap))
  }

  /** A scan can be resumed after any newline byte. */
  lemma {:induction false} ScanCut(a: seq<Byte>, b: seq<Byte>, cap: nat)
    requires cap > 0 && EndsLine(a) && NearlyFits(a, cap) && PairsFit(a + b, cap)
    ensures BodiesRead(a + b, cap) == TextBodies(a) + BodiesRead(b, cap)
    ensures Refused(a + b, cap) <==> Refused(b, cap)
    decreases |a|
  {
    hide LineEnd, Body, IfAny, Refused, BodiesRead, JustOver;
    if a == [] {
      assert a + b == b;
      assert [] + BodiesRead(b, cap) == BodiesRead(b, cap);
    } else if LineLength(a) < |a| {
      var n := LineLength(a);
      LineLengthPrefix(a, b);
      SlicesOfSum(a, b, n);
      NearlyFitsFirst(a, n, cap);
      ScanCut(a[n..], b, cap);
      ScanAfterFirstLine(a, b, n, cap);
    } else {
      ScanAfterOnlyLine(a, b, cap);
    }
  }

  /** Only the last line of a text that may be resumed can be just over the cap. */
  lemma NearlyFitsFirst(a: seq<Byte>, n: nat, cap: nat)
    requires a != [] && n == LineLength(a) && NearlyFits(a, cap)
    ensures NearlyFits(a[n..], cap) && (n <= cap || JustOver(a[..n], cap))
  {
  }

  lemma ScanAfterFirstLine(a: seq<Byte>, b: seq<Byte>, n: nat, cap: nat)
    requires a != [] && n == LineLength(a) == LineLength(a + b) && n < |a| && n <= cap
    requires BodiesRead(a[n..] + b, cap) == TextBodies(a[n..]) + BodiesRead(b, cap)
    requires Refused(a[n..] + b, cap) <==> Refused(b, cap)
    ensures BodiesRead(a + b, cap) == TextBodies(a) + BodiesRead(b, cap)
    ensures Refused(a + b, cap) <==> Refused(b, cap)
  {
    SlicesOfSum(a, b, n);
    FirstBody(a, n);
    FirstRead(a + b, n, cap);
    Regroup(IfAny(Body(a[..n])), TextBodies(a[n..]), BodiesRead(b, cap));
  }

  lemma ScanAfterOnlyLine(a: seq<Byte>, b: seq<Byte>, cap: nat)
    requires cap > 0 && a != [] && EndsLine(a) && LineLength(a) == |a| && NearlyFits(a, cap) && PairsFit(a + b, cap)
    ensures BodiesRead(a + b, cap) == TextBodies(a) + BodiesRead(b, cap)
    ensures Refused(a + b, cap) <==> Refused(b, cap)
  {
    LineLengthPrefix(a, b);
    OnlyBody(a);
    WholeSlices(a, b);
    if MeetInPair(a, b) {
      ScanCutInPair(a, b, cap);
    } else {
      FirstRead(a + b, |a|, cap);
    }
  }

  lemma FirstRead(s: seq<Byte>, n: nat, cap: nat)
    requires s != [] && n == LineLength(s) <= cap
    ensures BodiesRead(s, cap) == IfAny(Body(s[..n])) + BodiesRead(s[n..], cap)
    ensures Refused(s, cap) <==> Refused(s[n..], cap)
  {
  }

  lemma ScanCutInPair(a: seq<Byte>, b: seq<Byte>, cap: nat)
    requires cap > 0 && MeetInPair(a, b) && LineLength(a + b) == |a| + 1 && |a| <= cap && !JustOver((a + b)[..|a| + 1], cap)
    ensures BodiesRead(a + b, cap) == IfAny(Body(a)) + BodiesRead(b, cap)
    ensures Refused(a + b, cap) <==> Refused(b, cap)
  {
    PairSlices(a, b);
    PairNotOver(a, cap);
    hide LineEnd, BodyEnd, Body, IfAny, JustOver, BodiesRead, Refused;
    FirstRead(a + b, |a| + 1, cap);
    BodyOfPair(a);
    BlankRead(b, cap);
  }

  lemma PairNotOver(a: seq<Byte>, cap: nat)
    requires cap > 0 && a != [] && a[|a| - 1] == CR && |a| <= cap && !JustOver(a + [LF], cap)
    ensures |a| + 1 <= cap
  {
    assert (a + [LF])[|a| - 1] == CR && (a + [LF])[|a|] == LF;
  }

  lemma BlankRead(b: seq<Byte>, cap: nat)
    requires cap > 0 && b != [] && b[0] == LF
    ensures BodiesRead(b, cap) == BodiesRead(b[1..], cap) && (Refused(b, cap) <==> Refused(b[1..], cap))
  {
    LoneNewlineIsBlank(b);
    FirstRead(b, 1, cap);
    assert [] + BodiesRead(b[1..], cap) == BodiesRead(b[1..], cap);
  }

  // ---------- where the cut must not fall ----------

  /** How many bytes a reader gets through before it ends or gives up. */
  function BytesRead(s: seq<Byte>, cap: nat): nat
    decreases |s|
  {
    if s == [] || LineLength(s) > cap then 0 else LineLength(s) + BytesRead(s[LineLength(s)..], cap)
  }

  lemma {:induction false} LineEndInPrefix(s: seq<Byte>, i: nat, m: nat)
    requires i < |s| && LineEnd(s, i) <= m <= |s|
    ensures i < m && LineEnd(s[..m], i) == LineEnd(s, i)
    decreases |s| - i
  {
    if !IsNewline(s[i]) && i + 1 < |s| {
      LineEndInPrefix(s, i + 1, m);
    }
  }

  /** What is counted of a text are the lines of the part that the reader gets through, which
    ends with the text or before the first line over the cap. */
  lemma {:induction false} BodiesReadAreText(s: seq<Byte>, cap: nat)
    ensures var n := BytesRead(s, cap);
            && n <= |s| && BodiesRead(s, cap) == TextBodies(s[..n]) && (Refused(s, cap) <==> n < |s|)
            && (n < |s| ==> LineLength(s[n..]) > cap)
    decreases |s|
  {
    hide BodiesRead, TextBodies, Refused, Body, BytesRead, LineEnd;
    if s == [] || LineLength(s) > cap {
      NothingIsText(s, cap);
    } else {
      var n := LineLength(s);
      BodiesReadAreText(s[n..], cap);
      FirstRead(s, n, cap);
      BytesOfFirst(s, cap);
      FirstOfPrefix(s, n, BytesRead(s[n..], cap));
    }
  }

  lemma NothingIsText(s: seq<Byte>, cap: nat)
    requires s == [] || LineLength(s) > cap
    ensures BytesRead(s, cap) == 0 && BodiesRead(s, cap) == [] && TextBodies(s[..0]) == [] && s[0..] == s && (Refused(s, cap) <==> s != [])
  {
  }

  lemma BytesOfFirst(s: seq<Byte>, cap: nat)
    requires s != [] && LineLength(s) <= cap
    ensures BytesRead(s, cap) == LineLength(s) + BytesRead(s[LineLength(s)..], cap)
  {
  }

  lemma FirstOfPrefix(s: seq<Byte>, n: nat, m: nat)
    requires s != [] && n == LineLength(s) && n + m <= |s|
    ensures TextBodies(s[..n + m]) == IfAny(Body(s[..n])) + TextBodies(s[n..][..m]) && s[n..][m..] == s[n + m..]
  {
    LineEndInPrefix(s, 0, n + m);
    hide LineEnd, Body;
    assert s[..n + m][..n] == s[..n] && s[..n + m][n..] == s[n..][..m];
    FirstBody(s[..n + m], n);
  }

  function LastLine(s: seq<Byte>): seq<Byte>
    requires s != []
    decreases |s|
  {
    if LineLength(s) == |s| then s else LastLine(s[LineLength(s)..])
  }

  /** The cut falls inside a pair whose LF takes its line over the cap. */
  predicate SplitsOverlongPair(a: seq<Byte>, b: seq<Byte>, cap: nat) {
    a != [] && b != [] && a[|a| - 1] == CR && b[0] == LF && |LastLine(a)| == cap
  }

  /** Resuming after a newline byte gets through the same bytes as reading from the start,
    exactly when the cut does not fall inside a pair whose LF takes its line over the cap. */
  lemma {:induction false} ResumingReadsTheSameIff(a: seq<Byte>, b: seq<Byte>, cap: nat)
    requires cap > 0 && EndsLine(a) && BytesRead(a, cap) == |a|
    ensures BytesRead(a + b, cap) == |a| + BytesRead(b, cap) <==> !SplitsOverlongPair(a, b, cap)
    decreases |a|
  {
    if a == [] {
      assert a + b == b;
    } else {
      var n := LineLength(a);
      LineLengthPrefix(a, b);
      ReadsAtMost(a[n..], cap);
      if n < |a| {
        SlicesOfSum(a, b, n);
        hide LineEnd;
        ResumingReadsTheSameIff(a[n..], b, cap);
      } else {
        OnlyLineResumed(a, b, cap);
      }
    }
  }

  lemma OnlyLineResumed(a: seq<Byte>, b: seq<Byte>, cap: nat)
    requires a != [] && EndsLine(a) && LineLength(a) == |a| <= cap
    ensures BytesRead(a + b, cap) == |a| + BytesRead(b, cap) <==> !SplitsOverlongPair(a, b, cap)
  {
    LineLengthPrefix(a, b);
    if MeetInPair(a, b) {
      PairSlices(a, b);
      LoneNewlineIsBlank(b);
      ReadsAtMost(b[1..], cap);
    } else {
      WholeSlices(a, b);
    }
  }

  lemma {:induction false} ReadsAtMost(s: seq<Byte>, cap: nat)
    ensures BytesRead(s, cap) <= |s|
    decreases |s|
  {
    if s != [] && LineLength(s) <= cap {
      ReadsAtMost(s[LineLength(s)..], cap);
    }
  }

  /** For every cap: a line that only the LF of its pair takes over the cap is refused by a
    scan, while a scan that is resumed after its CR reads on. */
  lemma PairOverCapIsSeenDifferently(x: seq<Byte>, cap: nat)
    requires NoNewline(x) && |x| + 1 == cap
    ensures var a, b := x + [CR], [LF];
            && EndsLine(a) && NearlyFits(a, cap) && SplitsOverlongPair(a, b, cap)
            && !Refused(a, cap) && !Refused(b, cap) && Refused(a + b, cap) && !PairsFit(a + b, cap)
  {
    var a, b := x + [CR], [LF];
    LineEndsAt(a, 0, |x|);
    LineEndsAt(a + b, 0, |x|);
    WholeSlices(a, b);
    WholeSlices(a + b, []);
    LoneNewlineIsBlank(b);
    WholeSlices(b, []);
    assert (a + b)[|x|] == CR && (a + b)[|x| + 1] == LF;
  }
}
