/** One pass over the bytes of a log, from its start or resumed after a complete line. */
module StatsPass {
  import opened Lines
  import opened EventCounts
  import opened StatsScan

  const MAX_LINE_BYTES := 1024 * 1024

  // ---------- complete lines ----------

  predicate Resumable(content: seq<Byte>, offset: nat) {
    offset <= |content| && EndsLine(content[..offset]) && NearlyFits(content[..offset], MAX_LINE_BYTES)
  }

  lemma {:induction false} NearlyFitsExtended(a: seq<Byte>, line: seq<Byte>, cap: nat)
    requires cap > 0 && EndsLine(a) && NearlyFits(a, cap)
    requires line != [] && LineLength(line) == |line| <= cap
    ensures NearlyFits(a + line, cap)
    decreases |a|
  {
    WholeSlices(line, []);
    if a == [] {
      assert a + line == line;
    } else {
      var n := LineLength(a);
      LineLengthPrefix(a, line);
      if n < |a| {
        SlicesOfSum(a, line, n);
        NearlyFitsExtended(a[n..], line, cap);
      } else if MeetInPair(a, line) {
        WholeSlices(a, line);
        assert line == [LF];
        WholeSlices(a + line, []);
      } else {
        WholeSlices(a, line);
      }
    }
  }

  lemma {:induction false} EndStandsAlone(s: seq<Byte>, i: nat, n: nat)
    requires i < |s| && n == LineEnd(s, i)
    ensures LineEnd(s[..n], i) == n
    decreases |s| - i
  {
    if !IsNewline(s[i]) && i + 1 < |s| {
      EndStandsAlone(s, i + 1, n);
    }
  }

  /** A line taken off the front of a text is one line by itself. */
  lemma LineStandsAlone(s: seq<Byte>)
    requires s != []
    ensures LineLength(s[..LineLength(s)]) == LineLength(s)
  {
    EndStandsAlone(s, 0, LineLength(s));
  }

  predicate Complete(line: seq<Byte>) {
    line != [] && IsNewline(line[|line| - 1])
  }

  /** One more complete line: it may be resumed behind it, and it is one more body. */
  lemma CompleteLine(content: seq<Byte>, offset: nat, line: seq<Byte>)
    requires Resumable(content, offset) && offset + |line| <= |content| && line == content[offset..][..|line|]
    requires line != [] && LineLength(line) == |line| <= MAX_LINE_BYTES && Complete(line)
    ensures Resumable(content, offset + |line|)
    ensures TextBodies(content[..offset + |line|]) == TextBodies(content[..offset]) + IfAny(Body(line))
  {
    var a := content[..offset];
    LongerPrefix(content, offset, line);
    NearlyFitsExtended(a, line, MAX_LINE_BYTES);
    TextBodiesCut(a, line);
    OnlyBody(line);
  }

  lemma LongerPrefix(content: seq<Byte>, offset: nat, line: seq<Byte>)
    requires offset + |line| <= |content| && line == content[offset..][..|line|] && line != []
    ensures content[..offset + |line|] == content[..offset] + line
    ensures (content[..offset] + line)[|content[..offset] + line| - 1] == line[|line| - 1]
  {
  }

  // ---------- where the reader stands ----------

  /** The part of a line that the digest has not seen. */
  function Unhashed(line: seq<Byte>, position: nat, oldSize: nat): seq<Byte> {
    var known := if oldSize > position then oldSize - position else 0;
    if known < |line| then line[known..] else []
  }

  /** The digest covers the bytes up to `position`, or what was hashed before if that is more. */
  ghost predicate Hashed(content: seq<Byte>, oldSize: nat, position: nat, digest: seq<Byte>) {
    oldSize <= |content| && position <= |content| && digest == content[..if position < oldSize then oldSize else position]
  }

  /** The lines that are left at `position`. */
  ghost predicate Left(content: seq<Byte>, position: nat, lines: seq<seq<Byte>>, refused: bool) {
    position <= |content| && Delivered(content[position..], lines, refused, MAX_LINE_BYTES)
  }

  /** The first line that a bounded reader delivers. */
  lemma NextLine(s: seq<Byte>, lines: seq<seq<Byte>>, refused: bool)
    requires Delivered(s, lines, refused, MAX_LINE_BYTES) && lines != []
    ensures s != [] && LineLength(s) <= MAX_LINE_BYTES && lines[0] == s[..LineLength(s)]
    ensures Delivered(s[LineLength(s)..], lines[1..], refused, MAX_LINE_BYTES)
  {
  }

  lemma NothingComes(s: seq<Byte>, refused: bool)
    requires Delivered(s, [], refused, MAX_LINE_BYTES)
    ensures refused <==> s != []
    ensures refused ==> LineLength(s) > MAX_LINE_BYTES
  {
  }

  lemma DropTwice(content: seq<Byte>, position: nat, n: nat)
    requires position + n <= |content|
    ensures content[position..][n..] == content[position + n..]
    ensures content[position..][..n] == content[position..position + n]
  {
  }

  lemma DigestStep(content: seq<Byte>, line: seq<Byte>, oldSize: nat, position: nat, digest: seq<Byte>)
    requires Hashed(content, oldSize, position, digest)
    requires position + |line| <= |content| && line == content[position..position + |line|]
    ensures Hashed(content, oldSize, position + |line|, digest + Unhashed(line, position, oldSize))
  {
  }

  /** The reader moves past its next line. */
  lemma Advance(content: seq<Byte>, position: nat, lines: seq<seq<Byte>>, refused: bool, line: seq<Byte>)
    requires Left(content, position, lines, refused) && lines != [] && line == lines[0]
    ensures line != [] && position + |line| <= |content|
    ensures line == content[position..][..|line|] == content[position..position + |line|]
    ensures |line| == LineLength(content[position..]) == LineLength(line) <= MAX_LINE_BYTES
    ensures Left(content, position + |line|, lines[1..], refused)
  {
    NextLine(content[position..], lines, refused);
    LineStandsAlone(content[position..]);
    DropTwice(content, position, |line|);
  }

  /** A line that ends in no newline byte is the last. */
  lemma PartialIsLast(s: seq<Byte>, line: seq<Byte>)
    requires s != [] && |line| == LineLength(s) <= MAX_LINE_BYTES && line == s[..|line|] && !Complete(line)
    ensures |line| == |s| && BodiesRead(s, MAX_LINE_BYTES) == IfAny(Body(line)) && !Refused(s, MAX_LINE_BYTES)
  {
    if LineLength(s) < |s| {
      LineLengthEnds(s);
    }
    WholeSlices(s, []);
    FirstRead(s, |s|, MAX_LINE_BYTES);
  }

  // ---------- counting the lines ----------

  /** Empty lines change nothing. */
  ghost predicate Neutral(step: Step) {
    forall c :: step(c, []) == c
  }

  lemma StepAtIsNeutral(decode: Decoder, w: Window, now: int)
    ensures Neutral(StepAt(decode, w, now))
  {
  }

  lemma FoldIfAny(step: Step, bodies: seq<seq<Byte>>, body: seq<Byte>)
    requires Neutral(step)
    ensures Fold(ZERO, step, bodies + IfAny(body)) == step(Fold(ZERO, step, bodies), body)
  {
    if body == [] {
      assert bodies + IfAny(body) == bodies;
    } else {
      FoldAppend(ZERO, step, bodies, body);
    }
  }

  /** The counters of everything up to `offset`. */
  function Prefix(content: seq<Byte>, offset: nat, step: Step): Counts
    requires offset <= |content|
  {
    Fold(ZERO, step, TextBodies(content[..offset]))
  }

  /** The counters of what the reader can get behind `offset`. */
  function Rest(content: seq<Byte>, offset: nat, step: Step): Counts
    requires offset <= |content|
  {
    Fold(ZERO, step, BodiesRead(content[offset..], MAX_LINE_BYTES))
  }

  /** The counters and positions of a pass. */
  datatype Progress = Progress(stable: Counts, tail: Counts, offset: nat, position: nat, digest: seq<Byte>)

  /** A complete line moves the resume offset; a last line without terminator is kept apart. */
  function Taken(at: Progress, line: seq<Byte>, oldSize: nat, step: Step): Progress {
    var digest := at.digest + Unhashed(line, at.position, oldSize);
    var position := at.position + |line|;
    if Complete(line) then Progress(step(at.stable, Body(line)), at.tail, position, position, digest)
    else Progress(at.stable, step(at.tail, Body(line)), at.offset, position, digest)
  }

  /** Up to the offset everything is complete lines and counted as stable; what follows, if
    the reader is past it, is the last line and counted as tail. */
  ghost predicate Tallied(content: seq<Byte>, at: Progress, step: Step) {
    && at.offset <= at.position <= |content|
    && at.stable == Prefix(content, at.offset, step)
    && (at.offset == at.position ==> at.tail == ZERO)
    && (at.offset < at.position ==> TailTallied(content, at, step))
  }

  ghost predicate TailTallied(content: seq<Byte>, at: Progress, step: Step) {
    && at.offset <= at.position == |content| <= at.offset + MAX_LINE_BYTES
    && at.tail == Rest(content, at.offset, step) && !Refused(content[at.offset..], MAX_LINE_BYTES)
  }

  lemma TallyComplete(content: seq<Byte>, at: Progress, line: seq<Byte>, oldSize: nat, step: Step)
    requires Tallied(content, at, step) && Neutral(step) && at.offset == at.position && Complete(line)
    requires at.position + |line| <= |content|
    requires TextBodies(content[..at.position + |line|]) == TextBodies(content[..at.position]) + IfAny(Body(line))
    ensures Tallied(content, Taken(at, line, oldSize, step), step)
  {
    PrefixGrows(content, at.position, line, step);
  }

  lemma PrefixGrows(content: seq<Byte>, offset: nat, line: seq<Byte>, step: Step)
    requires offset + |line| <= |content| && Neutral(step)
    requires TextBodies(content[..offset + |line|]) == TextBodies(content[..offset]) + IfAny(Body(line))
    ensures Prefix(content, offset + |line|, step) == step(Prefix(content, offset, step), Body(line))
  {
    FoldIfAny(step, TextBodies(content[..offset]), Body(line));
  }

  lemma TallyPartial(content: seq<Byte>, at: Progress, line: seq<Byte>, oldSize: nat, step: Step)
    requires Tallied(content, at, step) && Neutral(step) && at.offset == at.position < |content| && !Complete(line)
    requires at.position + |line| <= |content| && line == content[at.position..][..|line|]
    requires line != [] && LineLength(content[at.position..]) == |line| <= MAX_LINE_BYTES
    ensures Tallied(content, Taken(at, line, oldSize, step), step)
  {
    var body := Body(line);
    PartialIsLast(content[at.position..], line);
    FoldIfAny(step, [], body);
    assert [] + IfAny(body) == IfAny(body);
  }

  lemma TallyNext(content: seq<Byte>, lines: seq<seq<Byte>>, refused: bool, at: Progress, line: seq<Byte>, oldSize: nat, step: Step)
    requires lines != [] && line == lines[0] && Neutral(step)
    requires Left(content, at.position, lines, refused) && Resumable(content, at.offset) && Tallied(content, at, step)
    ensures Tallied(content, Taken(at, line, oldSize, step), step)
  {
    hide TextBodies, BodiesRead, NearlyFits, LinesRead, Refused, Fold;
    Advance(content, at.position, lines, refused, line);
    if Complete(line) {
      CompleteLine(content, at.position, line);
      TallyComplete(content, at, line, oldSize, step);
    } else {
      TallyPartial(content, at, line, oldSize, step);
    }
  }

  /** The resume offset stays behind a complete line. */
  lemma StayResumable(content: seq<Byte>, lines: seq<seq<Byte>>, refused: bool, offset: nat, position: nat, line: seq<Byte>)
    requires lines != [] && line == lines[0]
    requires Left(content, position, lines, refused) && Resumable(content, offset) && offset <= position && (offset < position ==> position == |content|)
    ensures Resumable(content, if Complete(line) then position + |line| else offset)
  {
    Advance(content, position, lines, refused, line);
    if Complete(line) {
      CompleteLine(content, position, line);
    }
  }

  /** Where a pass stands, with the lines that are left. */
  ghost predicate Underway(content: seq<Byte>, lines: seq<seq<Byte>>, refused: bool, oldSize: nat, at: Progress, step: Step) {
    && Left(content, at.position, lines, refused)
    && Hashed(content, oldSize, at.position, at.digest)
    && Resumable(content, at.offset)
    && Tallied(content, at, step)
  }

  lemma ConsumeNext(content: seq<Byte>, lines: seq<seq<Byte>>, next: seq<seq<Byte>>, refused: bool, oldSize: nat, at: Progress, step: Step)
    requires lines != [] && next == lines[1..] && Neutral(step) && Underway(content, lines, refused, oldSize, at, step)
    ensures Underway(content, next, refused, oldSize, Taken(at, lines[0], oldSize, step), step)
  {
    hide TextBodies, BodiesRead, NearlyFits, LinesRead, Refused, Fold;
    Advance(content, at.position, lines, refused, lines[0]);
    DigestStep(content, lines[0], oldSize, at.position, at.digest);
    StayResumable(content, lines, refused, at.offset, at.position, lines[0]);
    TallyNext(content, lines, refused, at, lines[0], oldSize, step);
  }

  /** How a pass over known lines ends: the counters, the resume offset and the digest. */
  ghost predicate Consumed(content: seq<Byte>, refused: bool, at: Progress, step: Step) {
    && Resumable(content, at.offset) && at.stable == Prefix(content, at.offset, step)
    && (refused ==> at.tail == ZERO && at.offset < |content| && LineLength(content[at.offset..]) > MAX_LINE_BYTES)
    && (!refused ==>
          && at.tail == Rest(content, at.offset, step) && at.digest == content && !Refused(content[at.offset..], MAX_LINE_BYTES)
          && |content| <= at.offset + MAX_LINE_BYTES)
  }

  lemma ConsumedAll(content: seq<Byte>, refused: bool, oldSize: nat, at: Progress, step: Step)
    requires Underway(content, [], refused, oldSize, at, step)
    ensures Consumed(content, refused, at, step)
  {
    NothingComes(content[at.position..], refused);
    WholeSlices(content, []);
  }

  /** Counts the delivered lines.  `known` says that they are what the bounded reader makes of
    `content` from where the pass starts. */
  method ConsumeLines(lines: seq<seq<Byte>>, start: Progress, oldSize: nat, step: Step,
                      ghost content: seq<Byte>, ghost refused: bool, ghost known: bool)
    returns (at: Progress)
    requires Neutral(step)
    requires known ==> Underway(content, lines, refused, oldSize, start, step)
    ensures known ==> Consumed(content, refused, at, step)
  {
    at := start;
    assert lines[0..] == lines;
    for i := 0 to |lines|
      invariant known ==> Underway(content, lines[i..], refused, oldSize, at, step)
    {
      if known {
        ConsumeNext(content, lines[i..], lines[i + 1..], refused, oldSize, at, step);
      }
      at := Taken(at, lines[i], oldSize, step);
    }
    if known {
      assert lines[|lines|..] == [];
      ConsumedAll(content, refused, oldSize, at, step);
    }
  }

  /** In a log of the program: a line whose CR is its last byte within the cap, met by a scan
    before the LF was there. */
  lemma OverlongPair() returns (content: seq<Byte>, offset: nat)
    ensures Resumable(content, offset) && !Refused(content[..offset], MAX_LINE_BYTES)
    ensures !Refused(content[offset..], MAX_LINE_BYTES) && Refused(content, MAX_LINE_BYTES)
  {
    hide NearlyFits, PairsFit, Refused;
    var x := seq(MAX_LINE_BYTES - 1, i => 120);
    PairOverCapIsSeenDifferently(x, MAX_LINE_BYTES);
    content, offset := x + [CR] + [LF], MAX_LINE_BYTES;
    WholeSlices(x + [CR], [LF]);
  }

  // ---------- the pass counts what a scan from the top counts ----------

  /** The counters a pass reports: with one unreadable log if the reader gave up. */
  function Reported(refused: bool, stable: Counts, tail: Counts): Counts {
    Include(if refused then OneUnreadable(stable) else stable, tail)
  }

  lemma PassIsFresh(content: seq<Byte>, refused: bool, at: Progress, step: Step)
    requires Consumed(content, refused, at, step) && PairsFit(content, MAX_LINE_BYTES)
    requires Additive(ZERO, step, Include)
    ensures Reported(refused, at.stable, at.tail) == ScanText(content, MAX_LINE_BYTES, step)
  {
    ResumedScan(content, at.offset);
    if refused {
      RefusedPass(content, at, step);
    } else {
      FinishedPass(content, at, step);
    }
  }

  /** A scan of everything reads the lines before the resume offset and those behind it. */
  lemma ResumedScan(content: seq<Byte>, offset: nat)
    requires Resumable(content, offset) && PairsFit(content, MAX_LINE_BYTES)
    ensures BodiesRead(content, MAX_LINE_BYTES) == TextBodies(content[..offset]) + BodiesRead(content[offset..], MAX_LINE_BYTES)
    ensures Refused(content, MAX_LINE_BYTES) <==> Refused(content[offset..], MAX_LINE_BYTES)
  {
    var a, b := content[..offset], content[offset..];
    assert a + b == content;
    ScanCut(a, b, MAX_LINE_BYTES);
  }

  lemma FinishedPass(content: seq<Byte>, at: Progress, step: Step)
    requires Consumed(content, false, at, step) && Additive(ZERO, step, Include)
    requires BodiesRead(content, MAX_LINE_BYTES) == TextBodies(content[..at.offset]) + BodiesRead(content[at.offset..], MAX_LINE_BYTES)
    requires !Refused(content, MAX_LINE_BYTES)
    ensures Include(at.stable, at.tail) == ScanText(content, MAX_LINE_BYTES, step)
  {
    FoldConcat(ZERO, step, Include, TextBodies(content[..at.offset]), BodiesRead(content[at.offset..], MAX_LINE_BYTES));
  }

  lemma RefusedPass(content: seq<Byte>, at: Progress, step: Step)
    requires Consumed(content, true, at, step)
    requires BodiesRead(content, MAX_LINE_BYTES) == TextBodies(content[..at.offset]) + BodiesRead(content[at.offset..], MAX_LINE_BYTES)
    requires Refused(content, MAX_LINE_BYTES) <==> Refused(content[at.offset..], MAX_LINE_BYTES)
    ensures Include(OneUnreadable(at.stable), at.tail) == ScanText(content, MAX_LINE_BYTES, step)
  {
    NothingScanned(content[at.offset..]);
    assert TextBodies(content[..at.offset]) + [] == TextBodies(content[..at.offset]);
    PlusNothing(OneUnreadable(at.stable), at.tail);
  }

  lemma NothingScanned(s: seq<Byte>)
    requires s != [] && LineLength(s) > MAX_LINE_BYTES
    ensures BodiesRead(s, MAX_LINE_BYTES) == [] && Refused(s, MAX_LINE_BYTES)
  {
  }
}
