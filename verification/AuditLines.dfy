/** The bounded line reader of the audit log, in both directions. */
module AuditLines {
  import opened Lines

  const READ_CHUNK_BYTES := 64 * 1024

  /** What a reader has produced: its lines so far, and whether it ended by refusing. */
  datatype Reading = Reading(lines: seq<seq<Byte>>, refused: bool)

  // ---------- specification ----------

  /** The logical lines in file order: a last segment without bytes is not a line. */
  function FileLines(content: seq<Byte>): seq<seq<Byte>> {
    var segments := Segments(content, CR, LF);
    if segments[|segments| - 1] == [] then segments[..|segments| - 1] else segments
  }

  /** Delivers lines until enough were asked for or one is too long. */
  function Delivered(lines: seq<seq<Byte>>, maxLine: nat, wanted: nat): Reading {
    if wanted == 0 || lines == [] then Reading([], false)
    else if |lines[0]| > maxLine then Reading([], true)
    else
      var rest := Delivered(lines[1..], maxLine, wanted - 1);
      Reading([lines[0]] + rest.lines, rest.refused)
  }

  predicate AllShort(lines: seq<seq<Byte>>, maxLine: nat) {
    forall i :: 0 <= i < |lines| ==> |lines[i]| <= maxLine
  }

  /** The lines that a consumer asking for `wanted` lines meets. */
  function Asked(lines: seq<seq<Byte>>, wanted: nat): seq<seq<Byte>> {
    lines[..if wanted < |lines| then wanted else |lines|]
  }

  /** The delivery refuses exactly when one of the lines asked for is too long; what lies
    beyond them is never met. */
  lemma {:induction false} DeliveredRefuses(lines: seq<seq<Byte>>, maxLine: nat, wanted: nat)
    ensures Delivered(lines, maxLine, wanted).refused <==> !AllShort(Asked(lines, wanted), maxLine)
    ensures !Delivered(lines, maxLine, wanted).refused ==> Delivered(lines, maxLine, wanted).lines == Asked(lines, wanted)
  {
    if lines != [] && wanted > 0 {
      DeliveredRefuses(lines[1..], maxLine, wanted - 1);
      assert Asked(lines, wanted) == [lines[0]] + Asked(lines[1..], wanted - 1);
      var met := Asked(lines[1..], wanted - 1);
      if !AllShort(met, maxLine) {
        var i :| 0 <= i < |met| && |met[i]| > maxLine;
        assert Asked(lines, wanted)[i + 1] == met[i];
      }
    }
  }

  /** The lines in reading order. */
  function Ordered(content: seq<Byte>, newestFirst: bool): seq<seq<Byte>> {
    if newestFirst then Reverse(FileLines(content)) else FileLines(content)
  }

  // ---------- one pass ----------

  function Oriented(line: seq<Byte>, newestFirst: bool): seq<Byte> {
    if newestFirst then Reverse(line) else line
  }

  /** The bytes in reading direction. */
  function Stream(content: seq<Byte>, newestFirst: bool): seq<Byte> {
    if newestFirst then Reverse(content) else content
  }

  function OrientedAll(segments: seq<seq<Byte>>, newestFirst: bool): (r: seq<seq<Byte>>)
    ensures |r| == |segments|
  {
    seq(|segments|, i requires 0 <= i < |segments| => Oriented(segments[i], newestFirst))
  }

  /** What is still to come: the remaining segments, without the empty segment that a newest
    first pass starts with and without the empty rest that a forward pass ends with. */
  function Upcoming(segments: seq<seq<Byte>>, newestFirst: bool, firstSegment: bool): seq<seq<Byte>>
    requires segments != []
  {
    if newestFirst then
      OrientedAll(if firstSegment && segments[0] == [] then segments[1..] else segments, true)
    else if segments[|segments| - 1] == [] then segments[..|segments| - 1] else segments
  }

  /** The first and second byte of the two-byte delimiter in reading direction. */
  function PairFirst(newestFirst: bool): Byte {
    if newestFirst then LF else CR
  }

  function PairSecond(newestFirst: bool): Byte {
    if newestFirst then CR else LF
  }

  function StreamSegments(stream: seq<Byte>, newestFirst: bool): (r: seq<seq<Byte>>)
    ensures r != []
  {
    Segments(stream, PairFirst(newestFirst), PairSecond(newestFirst))
  }

  lemma TurnedBack(segments: seq<seq<Byte>>)
    ensures OrientedAll(Mirrored(segments), true) == Reverse(segments)
  {
    var l, r := OrientedAll(Mirrored(segments), true), Reverse(segments);
    forall i | 0 <= i < |segments| ensures l[i] == r[i] {
      ReverseTwice(segments[|segments| - 1 - i]);
    }
  }

  lemma MirroredTail(segments: seq<seq<Byte>>)
    requires segments != []
    ensures Mirrored(segments)[1..] == Mirrored(segments[..|segments| - 1])
    ensures Mirrored(segments)[0] == [] <==> segments[|segments| - 1] == []
  {
  }

  /** Reading the reversed bytes delivers the lines of the file in reverse order. */
  lemma UpcomingIsOrdered(content: seq<Byte>, newestFirst: bool)
    ensures Upcoming(StreamSegments(Stream(content, newestFirst), newestFirst), newestFirst, true) == Ordered(content, newestFirst)
  {
    if newestFirst {
      var segments := Segments(content, CR, LF);
      SegmentsMirror(content, CR, LF);
      MirroredTail(segments);
      TurnedBack(segments);
      TurnedBack(segments[..|segments| - 1]);
    }
  }

  lemma UpcomingStep(line: seq<Byte>, rest: seq<seq<Byte>>, newestFirst: bool, firstSegment: bool)
    requires rest != []
    ensures Upcoming([line] + rest, newestFirst, firstSegment) ==
            (if newestFirst && firstSegment && line == [] then [] else [Oriented(line, newestFirst)])
            + Upcoming(rest, newestFirst, false)
  {
    if newestFirst {
      assert OrientedAll([line] + rest, true) == [Reverse(line)] + OrientedAll(rest, true);
      assert ([line] + rest)[1..] == rest;
    } else {
      assert ([line] + rest)[..|rest|] == [line] + rest[..|rest| - 1];
    }
  }

  function Prefixed(lines: seq<seq<Byte>>, r: Reading): Reading {
    Reading(lines + r.lines, r.refused)
  }

  /** Taking one complete line off the front of what is still to be delivered. */
  lemma DeliverStep(lines: seq<seq<Byte>>, line: seq<Byte>, rest: seq<seq<Byte>>, newestFirst: bool, firstSegment: bool,
                    maxLine: nat, wanted: nat)
    requires rest != [] && |lines| < wanted
    ensures var before := Prefixed(lines, Delivered(Upcoming([line] + rest, newestFirst, firstSegment), maxLine, wanted - |lines|));
            if |line| > maxLine then before == Reading(lines, true)
            else
              var lines' := if newestFirst && firstSegment && line == [] then lines else lines + [Oriented(line, newestFirst)];
              before == Prefixed(lines', Delivered(Upcoming(rest, newestFirst, false), maxLine, wanted - |lines'|))
  {
    hide Upcoming, OrientedAll;
    UpcomingStep(line, rest, newestFirst, firstSegment);
    var upcoming := Upcoming([line] + rest, newestFirst, firstSegment);
    var later := Upcoming(rest, newestFirst, false);
    if newestFirst && firstSegment && line == [] {
      assert upcoming == later;
    } else {
      assert upcoming[0] == Oriented(line, newestFirst) && upcoming[1..] == later;
      if |line| <= maxLine {
        var tail := Delivered(later, maxLine, wanted - |lines| - 1);
        assert lines + ([upcoming[0]] + tail.lines) == lines + [upcoming[0]] + tail.lines;
      }
    }
  }

  /** A partial line that is already too long ends the delivery here. */
  lemma PartialTooLong(lines: seq<seq<Byte>>, pending: seq<Byte>, size: nat, unread: seq<Byte>, newestFirst: bool, firstSegment: bool,
                       maxLine: nat, wanted: nat)
    requires size <= |pending| && NoNewline(pending[..size]) && size > maxLine && |lines| < wanted
    ensures Prefixed(lines, Delivered(Upcoming(StreamSegments(pending + unread, newestFirst), newestFirst, firstSegment), maxLine, wanted - |lines|))
            == Reading(lines, true)
  {
    assert pending + unread == pending[..size] + (pending[size..] + unread);
    FirstSegmentGrows(pending[..size], pending[size..] + unread, PairFirst(newestFirst), PairSecond(newestFirst));
    var segments := StreamSegments(pending + unread, newestFirst);
    var upcoming := Upcoming(segments, newestFirst, firstSegment);
    assert upcoming[0] == Oriented(segments[0], newestFirst);
  }

  /** The end of the stream: the rest is a line unless it is the empty rest of a file that
    ends with a delimiter. */
  lemma LastLine(lines: seq<seq<Byte>>, rest: seq<Byte>, newestFirst: bool, firstSegment: bool, maxLine: nat, wanted: nat)
    requires NoNewline(rest) && |lines| < wanted
    ensures Prefixed(lines, Delivered(Upcoming(StreamSegments(rest, newestFirst), newestFirst, firstSegment), maxLine, wanted - |lines|))
            == if rest == [] && !(newestFirst && !firstSegment) then Reading(lines, false)
               else if |rest| > maxLine then Reading(lines, true)
               else Reading(lines + [Oriented(rest, newestFirst)], false)
  {
    OnlySegment(rest, PairFirst(newestFirst), PairSecond(newestFirst));
    var upcoming := Upcoming([rest], newestFirst, firstSegment);
    if rest == [] && !(newestFirst && !firstSegment) {
      assert upcoming == [];
    } else {
      assert upcoming == [Oriented(rest, newestFirst)];
      assert upcoming[1..] == [];
    }
  }

  /** Where the delimiter at `m` ends, as the pattern finds it before `splitEnd`. */
  function DelimiterEnd(buffer: seq<Byte>, m: nat, splitEnd: nat, newestFirst: bool): nat
    requires m < splitEnd <= |buffer|
  {
    if buffer[m] == PairFirst(newestFirst) && m + 1 < splitEnd && buffer[m + 1] == PairSecond(newestFirst) then m + 2 else m + 1
  }

  /** The buffer may be split up to here: nothing is unread, or a byte that could start a pair
    is held back, or the last byte cannot start one. */
  predicate SafeSplit(buffer: seq<Byte>, unread: seq<Byte>, splitEnd: nat, newestFirst: bool) {
    || (splitEnd == |buffer| && (unread == [] || buffer == [] || buffer[|buffer| - 1] != PairFirst(newestFirst)))
    || (splitEnd + 1 == |buffer| && buffer[splitEnd] == PairFirst(newestFirst))
  }

  /** A delimiter found before a safe split is complete. */
  lemma CompleteDelimiter(buffer: seq<Byte>, unread: seq<Byte>, m: nat, splitEnd: nat, newestFirst: bool)
    requires m < splitEnd <= |buffer| && IsNewline(buffer[m]) && SafeSplit(buffer, unread, splitEnd, newestFirst)
    ensures DelimiterLength(buffer[m..] + unread, PairFirst(newestFirst), PairSecond(newestFirst))
            == DelimiterEnd(buffer, m, splitEnd, newestFirst) - m
  {
    var rest := buffer[m..] + unread;
    assert rest[0] == buffer[m] && (m + 1 < |buffer| ==> rest[1] == buffer[m + 1]);
  }

  lemma SplitOff(buffer: seq<Byte>, unread: seq<Byte>, start: nat, m: nat, splitEnd: nat, newestFirst: bool)
    requires start <= m < splitEnd <= |buffer| && NoNewline(buffer[start..m]) && IsNewline(buffer[m])
    requires SafeSplit(buffer, unread, splitEnd, newestFirst)
    ensures StreamSegments(buffer[start..] + unread, newestFirst)
            == [buffer[start..m]] + StreamSegments(buffer[DelimiterEnd(buffer, m, splitEnd, newestFirst)..] + unread, newestFirst)
  {
    hide SafeSplit, Segments, NoNewline, DelimiterLength;
    var next := DelimiterEnd(buffer, m, splitEnd, newestFirst);
    var rest := buffer[m..] + unread;
    CompleteDelimiter(buffer, unread, m, splitEnd, newestFirst);
    FirstSegment(buffer[start..m], rest, PairFirst(newestFirst), PairSecond(newestFirst));
    assert buffer[start..] + unread == buffer[start..m] + rest;
    assert rest[next - m..] == buffer[next..] + unread;
  }

  /** Everything that is delivered in the end, seen from the middle of the pass. */
  function Final(lines: seq<seq<Byte>>, rest: seq<Byte>, newestFirst: bool, firstSegment: bool, maxLine: nat, wanted: nat): Reading
    requires |lines| <= wanted
  {
    Prefixed(lines, Delivered(Upcoming(StreamSegments(rest, newestFirst), newestFirst, firstSegment), maxLine, wanted - |lines|))
  }

  /** Taking the line at `start` out of the buffer. */
  lemma FinalStep(lines: seq<seq<Byte>>, buffer: seq<Byte>, start: nat, m: nat, splitEnd: nat, unread: seq<Byte>,
                  newestFirst: bool, firstSegment: bool, maxLine: nat, wanted: nat)
    requires start <= m < splitEnd <= |buffer| && NoNewline(buffer[start..m]) && IsNewline(buffer[m])
    requires SafeSplit(buffer, unread, splitEnd, newestFirst) && |lines| < wanted
    ensures var line, next := buffer[start..m], DelimiterEnd(buffer, m, splitEnd, newestFirst);
            var before := Final(lines, buffer[start..] + unread, newestFirst, firstSegment, maxLine, wanted);
            if |line| > maxLine then before == Reading(lines, true)
            else
              var lines' := if newestFirst && firstSegment && line == [] then lines else lines + [Oriented(line, newestFirst)];
              before == Final(lines', buffer[next..] + unread, newestFirst, false, maxLine, wanted)
  {
    hide SafeSplit, StreamSegments, Delivered, Upcoming, OrientedAll, Oriented, NoNewline, Segments, IsNewline;
    var next := DelimiterEnd(buffer, m, splitEnd, newestFirst);
    SplitOff(buffer, unread, start, m, splitEnd, newestFirst);
    DeliverStep(lines, buffer[start..m], StreamSegments(buffer[next..] + unread, newestFirst), newestFirst, firstSegment, maxLine, wanted);
  }

  /** Nothing is delivered once enough was. */
  lemma EnoughIsFinal(lines: seq<seq<Byte>>, rest: seq<Byte>, newestFirst: bool, firstSegment: bool, maxLine: nat)
    ensures Final(lines, rest, newestFirst, firstSegment, maxLine, |lines|) == Reading(lines, false)
  {
    assert lines + [] == lines;
  }

  datatype Stop = Continue | Enough | TooLong

  /** Delivers the complete lines of the buffer. */
  method SplitBuffer(before: seq<seq<Byte>>, buffer: seq<Byte>, splitEnd: nat, newestFirst: bool, atFirst: bool,
                     maxLine: nat, wanted: nat, ghost unread: seq<Byte>)
    returns (lines: seq<seq<Byte>>, start: nat, firstSegment: bool, stop: Stop)
    requires |before| < wanted && splitEnd <= |buffer| && SafeSplit(buffer, unread, splitEnd, newestFirst)
    ensures start <= splitEnd && |lines| <= wanted
    ensures stop == Continue ==>
              && |lines| < wanted && NoNewline(buffer[start..splitEnd])
              && (!atFirst || start > 0 ==> !firstSegment) && (atFirst && start == 0 ==> firstSegment)
              && Final(before, buffer + unread, newestFirst, atFirst, maxLine, wanted)
                 == Final(lines, buffer[start..] + unread, newestFirst, firstSegment, maxLine, wanted)
    ensures stop != Continue ==>
              Final(before, buffer + unread, newestFirst, atFirst, maxLine, wanted) == Reading(lines, stop == TooLong)
  {
    hide Final, SafeSplit, Oriented;
    lines, start, firstSegment, stop := before, 0, atFirst, Continue;
    assert buffer[0..] == buffer;
    while true
      invariant start <= splitEnd && |lines| < wanted && stop == Continue
      invariant if start == 0 then firstSegment == atFirst else !firstSegment
      invariant Final(before, buffer + unread, newestFirst, atFirst, maxLine, wanted)
                == Final(lines, buffer[start..] + unread, newestFirst, firstSegment, maxLine, wanted)
      decreases splitEnd - start
    {
      var m := FindNewline(buffer, start, splitEnd);
      if m == splitEnd { return; }
      var line, next := buffer[start..m], DelimiterEnd(buffer, m, splitEnd, newestFirst);
      FinalStep(lines, buffer, start, m, splitEnd, unread, newestFirst, firstSegment, maxLine, wanted);
      if |line| > maxLine {
        stop := TooLong;
        return;
      }
      if !(newestFirst && firstSegment && line == []) {
        lines := lines + [Oriented(line, newestFirst)];
      }
      firstSegment := false;
      start := next;
      if |lines| == wanted {
        EnoughIsFinal(lines, buffer[start..] + unread, newestFirst, firstSegment, maxLine);
        stop := Enough;
        return;
      }
    }
  }

  /** The open line after a split: all of the rest, or all but a held-back byte. */
  lemma OpenLine(pending: seq<Byte>, buffer: seq<Byte>, start: nat, splitEnd: nat, unread: seq<Byte>, newestFirst: bool)
    requires start <= splitEnd <= |buffer| && NoNewline(buffer[start..splitEnd]) && pending == buffer[start..]
    requires SafeSplit(buffer, unread, splitEnd, newestFirst)
    ensures var size := if pending != [] && pending[|pending| - 1] == PairFirst(newestFirst) then |pending| - 1 else |pending|;
            NoNewline(pending[..size]) && (unread == [] && splitEnd == |buffer| ==> NoNewline(pending) && size == |pending|)
  {
    if splitEnd == |buffer| {
      assert buffer[start..splitEnd] == pending;
      assert pending != [] ==> !IsNewline(pending[|pending| - 1]);
    } else {
      assert pending[..|pending| - 1] == buffer[start..splitEnd];
      assert pending[|pending| - 1] == buffer[splitEnd];
    }
  }

  /** Takes in one chunk and delivers what it completes. */
  method Absorb(before: seq<seq<Byte>>, held: seq<Byte>, chunk: seq<Byte>, atEnd: bool, newestFirst: bool, atFirst: bool,
                maxLine: nat, wanted: nat, ghost unread: seq<Byte>)
    returns (lines: seq<seq<Byte>>, pending: seq<Byte>, firstSegment: bool, stop: Stop)
    requires |before| < wanted && chunk != [] && (atEnd <==> unread == [])
    ensures |lines| <= wanted
    ensures stop == Continue ==>
              && |lines| < wanted && (atEnd ==> NoNewline(pending))
              && Final(before, held + chunk + unread, newestFirst, atFirst, maxLine, wanted)
                 == Final(lines, pending + unread, newestFirst, firstSegment, maxLine, wanted)
    ensures stop != Continue ==>
              Final(before, held + chunk + unread, newestFirst, atFirst, maxLine, wanted) == Reading(lines, stop == TooLong)
  {
    var buffer := held + chunk;
    var splitEnd := |buffer|;
    if !atEnd && buffer[|buffer| - 1] == PairFirst(newestFirst) {
      splitEnd := splitEnd - 1;
    }
    var start;
    lines, start, firstSegment, stop := SplitBuffer(before, buffer, splitEnd, newestFirst, atFirst, maxLine, wanted, unread);
    pending := buffer[start..];
    if stop != Continue { return; }
    OpenLine(pending, buffer, start, splitEnd, unread, newestFirst);
    var lineSize := if pending != [] && pending[|pending| - 1] == PairFirst(newestFirst) then |pending| - 1 else |pending|;
    if lineSize > maxLine {
      PartialTooLong(lines, pending, lineSize, unread, newestFirst, firstSegment, maxLine, wanted);
      stop := TooLong;
    }
  }

  /** The bytes of the stream that are not read yet. */
  function Unread(content: seq<Byte>, newestFirst: bool, position: nat): seq<Byte>
    requires position <= |content|
  {
    if newestFirst then Reverse(content[..position]) else content[position..]
  }

  /** One read from the file, in reading direction. */
  method NextChunk(content: seq<Byte>, newestFirst: bool, position: nat, amount: nat) returns (chunk: seq<Byte>, position': nat)
    requires position <= |content| && 0 < amount <= if newestFirst then position else |content| - position
    ensures position' == (if newestFirst then position - amount else position + amount)
    ensures |chunk| == amount && Unread(content, newestFirst, position) == chunk + Unread(content, newestFirst, position')
  {
    if newestFirst {
      position' := position - amount;
      chunk := Reverse(content[position'..position]);
      assert content[..position] == content[..position'] + content[position'..position];
      ReverseConcat(content[..position'], content[position'..position]);
    } else {
      position' := position + amount;
      chunk := content[position..position'];
    }
  }

  /** The rest of the stream is the last line. */
  method Flush(before: seq<seq<Byte>>, pending: seq<Byte>, newestFirst: bool, firstSegment: bool, size: nat, maxLine: nat, wanted: nat)
    returns (r: Reading)
    requires |before| < wanted && NoNewline(pending) && (size == 0 ==> firstSegment)
    ensures r == Final(before, pending, newestFirst, firstSegment, maxLine, wanted)
  {
    LastLine(before, pending, newestFirst, firstSegment, maxLine, wanted);
    var lines := before;
    if pending != [] || (newestFirst && size > 0 && !firstSegment) {
      if |pending| > maxLine { return Reading(lines, true); }
      lines := lines + [Oriented(pending, newestFirst)];
    }
    return Reading(lines, false);
  }

  /** One turn of the pass: read a chunk and take it in. */
  method Turn(content: seq<Byte>, newestFirst: bool, position: nat, amount: nat, before: seq<seq<Byte>>, held: seq<Byte>, atFirst: bool,
              maxLine: nat, wanted: nat)
    returns (position': nat, lines: seq<seq<Byte>>, pending: seq<Byte>, firstSegment: bool, stop: Stop)
    requires position <= |content| && 0 < amount <= if newestFirst then position else |content| - position
    requires |before| < wanted
    ensures position' == (if newestFirst then position - amount else position + amount)
    ensures |lines| <= wanted
    ensures stop == Continue ==>
              && |lines| < wanted && (position' == (if newestFirst then 0 else |content|) ==> NoNewline(pending))
              && Pass(content, newestFirst, position, before, held, atFirst, maxLine, wanted)
                 == Pass(content, newestFirst, position', lines, pending, firstSegment, maxLine, wanted)
    ensures stop != Continue ==>
              Pass(content, newestFirst, position, before, held, atFirst, maxLine, wanted) == Reading(lines, stop == TooLong)
  {
    var chunk;
    chunk, position' := NextChunk(content, newestFirst, position, amount);
    ghost var unread := Unread(content, newestFirst, position');
    assert held + Unread(content, newestFirst, position) == held + chunk + unread;
    var atEnd := if newestFirst then position' == 0 else position' >= |content|;
    lines, pending, firstSegment, stop := Absorb(before, held, chunk, atEnd, newestFirst, atFirst, maxLine, wanted, unread);
  }

  /** What a pass delivers in the end, seen from one of its turns. */
  function Pass(content: seq<Byte>, newestFirst: bool, position: nat, lines: seq<seq<Byte>>, pending: seq<Byte>, firstSegment: bool,
                maxLine: nat, wanted: nat): (r: Reading)
    requires |lines| <= wanted && position <= |content|
    ensures lines <= r.lines
  {
    Final(lines, pending + Unread(content, newestFirst, position), newestFirst, firstSegment, maxLine, wanted)
  }

  /** One pass over an unchanging file, in chunks of any size.  `wanted` is how many lines the
    consumer takes before it stops asking. */
  method ReadLines(content: seq<Byte>, newestFirst: bool, chunkSize: nat, maxLine: nat, maxScan: nat, wanted: nat)
    returns (r: Reading)
    requires chunkSize > 0
    ensures |content| <= maxScan ==> r == Delivered(Ordered(content, newestFirst), maxLine, wanted)
    ensures r == Delivered(Ordered(content, newestFirst), maxLine, wanted)
            || (r.refused && r.lines <= Delivered(Ordered(content, newestFirst), maxLine, wanted).lines)
  {
    if wanted == 0 { return Reading([], false); }
    ghost var goal := Delivered(Ordered(content, newestFirst), maxLine, wanted);
    var size, scanned := |content|, 0;
    var position := if newestFirst then size else 0;
    var lines: seq<seq<Byte>>, pending: seq<Byte>, firstSegment := [], [], true;
    StartOfPass(content, newestFirst, position, maxLine, wanted);
    while if newestFirst then position > 0 else position < size
      invariant 0 <= position <= size && scanned == (if newestFirst then size - position else position)
      invariant |lines| < wanted && (scanned == 0 ==> firstSegment)
      invariant Pass(content, newestFirst, position, lines, pending, firstSegment, maxLine, wanted) == goal
      invariant scanned == size ==> NoNewline(pending)
      decreases size - scanned
    {
      var available := if newestFirst then position else size - position;
      var amount := Least(chunkSize, available, maxScan - scanned);
      if amount <= 0 { return Reading(lines, true); }
      var stop;
      position, lines, pending, firstSegment, stop :=
        Turn(content, newestFirst, position, amount, lines, pending, firstSegment, maxLine, wanted);
      scanned := scanned + amount;
      if stop != Continue { return Reading(lines, stop == TooLong); }
    }
    EndOfPass(content, newestFirst, position, pending);
    r := Flush(lines, pending, newestFirst, firstSegment, size, maxLine, wanted);
  }

  lemma EndOfPass(content: seq<Byte>, newestFirst: bool, position: nat, pending: seq<Byte>)
    requires position == if newestFirst then 0 else |content|
    ensures pending + Unread(content, newestFirst, position) == pending
  {
  }

  lemma StartOfPass(content: seq<Byte>, newestFirst: bool, position: nat, maxLine: nat, wanted: nat)
    requires position == if newestFirst then |content| else 0
    ensures Pass(content, newestFirst, position, [], [], true, maxLine, wanted) == Delivered(Ordered(content, newestFirst), maxLine, wanted)
  {
    assert content[..|content|] == content && [] + Stream(content, newestFirst) == Stream(content, newestFirst);
    hide Upcoming, Ordered, Delivered, Reverse, StreamSegments;
    UpcomingIsOrdered(content, newestFirst);
    var whole := Delivered(Ordered(content, newestFirst), maxLine, wanted);
    assert [] + whole.lines == whole.lines;
  }

  function Least(a: int, b: int, c: int): int {
    if a <= b && a <= c then a else if b <= c then b else c
  }

  // ---------- what the reader promises ----------

  lemma ReverseShort(lines: seq<seq<Byte>>, maxLine: nat)
    ensures AllShort(Reverse(lines), maxLine) <==> AllShort(lines, maxLine)
  {
    var back := Reverse(lines);
    if AllShort(back, maxLine) {
      forall i | 0 <= i < |lines| ensures |lines[i]| <= maxLine {
        assert back[|lines| - 1 - i] == lines[i];
      }
    }
  }

  /** Newest first is exactly the reverse of file order, and both directions refuse the same
    files: those with a line that is too long. */
  lemma DirectionsAgree(content: seq<Byte>, maxLine: nat)
    ensures var all := |FileLines(content)|;
            var forward := Delivered(Ordered(content, false), maxLine, all);
            var newest := Delivered(Ordered(content, true), maxLine, all);
            && (forward.refused <==> newest.refused) && (forward.refused <==> !AllShort(FileLines(content), maxLine))
            && (!forward.refused ==> forward.lines == FileLines(content) && newest.lines == Reverse(forward.lines))
  {
    var lines := FileLines(content);
    DeliveredRefuses(lines, maxLine, |lines|);
    DeliveredRefuses(Reverse(lines), maxLine, |lines|);
    ReverseShort(lines, maxLine);
    assert lines[..|lines|] == lines && Reverse(lines)[..|lines|] == Reverse(lines);
  }

  predicate IsBlankByte(b: Byte) {
    b == 32 || 9 <= b <= 13
  }

  /** Blank are the space and the five control characters from tab to carriage return. */
  lemma BlankBytes(b: Byte)
    ensures IsBlankByte(b) <==> b in {0x20, 0x09, 0x0a, 0x0b, 0x0c, 0x0d}
  {
  }

  predicate IsBlank(line: seq<Byte>) {
    forall i :: 0 <= i < |line| ==> IsBlankByte(line[i])
  }

  function NonBlank(lines: seq<seq<Byte>>): seq<seq<Byte>> {
    if lines == [] then []
    else
      var rest := NonBlank(lines[..|lines| - 1]);
      if IsBlank(lines[|lines| - 1]) then rest else rest + [lines[|lines| - 1]]
  }

  const MAX_AUDIT_RESULTS := 10_000

  /** Turns newest-first lines back into file order and drops the blank ones. */
  method InOrder(newest: seq<seq<Byte>>) returns (events: seq<seq<Byte>>)
    ensures events == NonBlank(Reverse(newest))
  {
    events := [];
    var i := |newest|;
    ghost var all := Reverse(newest);
    while i > 0
      invariant 0 <= i <= |newest|
      invariant events == NonBlank(all[..|newest| - i])
    {
      i := i - 1;
      assert all[..|newest| - i][..|newest| - i - 1] == all[..|newest| - i - 1];
      if !IsBlank(newest[i]) {
        events := events + [newest[i]];
      }
    }
    assert all[..|newest|] == all;
  }

  /** The last `n` lines in file order without the blank ones.  Only those lines matter: an
    older line that is too long is never met.  Within the scan cap it refuses exactly when
    too many lines are asked for or one of them is too long. */
  method Tail(content: seq<Byte>, n: nat, chunkSize: nat, maxLine: nat, maxScan: nat) returns (refused: bool, events: seq<seq<Byte>>)
    requires chunkSize > 0
    ensures !refused ==> events == NonBlank(LastOf(FileLines(content), n))
    ensures !refused ==> n <= MAX_AUDIT_RESULTS && AllShort(LastOf(FileLines(content), n), maxLine)
    ensures refused ==> n > MAX_AUDIT_RESULTS || |content| > maxScan || !AllShort(LastOf(FileLines(content), n), maxLine)
  {
    if n > MAX_AUDIT_RESULTS { return true, []; }
    if n == 0 {
      assert LastOf(FileLines(content), 0) == [];
      return false, [];
    }
    var reading := ReadLines(content, true, chunkSize, maxLine, maxScan, n);
    NewestAreLast(FileLines(content), n, maxLine);
    if reading.refused { return true, []; }
    events := InOrder(reading.lines);
    refused := false;
  }

  function LastOf(lines: seq<seq<Byte>>, n: nat): seq<seq<Byte>> {
    lines[if n < |lines| then |lines| - n else 0..]
  }

  lemma NewestAreLast(lines: seq<seq<Byte>>, n: nat, maxLine: nat)
    ensures var newest := Delivered(Reverse(lines), maxLine, n);
            && (newest.refused <==> !AllShort(LastOf(lines, n), maxLine))
            && (!newest.refused ==> Reverse(newest.lines) == LastOf(lines, n))
  {
    DeliveredRefuses(Reverse(lines), maxLine, n);
    ReverseShort(LastOf(lines, n), maxLine);
    var k := if n < |lines| then n else |lines|;
    assert lines == lines[..|lines| - k] + LastOf(lines, n);
    ReverseConcat(lines[..|lines| - k], LastOf(lines, n));
    assert Reverse(lines)[..k] == Reverse(LastOf(lines, n));
    ReverseTwice(LastOf(lines, n));
  }
}
