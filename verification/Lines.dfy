/** Logical lines of a byte sequence: LF, CR and CRLF each end one line. */
module Lines {

  type Byte = b: int | 0 <= b < 256

  const LF: Byte := 10
  const CR: Byte := 13

  predicate IsNewline(b: Byte) {
    b == LF || b == CR
  }

  /** Bytes of the delimiter that starts with a newline at the head of `s`: two when it is the
    pair `first`, `second`. */
  function DelimiterLength(s: seq<Byte>, first: Byte, second: Byte): nat
    requires s != [] && IsNewline(s[0])
  {
    if s[0] == first && |s| > 1 && s[1] == second then 2 else 1
  }

  /** The segments between delimiters; always at least one, the last without delimiter. */
  function Segments(s: seq<Byte>, first: Byte, second: Byte): (r: seq<seq<Byte>>)
    ensures r != []
    decreases |s|
  {
    if s == [] then [[]]
    else if IsNewline(s[0]) then [[]] + Segments(s[DelimiterLength(s, first, second)..], first, second)
    else
      var rest := Segments(s[1..], first, second);
      [[s[0]] + rest[0]] + rest[1..]
  }

  ghost predicate NoNewline(s: seq<Byte>) {
    forall i :: 0 <= i < |s| ==> !IsNewline(s[i])
  }

  method FindNewline(s: seq<Byte>, from: nat, to: nat) returns (i: nat)
    requires from <= to <= |s|
    ensures from <= i <= to
    ensures NoNewline(s[from..i])
    ensures i < to ==> IsNewline(s[i])
  {
    i := from;
    while i < to && !IsNewline(s[i])
      invariant from <= i <= to
      invariant NoNewline(s[from..i])
    {
      assert s[from..i + 1] == s[from..i] + [s[i]];
      i := i + 1;
    }
  }

  /** A line followed by a delimiter is the first segment, whatever comes after. */
  lemma {:induction false} FirstSegment(line: seq<Byte>, rest: seq<Byte>, first: Byte, second: Byte)
    requires NoNewline(line) && rest != [] && IsNewline(rest[0])
    ensures Segments(line + rest, first, second) ==
            [line] + Segments(rest[DelimiterLength(rest, first, second)..], first, second)
  {
    if line == [] {
      assert line + rest == rest;
    } else {
      assert (line + rest)[1..] == line[1..] + rest;
      FirstSegment(line[1..], rest, first, second);
      assert line == [line[0]] + line[1..];
    }
  }

  lemma {:induction false} OnlySegment(line: seq<Byte>, first: Byte, second: Byte)
    requires NoNewline(line)
    ensures Segments(line, first, second) == [line]
  {
    if line != [] {
      OnlySegment(line[1..], first, second);
      assert line == [line[0]] + line[1..];
    }
  }

  /** What follows a partial line can only make its segment longer. */
  lemma {:induction false} FirstSegmentGrows(line: seq<Byte>, rest: seq<Byte>, first: Byte, second: Byte)
    requires NoNewline(line)
    ensures |Segments(line + rest, first, second)[0]| >= |line|
  {
    if line == [] {
    } else {
      assert (line + rest)[1..] == line[1..] + rest;
      FirstSegmentGrows(line[1..], rest, first, second);
    }
  }

  // ---------- reversal ----------

  function Reverse<T>(s: seq<T>): (r: seq<T>)
    ensures |r| == |s|
    ensures forall i :: 0 <= i < |s| ==> r[i] == s[|s| - 1 - i]
  {
    if s == [] then [] else Reverse(s[1..]) + [s[0]]
  }

  lemma ReverseConcat<T>(a: seq<T>, b: seq<T>)
    ensures Reverse(a + b) == Reverse(b) + Reverse(a)
  {
  }

  lemma ReverseTwice<T>(s: seq<T>)
    ensures Reverse(Reverse(s)) == s
  {
  }

  function Mirrored(segments: seq<seq<Byte>>): (r: seq<seq<Byte>>)
    ensures |r| == |segments|
    ensures forall i :: 0 <= i < |r| ==> r[i] == Reverse(segments[|segments| - 1 - i])
  {
    seq(|segments|, i requires 0 <= i < |segments| => Reverse(segments[|segments| - 1 - i]))
  }

  /** The segments on both sides of a cut, glued at the cut. */
  function Glued(a: seq<seq<Byte>>, b: seq<seq<Byte>>): seq<seq<Byte>>
    requires a != [] && b != []
  {
    a[..|a| - 1] + [a[|a| - 1] + b[0]] + b[1..]
  }

  lemma GluedAfterEmpty(a: seq<seq<Byte>>, b: seq<seq<Byte>>)
    requires a != [] && b != []
    ensures Glued([[]] + a, b) == [[]] + Glued(a, b)
  {
    assert ([[]] + a)[..|a|] == [[]] + a[..|a| - 1];
  }

  function Prepended(x: Byte, a: seq<seq<Byte>>): seq<seq<Byte>>
    requires a != []
  {
    [[x] + a[0]] + a[1..]
  }

  lemma GluedPrepended(x: Byte, a: seq<seq<Byte>>, b: seq<seq<Byte>>)
    requires a != [] && b != []
    ensures Glued(Prepended(x, a), b) == Prepended(x, Glued(a, b))
  {
    if |a| == 1 {
      assert [[x] + a[0] + b[0]] + b[1..] == [[x] + (a[0] + b[0])] + b[1..] by {
        assert [x] + a[0] + b[0] == [x] + (a[0] + b[0]);
      }
    } else {
      assert Prepended(x, a)[..|a| - 1] == [[x] + a[0]] + a[..|a| - 1][1..];
    }
  }

  /** A cut that does not fall inside a pair does not change the segments, wherever it is. */
  lemma {:induction false} CutsDoNotMatter(s: seq<Byte>, t: seq<Byte>, first: Byte, second: Byte)
    requires s != [] && t != [] ==> !(s[|s| - 1] == first && t[0] == second)
    ensures Segments(s + t, first, second) == Glued(Segments(s, first, second), Segments(t, first, second))
    decreases |s|
  {
    var whole := Segments(t, first, second);
    if s == [] {
      assert s + t == t;
      assert [] + whole[0] == whole[0] && [whole[0]] + whole[1..] == whole;
    } else if IsNewline(s[0]) {
      var n := DelimiterLength(s, first, second);
      assert DelimiterLength(s + t, first, second) == n;
      assert (s + t)[n..] == s[n..] + t;
      CutsDoNotMatter(s[n..], t, first, second);
      GluedAfterEmpty(Segments(s[n..], first, second), whole);
    } else {
      assert (s + t)[1..] == s[1..] + t;
      CutsDoNotMatter(s[1..], t, first, second);
      GluedPrepended(s[0], Segments(s[1..], first, second), whole);
    }
  }

  lemma MirrorConcat(a: seq<seq<Byte>>, b: seq<seq<Byte>>)
    ensures Mirrored(a + b) == Mirrored(b) + Mirrored(a)
  {
  }

  lemma MirrorGlued(a: seq<seq<Byte>>, b: seq<seq<Byte>>)
    requires a != [] && b != []
    ensures Mirrored(Glued(a, b)) == Glued(Mirrored(b), Mirrored(a))
  {
    var front, x, y, back := a[..|a| - 1], a[|a| - 1], b[0], b[1..];
    ReverseConcat(x, y);
    MirrorConcat(front + [x + y], back);
    MirrorConcat(front, [x + y]);
    MirrorConcat(front, [x]);
    MirrorConcat([y], back);
    assert a == front + [x] && b == [y] + back;
    assert Mirrored(b)[..|b| - 1] == Mirrored(back) && Mirrored(a)[1..] == Mirrored(front);
  }

  /** Reading the reversed bytes with the reversed pair gives the mirrored segments. */
  lemma {:induction false} SegmentsMirror(s: seq<Byte>, first: Byte, second: Byte)
    requires first != second && IsNewline(first) && IsNewline(second)
    ensures Segments(Reverse(s), second, first) == Mirrored(Segments(s, first, second))
    decreases |s|
  {
    if s == [] {
    } else {
      var n := if IsNewline(s[0]) then DelimiterLength(s, first, second) else 1;
      var head, tail := s[..n], s[n..];
      assert s == head + tail;
      ReverseConcat(head, tail);
      SegmentsMirror(tail, first, second);
      HeadMirror(head, first, second);
      hide Segments, Mirrored, IsNewline;
      MirrorStep(head, tail, first, second);
    }
  }

  lemma MirrorStep(head: seq<Byte>, tail: seq<Byte>, first: Byte, second: Byte)
    requires head != [] && (tail != [] ==> !(head[|head| - 1] == first && tail[0] == second))
    requires Segments(Reverse(head), second, first) == Mirrored(Segments(head, first, second))
    requires Segments(Reverse(tail), second, first) == Mirrored(Segments(tail, first, second))
    ensures Segments(Reverse(tail) + Reverse(head), second, first) == Mirrored(Segments(head + tail, first, second))
  {
    hide Segments, Mirrored;
    CutsDoNotMatter(head, tail, first, second);
    CutsDoNotMatter(Reverse(tail), Reverse(head), second, first);
    MirrorGlued(Segments(head, first, second), Segments(tail, first, second));
  }

  lemma NewlineAlone(head: seq<Byte>, first: Byte, second: Byte)
    requires head != [] && IsNewline(head[0]) && |head| == DelimiterLength(head, first, second)
    ensures Segments(head, first, second) == [[], []]
  {
    FirstSegment([], head, first, second);
    assert [] + head == head && head[|head|..] == [];
  }

  lemma HeadMirror(head: seq<Byte>, first: Byte, second: Byte)
    requires first != second && IsNewline(first) && IsNewline(second)
    requires |head| == 1 || head == [first, second]
    ensures Segments(Reverse(head), second, first) == Mirrored(Segments(head, first, second))
  {
    if |head| == 2 {
      assert Reverse(head) == [second, first];
      NewlineAlone(head, first, second);
      NewlineAlone([second, first], second, first);
    } else {
      assert Reverse(head) == head;
      if IsNewline(head[0]) {
        NewlineAlone(head, first, second);
        NewlineAlone(head, second, first);
      } else {
        OnlySegment(head, first, second);
        OnlySegment(head, second, first);
      }
    }
  }
}
