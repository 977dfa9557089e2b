/**
  The two string operations the pipeline is built from: Python's
  `s.split(sep)` with an explicit one-character separator, and `sep.join(parts)`.
 */
module Strings {

  /** Position of the first `c` in `s`, or `|s|` when there is none. */
  function IndexOf(s: string, c: char): (i: nat)
    ensures i <= |s|
    ensures i < |s| ==> s[i] == c
    ensures forall k :: 0 <= k < i ==> s[k] != c
    ensures c !in s[..i]
  {
    if |s| == 0 then 0
    else if s[0] == c then 0
    else
      var i := 1 + IndexOf(s[1..], c);
      assert s[..i] == [s[0]] + s[1..][..i - 1];
      i
  }

  /** `s.split(sep)`: the pieces between separators, empty pieces kept. */
  function Split(s: string, sep: char): (parts: seq<string>)
    ensures |parts| >= 1
    ensures forall k :: 0 <= k < |parts| ==> sep !in parts[k]
    decreases |s|
  {
    var i := IndexOf(s, sep);
    if i == |s| then [s] else [s[..i]] + Split(s[i + 1..], sep)
  }

  /**
    `sep.join(parts)`. Its length is that of the pieces plus one separator
    between each two; `Offset` counts one separator after every piece.
   */
  function Join(parts: seq<string>, sep: char): (r: string)
    ensures |parts| == 0 ==> r == ""
    ensures |parts| >= 1 ==> |r| + 1 == Offset(parts, |parts|)
  {
    if |parts| == 0 then ""
    else if |parts| == 1 then parts[0]
    else
      OffsetTail(parts, |parts|);
      parts[0] + [sep] + Join(parts[1..], sep)
  }

  /**
    Reference definition of a segment: a maximal run of `s` that holds no
    separator, bounded on each side by a separator or an end of `s`.
   */
  ghost predicate IsSegment(s: string, sep: char, x: string)
  {
    exists i, j :: SegmentAt(s, sep, x, i, j)
  }

  lemma IndexOfAbsent(s: string, c: char)
    requires c !in s
    ensures IndexOf(s, c) == |s|
  {
  }

  lemma IndexOfAt(a: string, b: string, c: char)
    requires c !in a && |b| > 0 && b[0] == c
    ensures IndexOf(a + b, c) == |a|
  {
    var s := a + b;
    assert s[|a|] == c;
    assert forall k :: 0 <= k < |a| ==> s[k] == a[k];
  }

  /** A string without separators splits into itself alone. */
  lemma SplitNoSeparator(s: string, sep: char)
    requires sep !in s
    ensures Split(s, sep) == [s]
  {
    IndexOfAbsent(s, sep);
  }

  /** Joining the pieces of a split gives the string back. */
  lemma {:induction false} JoinSplit(s: string, sep: char)
    ensures Join(Split(s, sep), sep) == s
    decreases |s|
  {
    var i := IndexOf(s, sep);
    if i < |s| {
      var rest := s[i + 1..];
      var parts := Split(s, sep);
      JoinSplit(rest, sep);
      assert parts == [s[..i]] + Split(rest, sep);
      assert parts[0] == s[..i] && parts[1..] == Split(rest, sep);
      assert Join(parts, sep) == s[..i] + [sep] + rest;
      assert s == s[..i] + [sep] + rest;
    } else {
      assert s[..i] == s;
      assert Split(s, sep) == [s];
    }
  }

  /** Splitting a join of separator-free pieces gives the pieces back. */
  lemma {:induction false} SplitJoin(parts: seq<string>, sep: char)
    requires |parts| >= 1
    requires forall k :: 0 <= k < |parts| ==> sep !in parts[k]
    ensures Split(Join(parts, sep), sep) == parts
    decreases |parts|
  {
    if |parts| == 1 {
      SplitNoSeparator(parts[0], sep);
    } else {
      var tail := Join(parts[1..], sep);
      var s := parts[0] + ([sep] + tail);
      assert Join(parts, sep) == s;
      IndexOfAt(parts[0], [sep] + tail, sep);
      assert s[..|parts[0]|] == parts[0];
      assert s[|parts[0]| + 1..] == tail;
      SplitJoin(parts[1..], sep);
      assert parts == [parts[0]] + parts[1..];
    }
  }

  /** Join is injective on non-empty sequences of separator-free pieces. */
  lemma JoinInjective(a: seq<string>, b: seq<string>, sep: char)
    requires |a| >= 1 && |b| >= 1
    requires forall k :: 0 <= k < |a| ==> sep !in a[k]
    requires forall k :: 0 <= k < |b| ==> sep !in b[k]
    requires Join(a, sep) == Join(b, sep)
    ensures a == b
  {
    SplitJoin(a, sep);
    SplitJoin(b, sep);
  }

  /** Joining two non-empty runs of pieces puts one separator between them. */
  lemma {:induction false} JoinAppend(a: seq<string>, b: seq<string>, sep: char)
    requires |a| >= 1 && |b| >= 1
    ensures Join(a + b, sep) == Join(a, sep) + [sep] + Join(b, sep)
    decreases |a|
  {
    if |a| == 1 {
      assert (a + b)[1..] == b;
    } else {
      assert (a + b)[1..] == a[1..] + b;
      JoinAppend(a[1..], b, sep);
    }
  }

  /** Splitting `s + sep + t` splits each side on its own. */
  lemma SplitAppend(s: string, t: string, sep: char)
    ensures Split(s + [sep] + t, sep) == Split(s, sep) + Split(t, sep)
  {
    var parts := Split(s, sep) + Split(t, sep);
    JoinAppend(Split(s, sep), Split(t, sep), sep);
    JoinSplit(s, sep);
    JoinSplit(t, sep);
    assert forall k :: 0 <= k < |parts| ==> sep !in parts[k] by {
      forall k | 0 <= k < |parts| ensures sep !in parts[k] {
        if k >= |Split(s, sep)| {
          assert parts[k] == Split(t, sep)[k - |Split(s, sep)|];
        }
      }
    }
    SplitJoin(parts, sep);
  }

  /** Without separators, the only segment is the whole string. */
  lemma SegmentsWithoutSeparator(s: string, sep: char, x: string)
    requires sep !in s
    ensures IsSegment(s, sep, x) <==> x == s
  {
    if IsSegment(s, sep, x) {
      var a, b :| SegmentAt(s, sep, x, a, b);
      assert forall k :: 0 <= k < |s| ==> s[k] != sep;
    }
    assert SegmentAt(s, sep, s, 0, |s|);
  }

  /** A segment spanning `s[a..b]`, the witnesses of `IsSegment` made explicit. */
  ghost predicate SegmentAt(s: string, sep: char, x: string, a: int, b: int)
  {
    0 <= a <= b <= |s| && s[a..b] == x
    && (a == 0 || s[a - 1] == sep) && (b == |s| || s[b] == sep) && sep !in x
  }

  lemma SegmentLift(s: string, sep: char, x: string, a: int, b: int)
    requires IndexOf(s, sep) < |s|
    requires SegmentAt(s[IndexOf(s, sep) + 1..], sep, x, a, b)
    ensures SegmentAt(s, sep, x, a + IndexOf(s, sep) + 1, b + IndexOf(s, sep) + 1)
  {
    var i := IndexOf(s, sep);
    assert s[a + i + 1..b + i + 1] == s[i + 1..][a..b];
  }

  lemma SegmentLower(s: string, sep: char, x: string, a: int, b: int)
    requires IndexOf(s, sep) < |s|
    requires SegmentAt(s, sep, x, a, b)
    ensures var i := IndexOf(s, sep);
      if a == 0 then x == s[..i] else SegmentAt(s[i + 1..], sep, x, a - i - 1, b - i - 1)
  {
    var i := IndexOf(s, sep);
    if a == 0 {
      assert forall k :: 0 <= k < b ==> x[k] == s[k];
      assert b == i;
    } else {
      assert a - 1 >= i;
      assert s[i + 1..][a - i - 1..b - i - 1] == s[a..b];
    }
  }

  /** A segment after the first separator is a segment of the rest. */
  lemma SegmentsAfterFirst(s: string, sep: char, x: string)
    requires IndexOf(s, sep) < |s|
    ensures var i := IndexOf(s, sep);
      IsSegment(s, sep, x) <==> x == s[..i] || IsSegment(s[i + 1..], sep, x)
  {
    var i := IndexOf(s, sep);
    var rest := s[i + 1..];
    if x == s[..i] {
      assert SegmentAt(s, sep, x, 0, i);
    }
    if IsSegment(rest, sep, x) {
      var a, b :| SegmentAt(rest, sep, x, a, b);
      SegmentLift(s, sep, x, a, b);
    }
    if IsSegment(s, sep, x) {
      var a, b :| SegmentAt(s, sep, x, a, b);
      SegmentLower(s, sep, x, a, b);
    }
  }

  /** The pieces of a split are exactly the segments of the string. */
  lemma {:induction false} SplitSegments(s: string, sep: char, x: string)
    ensures x in Split(s, sep) <==> IsSegment(s, sep, x)
    decreases |s|
  {
    var i := IndexOf(s, sep);
    if i == |s| {
      assert s[..i] == s;
      SegmentsWithoutSeparator(s, sep, x);
    } else {
      SplitSegments(s[i + 1..], sep, x);
      SegmentsAfterFirst(s, sep, x);
    }
  }

  /**
    Where piece `i` starts in `Join(parts, sep)`: after every earlier piece and
    the separator that follows it.
   */
  function Offset(parts: seq<string>, i: nat): nat
    requires i <= |parts|
  {
    if i == 0 then 0 else Offset(parts, i - 1) + |parts[i - 1]| + 1
  }

  lemma {:induction false} OffsetTail(parts: seq<string>, i: nat)
    requires 1 <= i <= |parts|
    ensures Offset(parts, i) == |parts[0]| + 1 + Offset(parts[1..], i - 1)
  {
    if i > 1 {
      OffsetTail(parts, i - 1);
    }
  }

  /**
    `piece` stands verbatim in `s` from position `at`; when `more` holds, a
    separator follows it.
   */
  ghost predicate PieceAt(s: string, at: int, piece: string, sep: char, more: bool)
  {
    && 0 <= at && at + |piece| <= |s|
    && s[at..at + |piece|] == piece
    && (more ==> at + |piece| < |s| && s[at + |piece|] == sep)
  }

  /** A piece keeps its place, shifted, when text is put around it. */
  lemma PieceInContext(pre: string, s: string, post: string, at: int, piece: string, sep: char, more: bool,
                       out: string, shifted: int)
    requires PieceAt(s, at, piece, sep, more)
    requires out == pre + s + post && shifted == |pre| + at
    ensures PieceAt(out, shifted, piece, sep, more)
  {
    assert forall k :: 0 <= k < |s| ==> out[|pre| + k] == s[k];
    assert out[|pre| + at..|pre| + at + |piece|] == s[at..at + |piece|];
  }

  /**
    Piece `i` stands verbatim in the join at its offset, and a separator
    follows it unless it is the last piece.
   */
  lemma {:induction false} JoinSlice(parts: seq<string>, sep: char, i: nat)
    requires i < |parts|
    ensures PieceAt(Join(parts, sep), Offset(parts, i), parts[i], sep, i + 1 < |parts|)
    decreases |parts|
  {
    var j := Join(parts, sep);
    if |parts| == 1 {
      assert j[0..|parts[0]|] == parts[0];
    } else if i == 0 {
      assert j == parts[0] + [sep] + Join(parts[1..], sep);
      assert j[0..|parts[0]|] == parts[0];
    } else {
      var tail := Join(parts[1..], sep);
      assert j == parts[0] + [sep] + tail + "";
      assert |parts[0] + [sep]| == |parts[0]| + 1;
      OffsetTail(parts, i);
      JoinSlice(parts[1..], sep, i - 1);
      assert parts[1..][i - 1] == parts[i];
      PieceInContext(parts[0] + [sep], tail, "", Offset(parts[1..], i - 1), parts[i], sep, i + 1 < |parts|,
                     j, Offset(parts, i));
    }
  }

  /**
    The piece `i` of a join keeps its place, shifted, inside `out`, the join
    with text put around it.
   */
  lemma JoinInContext(pre: string, parts: seq<string>, sep: char, post: string, i: nat,
                      out: string, shifted: int)
    requires i < |parts|
    requires out == pre + Join(parts, sep) + post && shifted == |pre| + Offset(parts, i)
    ensures PieceAt(out, shifted, parts[i], sep, i + 1 < |parts|)
  {
    JoinSlice(parts, sep, i);
    PieceInContext(pre, Join(parts, sep), post, Offset(parts, i), parts[i], sep, i + 1 < |parts|, out, shifted);
  }

  /** Two pieces are joined by one separator. */
  lemma JoinTwo(x: string, y: string, sep: char)
    ensures Join([x, y], sep) == x + [sep] + y
  {
    assert [x, y][1..] == [y];
  }
}
