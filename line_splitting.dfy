/** Python's `str.splitlines(keepends=True)`, which the detector applies to
    every chunk it reads from the silence detector's error stream. */
module LineSplitting {
  import opened Text

  /** The characters at which `str.splitlines` ends a line: line feed,
      carriage return, vertical tab, form feed, the file, group and record
      separators, next line, line separator and paragraph separator. */
  predicate IsLineBoundary(c: char) {
    c == '\n' || c == '\r' || c == '\U{b}' || c == '\U{c}'
    || c == '\U{1c}' || c == '\U{1d}' || c == '\U{1e}'
    || c == '\U{85}' || c == '\U{2028}' || c == '\U{2029}'
  }

  /** The index of the first boundary character of `s`, or `|s|`. */
  function FirstBoundary(s: string): (k: nat)
    ensures k <= |s|
    ensures k < |s| ==> IsLineBoundary(s[k])
    ensures forall j :: 0 <= j < k ==> !IsLineBoundary(s[j])
  {
    if s == [] then 0
    else if IsLineBoundary(s[0]) then 0
    else 1 + FirstBoundary(s[1..])
  }

  /** One piece as `splitlines` cuts it: not empty, and no boundary before
      its last character except the carriage return of a closing "\r\n". */
  predicate IsPiece(p: string) {
    && p != []
    && forall j :: 0 <= j < |p| - 1 ==>
         !IsLineBoundary(p[j]) || (j == |p| - 2 && p[j] == '\r' && p[|p| - 1] == '\n')
  }

  /** The last character of a non-empty string. */
  function Last(s: string): char
    requires s != []
  {
    s[|s| - 1]
  }

  /** The length of the first piece of a non-empty string: up to and
      including its first boundary, "\r\n" counting as one boundary. */
  function PieceLength(s: string): (n: nat)
    requires s != []
    ensures 0 < n <= |s|
    ensures IsPiece(s[..n])
    ensures n < |s| ==> IsLineBoundary(s[n - 1]) && !(s[n - 1] == '\r' && s[n] == '\n')
  {
    var k := FirstBoundary(s);
    if k == |s| then k
    else if s[k] == '\r' && k + 1 < |s| && s[k + 1] == '\n' then k + 2
    else k + 1
  }

  /** `s.splitlines(keepends=True)`: the pieces give back `s` when joined,
      each is a piece, each but the last ends at a boundary, and a "\r\n"
      pair is never cut in two. */
  function SplitLines(s: string): (pieces: seq<string>)
    ensures Concat(pieces) == s
    ensures forall k :: 0 <= k < |pieces| ==> |pieces[k]| > 0
    ensures forall k :: 0 <= k < |pieces| ==> IsPiece(pieces[k])
    ensures forall k :: 0 <= k < |pieces| - 1 ==> IsLineBoundary(Last(pieces[k]))
    ensures forall k :: 0 <= k < |pieces| - 1 ==> !(Last(pieces[k]) == '\r' && pieces[k + 1][0] == '\n')
    decreases |s|
  {
    if s == [] then []
    else
      var n := PieceLength(s);
      assert s == s[..n] + s[n..];
      [s[..n]] + SplitLines(s[n..])
  }

  /** Within a piece, a line feed can only be the last character. */
  lemma PieceNewlineAtEnd(p: string, j: nat)
    requires IsPiece(p) && j < |p| - 1
    ensures p[j] != '\n'
  {
  }

  /** Different boundaries give pieces of their own; an empty string gives
      no piece at all. */
  lemma SplitLinesExamples()
    ensures SplitLines("") == []
    ensures SplitLines("a\r\nb") == ["a\r\n", "b"]
  {
    var s := "a\r\nb";
    assert FirstBoundary(s[1..]) == 0;
    assert PieceLength(s) == 3;
    assert s[..3] == "a\r\n" && s[3..] == "b";
    assert FirstBoundary("b"[1..]) == 0;
    assert PieceLength("b") == 1;
    assert SplitLines("b") == ["b"] by {
      assert "b"[..1] == "b" && "b"[1..] == "";
    }
  }
}
