/** The reference meaning of the detector's line reassembly: a text stream
    read as its '\n'-terminated lines followed by an unterminated rest. */
module LineReassembly {
  import opened Text

  /** The index of the first '\n' of `s`, or `|s|`. */
  function FirstNewline(s: string): (k: nat)
    ensures k <= |s|
    ensures k < |s| ==> s[k] == '\n'
    ensures forall j :: 0 <= j < k ==> s[j] != '\n'
  {
    if s == [] then 0
    else if s[0] == '\n' then 0
    else 1 + FirstNewline(s[1..])
  }

  /** A completed line: it ends with '\n' and has no other '\n'. */
  predicate IsLine(l: string) {
    |l| > 0 && l[|l| - 1] == '\n' && forall j :: 0 <= j < |l| - 1 ==> l[j] != '\n'
  }

  /** Every element is a completed line. */
  predicate AreLines(lines: seq<string>) {
    forall k :: 0 <= k < |lines| ==> IsLine(lines[k])
  }

  /** The completed lines of a stream, in order. */
  /** A stream has completed lines exactly when it holds a '\n', and
      never more lines than characters. */
  function Lines(s: string): (lines: seq<string>)
    ensures lines != [] <==> '\n' in s
    ensures |lines| <= |s|
    decreases |s|
  {
    var k := FirstNewline(s);
    if k == |s| then [] else [s[..k + 1]] + Lines(s[k + 1..])
  }

  /** There are as many completed lines as there are '\n' in the stream. */
  lemma {:induction false} LineCount(s: string)
    ensures |Lines(s)| == multiset(s)['\n']
    decreases |s|
  {
    var k := FirstNewline(s);
    NoNewlineCount(s, k);
    if k < |s| {
      LineCount(s[k + 1..]);
      CountAtFirstNewline(s, k);
    } else {
      assert s[..k] == s;
    }
  }

  /** Cutting after a first '\n' removes exactly one '\n' from the count. */
  lemma CountAtFirstNewline(s: string, k: nat)
    requires k < |s| && s[k] == '\n'
    requires multiset(s[..k])['\n'] == 0
    ensures multiset(s)['\n'] == 1 + multiset(s[k + 1..])['\n']
  {
    assert s == s[..k] + [s[k]] + s[k + 1..];
    NewlineCountAppend(s[..k], [s[k]]);
    NewlineCountAppend(s[..k] + [s[k]], s[k + 1..]);
  }

  /** Counting '\n' is additive over concatenation. */
  lemma NewlineCountAppend(a: string, b: string)
    ensures multiset(a + b)['\n'] == multiset(a)['\n'] + multiset(b)['\n']
  {
  }

  /** A prefix without '\n' counts no '\n'. */
  lemma {:induction false} NoNewlineCount(s: string, k: nat)
    requires k <= |s|
    requires forall j :: 0 <= j < k ==> s[j] != '\n'
    ensures multiset(s[..k])['\n'] == 0
  {
    if k > 0 {
      NoNewlineCount(s, k - 1);
      assert s[..k] == s[..k - 1] + [s[k - 1]];
    }
  }

  /** What follows the last '\n' of a stream: the partial line. */
  function Rest(s: string): (r: string)
    ensures '\n' !in r
    decreases |s|
  {
    var k := FirstNewline(s);
    if k == |s| then s else Rest(s[k + 1..])
  }

  /** Every completed line ends with its only '\n'. */
  lemma {:induction false} LinesAreLines(s: string)
    ensures AreLines(Lines(s))
    decreases |s|
  {
    var k := FirstNewline(s);
    if k < |s| {
      LinesAreLines(s[k + 1..]);
      assert IsLine(s[..k + 1]);
    }
  }

  /** Nothing is lost or reordered: the lines, then the rest, are the stream. */
  lemma {:induction false} NothingLost(s: string)
    ensures Concat(Lines(s)) + Rest(s) == s
    decreases |s|
  {
    var k := FirstNewline(s);
    if k < |s| {
      var line, tail := s[..k + 1], s[k + 1..];
      NothingLost(tail);
      ConcatCons(line, Lines(tail));
      Assoc(line, Concat(Lines(tail)), Rest(tail));
      Recombine(s, k + 1);
    }
  }

  /** Conversely, any cut of a stream into completed lines and a rest
      without '\n' is the one `Lines` and `Rest` give. */
  lemma {:induction false} Unique(lines: seq<string>, rest: string, s: string)
    requires AreLines(lines)
    requires '\n' !in rest
    requires Concat(lines) + rest == s
    ensures lines == Lines(s) && rest == Rest(s)
    decreases |lines|
  {
    if lines == [] {
      assert rest == s;
      assert forall j :: 0 <= j < |s| ==> s[j] != '\n';
      assert FirstNewline(s) == |s|;
    } else {
      var l, others := lines[0], lines[1..];
      var tail := Concat(others) + rest;
      assert lines == [l] + others;
      ConcatCons(l, others);
      Assoc(l, Concat(others), rest);
      assert s == l + tail;
      assert FirstNewline(s) == |l| - 1 by {
        assert forall j :: 0 <= j < |l| ==> s[j] == l[j];
      }
      assert s[..|l|] == l && s[|l|..] == tail;
      Unique(others, rest, tail);
    }
  }

  /** Two runs of completed lines, one after the other, are completed lines. */
  lemma AreLinesAppend(a: seq<string>, b: seq<string>)
    requires AreLines(a) && AreLines(b)
    ensures AreLines(a + b)
  {
    forall k | 0 <= k < |a + b| ensures IsLine((a + b)[k]) {
      if k < |a| { assert (a + b)[k] == a[k]; } else { assert (a + b)[k] == b[k - |a|]; }
    }
  }

  /** Reading a stream in two parts: the lines of the first part, then the
      lines of its rest followed by the second part. */
  lemma Append(s: string, t: string)
    ensures Lines(s + t) == Lines(s) + Lines(Rest(s) + t)
    ensures Rest(s + t) == Rest(Rest(s) + t)
  {
    var r := Rest(s);
    var a, b, r' := Lines(s), Lines(r + t), Rest(r + t);
    LinesAreLines(s);
    LinesAreLines(r + t);
    AreLinesAppend(a, b);
    NothingLost(s);
    NothingLost(r + t);
    ConcatAppend(a, b);
    Assoc(Concat(a), Concat(b), r');
    Assoc(Concat(a), r, t);
    Unique(a + b, r', s + t);
  }

  /** A partial line followed by one more piece that has a '\n' at most at
      its end: either that piece completes exactly one line, or it only
      extends the partial line. */
  lemma {:induction false} ExtendPartial(pending: string, p: string)
    requires '\n' !in pending
    requires forall j :: 0 <= j < |p| - 1 ==> p[j] != '\n'
    ensures p != [] && p[|p| - 1] == '\n' ==> Lines(pending + p) == [pending + p] && Rest(pending + p) == ""
    ensures !(p != [] && p[|p| - 1] == '\n') ==> Lines(pending + p) == [] && Rest(pending + p) == pending + p
  {
    var q := pending + p;
    if p != [] && p[|p| - 1] == '\n' {
      assert IsLine(q) by {
        forall j | 0 <= j < |q| - 1 ensures q[j] != '\n' {
          if j < |pending| {
            assert q[j] == pending[j];
          } else {
            assert q[j] == p[j - |pending|];
          }
        }
      }
      assert Concat([q]) == q;
      Unique([q], "", q);
    } else {
      assert '\n' !in q by {
        forall j | 0 <= j < |q| ensures q[j] != '\n' {
          if j < |pending| {
            assert q[j] == pending[j];
          } else {
            assert q[j] == p[j - |pending|];
          }
        }
      }
      Unique([], q, q);
    }
  }

  /** Text without '\n' added at the end of a stream completes no line. */
  lemma PartialTailCompletesNothing(s: string, t: string)
    requires '\n' !in t
    ensures Lines(s + t) == Lines(s)
    ensures Rest(s + t) == Rest(s) + t
  {
    Append(s, t);
    ExtendPartial(Rest(s), t);
  }

  /** The lines of a stream made of two completed lines. */
  lemma TwoLines(a: string, b: string)
    requires IsLine(a) && IsLine(b)
    ensures Lines(a + b) == [a, b] && Rest(a + b) == ""
  {
    ConcatCons(a, [b]);
    assert Concat([b]) == b;
    assert [a] + [b] == [a, b];
    assert a + b + "" == a + b;
    Unique([a, b], "", a + b);
  }

  /** The same stream cut three ways gives the same two lines. */
  lemma RechunkingExample()
    ensures Concat(["A\nB\n"]) == Concat(["A\n", "B\n"]) == Concat(["A", "\nB\n"]) == "A\nB\n"
    ensures Lines("A\nB\n") == ["A\n", "B\n"] && Rest("A\nB\n") == ""
  {
    assert IsLine("A\n") && IsLine("B\n");
    assert "A\n" + "B\n" == "A\nB\n";
    TwoLines("A\n", "B\n");
    ConcatCons("A\n", ["B\n"]);
    ConcatCons("A", ["\nB\n"]);
  }
}
