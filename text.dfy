/** String helpers shared by the model: `"".join(...)`, `str.startswith`
    and the substring test `sub in s`, as Python defines them. */
module Text {

  /** `"".join(parts)`: the parts, one after the other. */
  function Concat(parts: seq<string>): (r: string)
    ensures parts == [] ==> r == ""
  {
    if parts == [] then "" else parts[0] + Concat(parts[1..])
  }

  /** Joining is a monoid homomorphism: joining two lists of parts is
      joining each and putting the results side by side. */
  lemma {:induction false} ConcatAppend(a: seq<string>, b: seq<string>)
    ensures Concat(a + b) == Concat(a) + Concat(b)
  {
    if a == [] {
      assert a + b == b;
    } else {
      assert (a + b)[1..] == a[1..] + b;
      ConcatAppend(a[1..], b);
    }
  }

  /** Concatenation of strings is associative. */
  lemma Assoc(a: string, b: string, c: string)
    ensures (a + b) + c == a + (b + c)
  {
  }

  /** A string is its prefix followed by the matching suffix. */
  lemma Recombine(s: string, n: nat)
    requires n <= |s|
    ensures s[..n] + s[n..] == s
  {
  }

  /** Joining a first part onto the rest. */
  lemma ConcatCons(first: string, others: seq<string>)
    ensures Concat([first] + others) == first + Concat(others)
  {
    assert ([first] + others)[1..] == others;
  }

  /** Joining one more part onto a prefix of the parts. */
  lemma ConcatPrefix(parts: seq<string>, j: nat)
    requires j < |parts|
    ensures Concat(parts[..j + 1]) == Concat(parts[..j]) + parts[j]
  {
    assert parts[..j + 1] == parts[..j] + [parts[j]];
    ConcatAppend(parts[..j], [parts[j]]);
    assert Concat([parts[j]]) == parts[j];
  }

  /** `s.startswith(prefix)`: `s` is at least as long as `prefix` and
      agrees with it character by character. */
  predicate StartsWith(s: string, prefix: string)
    ensures StartsWith(s, prefix) <==>
      |prefix| <= |s| && forall i :: 0 <= i < |prefix| ==> s[i] == prefix[i]
  {
    |prefix| <= |s| && s[..|prefix|] == prefix
  }

  /** `sub` occurs in `s` starting at index `i`. */
  predicate OccursAt(s: string, sub: string, i: int) {
    0 <= i && i + |sub| <= |s| && s[i..i + |sub|] == sub
  }

  /** `sub in s`: only a string at least as long as `sub` can contain it,
      the empty string is in every string, and a prefix is contained. */
  predicate Contains(s: string, sub: string)
    ensures Contains(s, sub) ==> |sub| <= |s|
    ensures sub == [] ==> Contains(s, sub)
    ensures StartsWith(s, sub) ==> Contains(s, sub)
  {
    assert StartsWith(s, sub) ==> OccursAt(s, sub, 0);
    exists i :: 0 <= i <= |s| - |sub| && OccursAt(s, sub, i)
  }

  /** If some character of `sub` never appears in `s`, then `sub` does
      not occur in `s`. */
  lemma MissingCharNotContained(s: string, sub: string, j: nat)
    requires j < |sub| && sub[j] !in s
    ensures !Contains(s, sub)
  {
  }
}
