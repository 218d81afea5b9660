/** Searching a string: `str.find`, `str.rfind`, and the length of the
    longest prefix whose characters all have a property. The birth-date
    split, the email checker and the proofs about ids share them. */
module Text {

  /** `s.find(c, from)`, with `|s|` where Python gives -1. */
  function Find(s: string, c: char, from: nat): (r: nat)
    requires from <= |s|
    ensures from <= r <= |s|
    ensures r < |s| ==> s[r] == c
    ensures forall k :: from <= k < r ==> s[k] != c
    decreases |s| - from
  {
    if from == |s| || s[from] == c then from else Find(s, c, from + 1)
  }

  /** `s.rfind(c)`: the index of the last `c` in `s`, or -1. */
  function RFind(s: string, c: char): (r: int)
    ensures -1 <= r < |s|
    ensures r >= 0 ==> s[r] == c
    ensures forall k :: r < k < |s| ==> s[k] != c
    decreases |s|
  {
    if s == [] then -1
    else if s[|s| - 1] == c then |s| - 1
    else RFind(s[..|s| - 1], c)
  }

  /** The index of the first character of `s` without property `P`, or `|s|`. */
  function Span(P: char -> bool, s: string): (k: nat)
    ensures k <= |s|
    ensures forall i :: 0 <= i < k ==> P(s[i])
    ensures k < |s| ==> !P(s[k])
    decreases |s|
  {
    if s == [] || !P(s[0]) then 0 else 1 + Span(P, s[1..])
  }

  /** A run of characters with `P`, then one without it (or nothing): the span
      is the run. */
  lemma {:induction false} SpanConcat(P: char -> bool, a: string, b: string)
    requires forall i :: 0 <= i < |a| ==> P(a[i])
    requires b == [] || !P(b[0])
    ensures Span(P, a + b) == |a|
    decreases |a|
  {
    if a == [] {
      assert a + b == b;
    } else {
      assert (a + b)[0] == a[0];
      assert (a + b)[1..] == a[1..] + b;
      SpanConcat(P, a[1..], b);
    }
  }
}
