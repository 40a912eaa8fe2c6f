/** The Fisher-Yates shuffle the sources run on a copy of an array. The
    random index is a nondeterministic choice, so whatever the method is
    proved to return holds for every outcome of `Math.random`. */
module Shuffling {

  /** Walks `i` from the last index down to 1 and swaps cell `i` with a
      cell `j` picked in `[0, i]`. The input sequence is a value, so the
      caller's array is left as it was, and the result is a permutation. */
  method Shuffle<T>(s: seq<T>) returns (r: seq<T>)
    ensures |r| == |s|
    ensures multiset(r) == multiset(s)
  {
    var a := new T[|s|](k requires 0 <= k < |s| => s[k]);
    assert a[..] == s;
    var i := a.Length - 1;
    while i > 0
      invariant -1 <= i < a.Length
      invariant multiset(a[..]) == multiset(s)
    {
      var j :| 0 <= j <= i;
      ghost var before := a[..];
      a[i], a[j] := a[j], a[i];
      assert a[..] == before[i := before[j]][j := before[i]];
      i := i - 1;
    }
    r := a[..];
  }
}
