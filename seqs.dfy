/** Sequence operations that the JavaScript sources express with `filter`,
    `slice`, `new Set(...)` / `Array.from` and "skip it if already seen" loops. */
module Seqs {

  /** A value that may be absent (`undefined`/`null`, or a storage slot that
      is empty or does not parse). */
  datatype Option<T> = None | Some(value: T)

  /** No element occurs twice. */
  ghost predicate NoDup<T>(s: seq<T>)
  {
    forall i, j :: 0 <= i < j < |s| ==> s[i] != s[j]
  }

  /** `p` is a prefix of `s`. */
  ghost predicate IsPrefix<T>(p: seq<T>, s: seq<T>)
  {
    |p| <= |s| && s[..|p|] == p
  }

  function Id<T>(x: T): T { x }

  /** Index of the first occurrence of `x` in `s` (JavaScript `indexOf`). */
  function IndexOf<T(==)>(s: seq<T>, x: T): (k: nat)
    requires x in s
    ensures k < |s| && s[k] == x
    ensures forall i :: 0 <= i < k ==> s[i] != x
  {
    if s[0] == x then 0 else 1 + IndexOf(s[1..], x)
  }

  /** The key of every element, in order. */
  function KeysOf<T, K>(s: seq<T>, key: T -> K): (r: seq<K>)
    ensures |r| == |s|
    ensures forall i :: 0 <= i < |s| ==> r[i] == key(s[i])
  {
    seq(|s|, i requires 0 <= i < |s| => key(s[i]))
  }

  /** Keeps the first element of every key, in first-seen order: the loop
      "if seen.has(key(x)) skip, else seen.add(key(x)) and push x". */
  function DedupeBy<T, K(==)>(s: seq<T>, key: T -> K): (r: seq<T>)
    ensures |r| <= |s|
    ensures s != [] ==> r != []
  {
    if s == [] then []
    else
      var d := DedupeBy(s[..|s| - 1], key);
      var x := s[|s| - 1];
      if key(x) in KeysOf(d, key) then d else d + [x]
  }

  /** No two kept elements share a key, every kept element comes from `s`,
      and every key of `s` is kept. */
  lemma {:induction false} DedupeByFacts<T, K>(s: seq<T>, key: T -> K)
    ensures NoDup(KeysOf(DedupeBy(s, key), key))
    ensures forall i :: 0 <= i < |DedupeBy(s, key)| ==> DedupeBy(s, key)[i] in s
    ensures forall i :: 0 <= i < |s| ==> key(s[i]) in KeysOf(DedupeBy(s, key), key)
    decreases |s|
  {
    if s != [] {
      var p := s[..|s| - 1];
      var x := s[|s| - 1];
      DedupeByFacts(p, key);
      var d := DedupeBy(p, key);
      assert forall i :: 0 <= i < |s| - 1 ==> s[i] == p[i];
      if key(x) !in KeysOf(d, key) {
        assert KeysOf(d + [x], key) == KeysOf(d, key) + [key(x)];
      }
    }
  }

  /** `Array.from(new Set(s))`: distinct elements in first-occurrence order. */
  function Dedupe<T(==)>(s: seq<T>): (r: seq<T>)
    ensures NoDup(r)
    ensures forall i :: 0 <= i < |r| ==> r[i] in s
    ensures forall i :: 0 <= i < |s| ==> s[i] in r
    ensures |r| <= |s|
    ensures s != [] ==> r != []
  {
    var r := DedupeBy(s, Id);
    DedupeByFacts(s, Id);
    assert forall i :: 0 <= i < |r| ==> KeysOf(r, Id)[i] == r[i];
    assert KeysOf(r, Id) == r;
    forall i | 0 <= i < |s| ensures s[i] in r {
      assert Id(s[i]) in KeysOf(r, Id);
    }
    r
  }

  lemma {:induction false} DedupeBySnoc<T, K>(s: seq<T>, x: T, key: T -> K)
    ensures DedupeBy(s + [x], key) ==
            if key(x) in KeysOf(DedupeBy(s, key), key) then DedupeBy(s, key)
            else DedupeBy(s, key) + [x]
  {
    assert (s + [x])[..|s + [x]| - 1] == s;
  }

  lemma DedupeByStep<T, K>(before: seq<T>, s: seq<T>, i: nat, key: T -> K)
    requires i < |s|
    ensures DedupeBy(before + s[..i + 1], key) ==
            if key(s[i]) in KeysOf(DedupeBy(before + s[..i], key), key) then DedupeBy(before + s[..i], key)
            else DedupeBy(before + s[..i], key) + [s[i]]
  {
    assert before + s[..i + 1] == (before + s[..i]) + [s[i]];
    DedupeBySnoc(before + s[..i], s[i], key);
  }

  /** Deduplicating `a + b` keeps the deduplication of `a` in front: earlier
      sources win over later ones. */
  lemma {:induction false} DedupeByPrefix<T, K>(a: seq<T>, b: seq<T>, key: T -> K)
    ensures IsPrefix(DedupeBy(a, key), DedupeBy(a + b, key))
    decreases |b|
  {
    if b == [] {
      assert a + b == a;
    } else {
      var b' := b[..|b| - 1];
      var x := b[|b| - 1];
      assert a + b == (a + b') + [x];
      DedupeByPrefix(a, b', key);
      DedupeBySnoc(a + b', x, key);
    }
  }

  lemma {:induction false} DedupePrefix<T>(a: seq<T>, b: seq<T>)
    ensures IsPrefix(Dedupe(a), Dedupe(a + b))
  {
    DedupeByPrefix(a, b, Id);
  }

  lemma {:induction false} DedupeSnoc<T>(s: seq<T>, x: T)
    ensures Dedupe(s + [x]) == if x in s then Dedupe(s) else Dedupe(s) + [x]
  {
    DedupeBySnoc(s, x, Id);
    var d := DedupeBy(s, Id);
    assert forall i :: 0 <= i < |d| ==> KeysOf(d, Id)[i] == d[i];
    assert KeysOf(d, Id) == d;
  }

  /** Elements of `Dedupe(s)` appear in the order of their first occurrence in `s`. */
  lemma {:induction false} DedupeFirstSeenOrder<T>(s: seq<T>)
    ensures forall i, j :: 0 <= i < j < |Dedupe(s)| ==>
              IndexOf(s, Dedupe(s)[i]) < IndexOf(s, Dedupe(s)[j])
    decreases |s|
  {
    if s != [] {
      var p := s[..|s| - 1];
      var x := s[|s| - 1];
      assert s == p + [x];
      DedupeFirstSeenOrder(p);
      DedupeSnoc(p, x);
      forall i, j | 0 <= i < j < |Dedupe(s)| ensures IndexOf(s, Dedupe(s)[i]) < IndexOf(s, Dedupe(s)[j]) {
        DedupeOrderSnoc(p, x, i, j);
      }
    }
  }

  /** One step of `DedupeFirstSeenOrder`: a pair in the dedupe of `p + [x]`,
      given the order of the pairs in the dedupe of `p`. */
  lemma DedupeOrderSnoc<T>(p: seq<T>, x: T, i: int, j: int)
    requires 0 <= i < j < |Dedupe(p + [x])|
    requires Dedupe(p + [x]) == if x in p then Dedupe(p) else Dedupe(p) + [x]
    requires j < |Dedupe(p)| ==> IndexOf(p, Dedupe(p)[i]) < IndexOf(p, Dedupe(p)[j])
    ensures IndexOf(p + [x], Dedupe(p + [x])[i]) < IndexOf(p + [x], Dedupe(p + [x])[j])
  {
    var dp := Dedupe(p);
    var d := Dedupe(p + [x]);
    assert d[i] == dp[i] && d[i] in p;
    IndexOfAppend(p, [x], d[i]);
    if j < |dp| {
      assert d[j] == dp[j] && d[j] in p;
      IndexOfAppend(p, [x], d[j]);
    } else {
      IndexOfAppendLater(p, x);
    }
  }

  lemma {:induction false} IndexOfAppend<T>(a: seq<T>, b: seq<T>, x: T)
    requires x in a
    ensures IndexOf(a + b, x) == IndexOf(a, x)
  {
    if a[0] != x {
      assert (a + b)[1..] == a[1..] + b;
      IndexOfAppend(a[1..], b, x);
    }
  }

  lemma IndexOfAppendLater<T>(a: seq<T>, x: T)
    requires x !in a
    ensures IndexOf(a + [x], x) == |a|
  {
    assert forall i :: 0 <= i < |a| ==> (a + [x])[i] == a[i];
  }

  /** `s.filter(p)`. */
  function Filter<T>(s: seq<T>, p: T -> bool): (r: seq<T>)
    ensures |r| <= |s|
    ensures forall i :: 0 <= i < |r| ==> r[i] in s && p(r[i])
    ensures forall i :: 0 <= i < |s| && p(s[i]) ==> s[i] in r
  {
    if s == [] then []
    else (if p(s[0]) then [s[0]] else []) + Filter(s[1..], p)
  }

  /** Every element of `r` occurs in `s`, and `r` lists them in the order of
      their first occurrence in `s` (so no element of `r` repeats). */
  ghost predicate InOrderOf<T>(r: seq<T>, s: seq<T>)
  {
    && (forall i :: 0 <= i < |r| ==> r[i] in s)
    && (forall i, j :: 0 <= i < j < |r| ==> IndexOf(s, r[i]) < IndexOf(s, r[j]))
  }

  /** A sequence in the order of `s` has no repeated element. */
  lemma InOrderNoDup<T>(r: seq<T>, s: seq<T>)
    requires InOrderOf(r, s)
    ensures NoDup(r)
  {
  }

  /** In a sequence without repetitions, an element's first index is its index. */
  lemma IndexOfNoDup<T>(s: seq<T>, i: int)
    requires NoDup(s) && 0 <= i < |s|
    ensures IndexOf(s, s[i]) == i
  {
  }

  /** A prefix of a sequence without repetitions is in its order. */
  lemma PrefixInOrder<T>(s: seq<T>, k: int)
    requires NoDup(s) && 0 <= k <= |s|
    ensures InOrderOf(s[..k], s)
  {
    forall i | 0 <= i < k ensures IndexOf(s, s[..k][i]) == i {
      IndexOfNoDup(s, i);
    }
  }

  /** A prefix of a sequence in the order of `s` is in that order too. */
  lemma InOrderPrefix<T>(r: seq<T>, k: int, s: seq<T>)
    requires InOrderOf(r, s) && 0 <= k <= |r|
    ensures InOrderOf(r[..k], s)
  {
    assert forall i :: 0 <= i < k ==> r[..k][i] == r[i];
  }

  lemma IndexOfCons<T>(x: T, t: seq<T>, y: T)
    requires y in t && y != x
    ensures IndexOf([x] + t, y) == 1 + IndexOf(t, y)
  {
    assert ([x] + t)[1..] == t;
  }

  /** Putting a new element in front of `t` keeps every sequence in the
      order of `t` in order, with or without that element in front. */
  lemma InOrderCons<T>(x: T, r: seq<T>, t: seq<T>)
    requires x !in t && InOrderOf(r, t)
    ensures InOrderOf(r, [x] + t) && InOrderOf([x] + r, [x] + t)
  {
    InOrderShift(x, r, t);
    InOrderFront(x, r, t);
  }

  lemma InOrderShift<T>(x: T, r: seq<T>, t: seq<T>)
    requires x !in t && InOrderOf(r, t)
    ensures InOrderOf(r, [x] + t)
  {
    forall i, j | 0 <= i < j < |r| ensures IndexOf([x] + t, r[i]) < IndexOf([x] + t, r[j]) {
      IndexOfCons(x, t, r[i]);
      IndexOfCons(x, t, r[j]);
    }
  }

  lemma InOrderFront<T>(x: T, r: seq<T>, t: seq<T>)
    requires x !in t && InOrderOf(r, [x] + t)
    requires forall i :: 0 <= i < |r| ==> r[i] in t
    ensures InOrderOf([x] + r, [x] + t)
  {
    var s, xr := [x] + t, [x] + r;
    forall i, j | 0 <= i < j < |xr| ensures IndexOf(s, xr[i]) < IndexOf(s, xr[j]) {
      assert xr[j] == r[j - 1];
      if i == 0 {
        IndexOfCons(x, t, xr[j]);
      } else {
        assert xr[i] == r[i - 1];
      }
    }
  }

  /** `filter` keeps the relative order of a sequence without repetitions. */
  lemma {:induction false} FilterInOrder<T>(s: seq<T>, p: T -> bool)
    requires NoDup(s)
    ensures InOrderOf(Filter(s, p), s)
    decreases |s|
  {
    if s != [] {
      var t := s[1..];
      assert forall i :: 0 <= i < |t| ==> t[i] == s[i + 1];
      FilterInOrder(t, p);
      assert s == [s[0]] + t;
      InOrderCons(s[0], Filter(t, p), t);
    }
  }

  lemma {:induction false} FilterConcat<T>(a: seq<T>, b: seq<T>, p: T -> bool)
    ensures Filter(a + b, p) == Filter(a, p) + Filter(b, p)
  {
    if a != [] {
      var h := if p(a[0]) then [a[0]] else [];
      assert (a + b)[0] == a[0] && (a + b)[1..] == a[1..] + b;
      assert Filter(a + b, p) == h + Filter(a[1..] + b, p);
      assert Filter(a, p) == h + Filter(a[1..], p);
      FilterConcat(a[1..], b, p);
    } else {
      assert a + b == b;
    }
  }

  /** One more element for `Dedupe(Filter(s, p))`: it is added when it
      passes and has not been kept before, and it was kept before exactly
      when it occurs earlier and passes. */
  lemma DedupeFilterSnoc<T>(s: seq<T>, x: T, p: T -> bool)
    ensures x in Dedupe(Filter(s, p)) <==> x in s && p(x)
    ensures Dedupe(Filter(s + [x], p)) ==
      if p(x) && x !in Dedupe(Filter(s, p)) then Dedupe(Filter(s, p)) + [x] else Dedupe(Filter(s, p))
  {
    FilterConcat(s, [x], p);
    assert Filter([x], p) == if p(x) then [x] else [];
    var f := Filter(s, p);
    assert x in f <==> x in s && p(x);
    assert x in Dedupe(f) <==> x in f;
    if p(x) {
      DedupeSnoc(f, x);
    } else {
      assert Filter(s + [x], p) == f + [] == f;
    }
  }

  /** Filtering a duplicate-free sequence leaves it duplicate-free. */
  lemma {:induction false} FilterNoDup<T>(s: seq<T>, p: T -> bool)
    requires NoDup(s)
    ensures NoDup(Filter(s, p))
  {
    if s != [] {
      FilterNoDup(s[1..], p);
    }
  }

  /** The values `f` finds in `s`, in order: a loop that pushes `f(x)`
      for every `x` where it is present. */
  function FilterMap<T, U>(s: seq<T>, f: T -> Option<U>): (r: seq<U>)
    ensures |r| <= |s|
    ensures forall k :: 0 <= k < |r| ==> exists i :: 0 <= i < |s| && f(s[i]) == Some(r[k])
  {
    if s == [] then []
    else
      var last := f(s[|s| - 1]);
      var rows := FilterMap(s[..|s| - 1], f);
      assert forall k :: 0 <= k < |rows| ==> exists i :: 0 <= i < |s| && f(s[i]) == Some(rows[k]) by {
        forall k | 0 <= k < |rows| ensures exists i :: 0 <= i < |s| && f(s[i]) == Some(rows[k]) {
          var i :| 0 <= i < |s| - 1 && f(s[..|s| - 1][i]) == Some(rows[k]);
          assert s[..|s| - 1][i] == s[i];
        }
      }
      rows + (if last.Some? then [last.value] else [])
  }

  lemma {:induction false} FilterMapConcat<T, U>(a: seq<T>, b: seq<T>, f: T -> Option<U>)
    ensures FilterMap(a + b, f) == FilterMap(a, f) + FilterMap(b, f)
    decreases |b|
  {
    if b == [] {
      assert a + b == a;
    } else {
      var b' := b[..|b| - 1];
      assert a + b == (a + b') + [b[|b| - 1]];
      assert (a + b)[..|a + b| - 1] == a + b';
      FilterMapConcat(a, b', f);
    }
  }

  /** Once a prefix of `s` yields `limit` values, the rest of `s` does not
      change the first `limit` of them. */
  lemma FilterMapLimit<T, U>(s: seq<T>, n: nat, f: T -> Option<U>, limit: nat)
    requires n <= |s| && |FilterMap(s[..n], f)| == limit
    ensures SliceTo(FilterMap(s, f), limit) == FilterMap(s[..n], f)
  {
    FilterMapConcat(s[..n], s[n..], f);
    assert s[..n] + s[n..] == s;
  }

  /** `s.slice(0, end)` with JavaScript's reading of a negative end (counted
      from the back, never below 0). */
  function SliceTo<T>(s: seq<T>, end: int): (r: seq<T>)
    ensures IsPrefix(r, s)
    ensures 0 <= end ==> |r| == if end < |s| then end else |s|
    ensures end < 0 ==> |r| == if |s| + end < 0 then 0 else |s| + end
  {
    if end >= 0 then (if end < |s| then s[..end] else s)
    else (if |s| + end < 0 then [] else s[..|s| + end])
  }

  /** A sequence is its prefix followed by the rest. */
  lemma PrefixSplit<T>(p: seq<T>, s: seq<T>)
    requires IsPrefix(p, s)
    ensures s == p + s[|p|..]
  {
  }

  /** A prefix of a duplicate-free sequence is duplicate-free. */
  lemma PrefixNoDup<T>(p: seq<T>, s: seq<T>)
    requires IsPrefix(p, s) && NoDup(s)
    ensures NoDup(p)
  {
    forall i, j | 0 <= i < j < |p| ensures p[i] != p[j] {
      assert p[i] == s[i] && p[j] == s[j];
    }
  }

  /** Number of occurrences of `x` in `s`. */
  function Count<T(==)>(s: seq<T>, x: T): (n: nat)
    ensures n <= |s|
    ensures n > 0 <==> x in s
  {
    if s == [] then 0 else (if s[0] == x then 1 else 0) + Count(s[1..], x)
  }

  lemma {:induction false} CountSnoc<T>(s: seq<T>, y: T, x: T)
    ensures Count(s + [y], x) == Count(s, x) + (if y == x then 1 else 0)
  {
    if s == [] {
      assert [y][1..] == [];
    } else {
      assert (s + [y])[1..] == s[1..] + [y];
      CountSnoc(s[1..], y, x);
    }
  }

  function Sum(s: seq<int>): int
  {
    if s == [] then 0 else s[0] + Sum(s[1..])
  }

  /** A prefix holds no more of anything than the whole sequence. */
  lemma PrefixMultiset<T>(p: seq<T>, s: seq<T>)
    requires IsPrefix(p, s)
    ensures multiset(p) <= multiset(s)
  {
    assert s == p + s[|p|..];
  }

  /** A sequence without duplicates holds each element once. */
  lemma {:induction false} NoDupMultiset<T>(s: seq<T>, x: T)
    requires NoDup(s)
    ensures multiset(s)[x] <= 1
  {
    if s != [] {
      assert s == [s[0]] + s[1..];
      assert NoDup(s[1..]) by {
        assert forall i :: 0 <= i < |s| - 1 ==> s[1..][i] == s[i + 1];
      }
      NoDupMultiset(s[1..], x);
      if s[0] == x {
        assert x !in s[1..] by {
          assert forall i :: 0 <= i < |s| - 1 ==> s[1..][i] == s[i + 1];
        }
      }
    }
  }

  /** Two positions holding the same element count twice. */
  lemma TwiceInMultiset<T>(s: seq<T>, i: int, j: int)
    requires 0 <= i < j < |s| && s[i] == s[j]
    ensures multiset(s)[s[i]] >= 2
  {
    assert s == s[..i] + [s[i]] + s[i + 1..j] + [s[j]] + s[j + 1..];
  }

  /** A permutation of a duplicate-free sequence is duplicate-free. */
  lemma PermutationNoDup<T>(s: seq<T>, r: seq<T>)
    requires NoDup(s) && multiset(r) == multiset(s)
    ensures NoDup(r)
  {
    forall i, j | 0 <= i < j < |r| ensures r[i] != r[j] {
      if r[i] == r[j] {
        TwiceInMultiset(r, i, j);
        NoDupMultiset(s, r[i]);
      }
    }
  }
  /** `seen` holds exactly the keys of the elements kept so far. */
  ghost predicate SeenKeys<T, K(!new)>(seen: set<K>, kept: seq<T>, key: T -> K)
  {
    forall x :: x in seen <==> x in KeysOf(kept, key)
  }

  /** One step of the "skip it if already seen" loop. */
  method AddNew<T, K(==,!new)>(kept: seq<T>, seen: set<K>, x: T, key: T -> K) returns (kept': seq<T>, seen': set<K>)
    requires SeenKeys(seen, kept, key)
    ensures kept' == if key(x) in KeysOf(kept, key) then kept else kept + [x]
    ensures SeenKeys(seen', kept', key)
  {
    if key(x) in seen {
      kept', seen' := kept, seen;
    } else {
      kept', seen' := kept + [x], seen + {key(x)};
      assert KeysOf(kept', key) == KeysOf(kept, key) + [key(x)];
    }
  }

  /** The "skip it if already seen" loop over `s`, continuing a loop that
      has already gone over `before`: it computes `DedupeBy`. */
  method AddAllNew<T, K(==,!new)>(kept: seq<T>, seen: set<K>, s: seq<T>, key: T -> K, ghost before: seq<T>)
    returns (kept': seq<T>, seen': set<K>)
    requires kept == DedupeBy(before, key) && SeenKeys(seen, kept, key)
    ensures kept' == DedupeBy(before + s, key) && SeenKeys(seen', kept', key)
  {
    kept', seen' := kept, seen;
    var i := 0;
    assert before + s[..0] == before;
    while i < |s|
      invariant 0 <= i <= |s|
      invariant kept' == DedupeBy(before + s[..i], key)
      invariant SeenKeys(seen', kept', key)
    {
      kept', seen' := AddNext(kept', seen', s, i, key, before);
      i := i + 1;
    }
    assert s[..i] == s;
  }

  /** One turn of that loop: element `i` of `s` is kept when its key is new. */
  method AddNext<T, K(==,!new)>(kept: seq<T>, seen: set<K>, s: seq<T>, i: nat, key: T -> K, ghost before: seq<T>)
    returns (kept': seq<T>, seen': set<K>)
    requires i < |s| && kept == DedupeBy(before + s[..i], key) && SeenKeys(seen, kept, key)
    ensures kept' == DedupeBy(before + s[..i + 1], key) && SeenKeys(seen', kept', key)
  {
    DedupeByStep(before, s, i, key);
    kept', seen' := AddNew(kept, seen, s[i], key);
  }

  /** Once a prefix of `s` yields `limit` distinct keys, the rest of `s`
      does not change the first `limit` kept elements. */
  lemma DedupeByLimit<T, K>(s: seq<T>, n: nat, key: T -> K, limit: nat)
    requires n <= |s| && |DedupeBy(s[..n], key)| == limit
    ensures SliceTo(DedupeBy(s, key), limit) == DedupeBy(s[..n], key)
  {
    assert s[..n] + s[n..] == s;
    DedupeByPrefix(s[..n], s[n..], key);
    var d := DedupeBy(s, key);
    assert SliceTo(d, limit) == d[..limit];
  }

  /** The "skip it if already seen" loop that stops once `limit` elements
      are kept. */
  method TakeDistinct<T, K(==,!new)>(s: seq<T>, key: T -> K, limit: nat) returns (kept: seq<T>)
    requires limit >= 1
    ensures kept == SliceTo(DedupeBy(s, key), limit)
  {
    var seen: set<K> := {};
    kept := [];
    var i := 0;
    while i < |s|
      invariant 0 <= i <= |s|
      invariant kept == DedupeBy(s[..i], key) && SeenKeys(seen, kept, key)
      invariant |kept| < limit
    {
      assert s[..i + 1] == s[..i] + [s[i]];
      DedupeBySnoc(s[..i], s[i], key);
      kept, seen := AddNew(kept, seen, s[i], key);
      if |kept| >= limit {
        DedupeByLimit(s, i + 1, key, limit);
        return;
      }
      i := i + 1;
    }
    assert s[..i] == s;
  }
}
