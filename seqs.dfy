/**
 * Sequence operations behind the array methods the tool calls
 * (`filter`, `filter` followed by `map`, `reduce` for a sum, `Math.min`,
 * `Math.max`, a rounded mean, `sort` with a comparator, `slice(0, k)`),
 * with the facts the statistics rely on: distribution over concatenation
 * and independence from the order of the input.
 */
module Seqs {
  import opened Wrappers

  /** `s.filter(p)`: the elements satisfying `p`, in their original order. */
  function Filter<T>(s: seq<T>, p: T -> bool): (r: seq<T>)
    ensures |r| <= |s|
    ensures forall x :: x in r ==> x in s && p(x)
    decreases |s|
  {
    if s == [] then []
    else Filter(s[..|s| - 1], p) + (if p(s[|s| - 1]) then [s[|s| - 1]] else [])
  }

  /** The number of elements satisfying `p`, i.e. `s.filter(p).length`. */
  function Count<T>(s: seq<T>, p: T -> bool): nat {
    |Filter(s, p)|
  }

  /** `s.filter(..).map(..)` fused: the values `f` yields, in order. */
  function Collect<T, U>(s: seq<T>, f: T -> Option<U>): (r: seq<U>)
    ensures |r| <= |s|
    decreases |s|
  {
    if s == [] then []
    else Collect(s[..|s| - 1], f) + (match f(s[|s| - 1]) case Some(u) => [u] case None => [])
  }

  lemma {:induction false} FilterConcat<T>(a: seq<T>, b: seq<T>, p: T -> bool)
    ensures Filter(a + b, p) == Filter(a, p) + Filter(b, p)
    decreases |b|
  {
    if b == [] {
      assert a + b == a;
    } else {
      var init, last := b[..|b| - 1], b[|b| - 1];
      var fx := if p(last) then [last] else [];
      assert (a + b)[..|a + b| - 1] == a + init;
      assert (a + b)[|a + b| - 1] == last;
      FilterConcat(a, init, p);
      assert Filter(a + b, p) == (Filter(a, p) + Filter(init, p)) + fx;
      assert Filter(b, p) == Filter(init, p) + fx;
    }
  }

  lemma {:induction false} CollectConcat<T, U>(a: seq<T>, b: seq<T>, f: T -> Option<U>)
    ensures Collect(a + b, f) == Collect(a, f) + Collect(b, f)
    decreases |b|
  {
    if b == [] {
      assert a + b == a;
    } else {
      assert (a + b)[..|a + b| - 1] == a + b[..|b| - 1];
      CollectConcat(a, b[..|b| - 1], f);
    }
  }

  /** Removing one occurrence of `x` from a permutation of `a' + [x]` leaves a
      permutation of `a'`, with the rest of `b` around the gap. */
  lemma PermSplit<T>(a: seq<T>, b: seq<T>) returns (j: nat)
    requires multiset(a) == multiset(b) && |a| > 0
    ensures j < |b| && b[j] == a[|a| - 1]
    ensures b == b[..j] + [b[j]] + b[j + 1..]
    ensures multiset(a[..|a| - 1]) == multiset(b[..j] + b[j + 1..])
  {
    DropLast(a);
    j :| 0 <= j < |b| && b[j] == a[|a| - 1];
    SplitAt(b, j);
  }

  /** The last element leaves the multiset once when it is dropped. */
  lemma DropLast<T>(a: seq<T>)
    requires |a| > 0
    ensures a[|a| - 1] in multiset(a)
    ensures multiset(a[..|a| - 1]) == multiset(a) - multiset{a[|a| - 1]}
  {
    assert a == a[..|a| - 1] + [a[|a| - 1]];
  }

  /** Element `j` leaves the multiset once when it is cut out. */
  lemma SplitAt<T>(b: seq<T>, j: nat)
    requires j < |b|
    ensures b == b[..j] + [b[j]] + b[j + 1..]
    ensures multiset(b[..j] + b[j + 1..]) == multiset(b) - multiset{b[j]}
  {
    assert b == b[..j] + [b[j]] + b[j + 1..];
    MultisetAround(b[..j], b[j], b[j + 1..]);
  }

  /** Taking one element out of the middle takes it out of the multiset. */
  lemma MultisetAround<T>(l: seq<T>, x: T, r: seq<T>)
    ensures multiset(l + [x] + r) == multiset(l + r) + multiset{x}
  {
  }

  /** Filtering commutes with permutation: the same elements survive. */
  lemma {:induction false} FilterPerm<T>(a: seq<T>, b: seq<T>, p: T -> bool)
    requires multiset(a) == multiset(b)
    ensures multiset(Filter(a, p)) == multiset(Filter(b, p))
    decreases |a|
  {
    if a == [] {
      assert |b| == |multiset(b)| == 0;
    } else {
      var j := PermSplit(a, b);
      var l, x, r := b[..j], b[j], b[j + 1..];
      FilterPerm(a[..|a| - 1], l + r, p);
      FilterAround(l, x, r, p);
      assert a == a[..|a| - 1] + [a[|a| - 1]];
    }
  }

  /** Filtering with one more element in the middle. */
  lemma FilterAround<T>(l: seq<T>, x: T, r: seq<T>, p: T -> bool)
    ensures multiset(Filter(l + [x] + r, p)) == multiset(Filter(l + r, p)) + multiset(if p(x) then [x] else [])
  {
    var fl, fx, fr := Filter(l, p), (if p(x) then [x] else []), Filter(r, p);
    assert Filter(l + [x], p) == fl + fx by {
      assert (l + [x])[..|l|] == l;
    }
    assert Filter(l + [x] + r, p) == fl + fx + fr by {
      FilterConcat(l + [x], r, p);
    }
    assert Filter(l + r, p) == fl + fr by {
      FilterConcat(l, r, p);
    }
  }

  /** The number of elements satisfying `p` does not depend on their order. */
  lemma CountPerm<T>(a: seq<T>, b: seq<T>, p: T -> bool)
    requires multiset(a) == multiset(b)
    ensures Count(a, p) == Count(b, p)
  {
    FilterPerm(a, b, p);
    assert |multiset(Filter(a, p))| == |multiset(Filter(b, p))|;
  }

  /** Collecting commutes with permutation: the same values come out. */
  lemma {:induction false} CollectPerm<T, U>(a: seq<T>, b: seq<T>, f: T -> Option<U>)
    requires multiset(a) == multiset(b)
    ensures multiset(Collect(a, f)) == multiset(Collect(b, f))
    decreases |a|
  {
    if a == [] {
      assert |b| == |multiset(b)| == 0;
    } else {
      var j := PermSplit(a, b);
      var x := b[j];
      CollectPerm(a[..|a| - 1], b[..j] + b[j + 1..], f);
      CollectConcat(b[..j], b[j + 1..], f);
      CollectConcat(b[..j] + [x], b[j + 1..], f);
      CollectConcat(b[..j], [x], f);
      assert Collect([x], f) == Collect([], f) + (match f(x) case Some(u) => [u] case None => []);
    }
  }

  /** Filtering with a predicate and with its negation splits the elements between them. */
  lemma {:induction false} FilterPartition<T>(s: seq<T>, p: T -> bool, q: T -> bool)
    requires forall x :: q(x) == !p(x)
    ensures multiset(Filter(s, p)) + multiset(Filter(s, q)) == multiset(s)
    decreases |s|
  {
    if s != [] {
      FilterPartition(s[..|s| - 1], p, q);
      assert s == s[..|s| - 1] + [s[|s| - 1]];
    }
  }

  /** Filtering twice with the same predicate is filtering once. */
  lemma {:induction false} FilterIdempotent<T>(s: seq<T>, p: T -> bool)
    ensures Filter(Filter(s, p), p) == Filter(s, p)
    decreases |s|
  {
    if s != [] {
      var init := s[..|s| - 1];
      var x := s[|s| - 1];
      var e := if p(x) then [x] else [];
      FilterIdempotent(init, p);
      FilterConcat(Filter(init, p), e, p);
      if p(x) {
        assert Filter(e, p) == Filter(e[..0], p) + [x];
        assert e[..0] == [];
      } else {
        assert Filter(e, p) == [];
      }
    }
  }

  /** Every element satisfying `p` passes the filter. */
  lemma {:induction false} FilterKeeps<T>(s: seq<T>, p: T -> bool, x: T)
    requires x in s && p(x)
    ensures x in Filter(s, p)
    decreases |s|
  {
    var init := s[..|s| - 1];
    if x != s[|s| - 1] {
      assert s == init + [s[|s| - 1]];
      FilterKeeps(init, p, x);
    }
  }

  /** A filter every element passes keeps the whole sequence. */
  lemma {:induction false} FilterAll<T>(s: seq<T>, p: T -> bool)
    requires forall x :: x in s ==> p(x)
    ensures Filter(s, p) == s
    decreases |s|
  {
    if s != [] {
      var init, last := s[..|s| - 1], s[|s| - 1];
      assert s == init + [last];
      assert p(last);
      forall x | x in init ensures p(x) {
        assert x in s;
      }
      FilterAll(init, p);
    }
  }

  /** Counting one more element. */
  lemma CountAppend<T>(s: seq<T>, x: T, p: T -> bool)
    ensures Count(s + [x], p) == Count(s, p) + (if p(x) then 1 else 0)
  {
    assert (s + [x])[..|s|] == s;
  }

  /** Collecting one more element. */
  lemma CollectAppend<T, U>(s: seq<T>, x: T, f: T -> Option<U>)
    ensures Collect(s + [x], f) == Collect(s, f) + (match f(x) case Some(u) => [u] case None => [])
  {
    assert (s + [x])[..|s|] == s;
  }

  /** Nothing passes a filter that no element satisfies. */
  lemma FilterNone<T>(s: seq<T>, p: T -> bool)
    requires forall x :: x in s ==> !p(x)
    ensures Filter(s, p) == []
  {
    if Filter(s, p) != [] {
      assert Filter(s, p)[0] in Filter(s, p);
    }
  }

  /** Collecting yields one value per element of which `f` is defined. */
  lemma {:induction false} CollectCount<T, U>(s: seq<T>, f: T -> Option<U>, p: T -> bool)
    requires forall x :: f(x).Some? == p(x)
    ensures |Collect(s, f)| == Count(s, p)
    decreases |s|
  {
    if s != [] {
      CollectCount(s[..|s| - 1], f, p);
    }
  }

  /** Collecting a prefix gives a prefix of the values. */
  lemma CollectPrefix<T, U>(s: seq<T>, m: nat, f: T -> Option<U>)
    requires m <= |s|
    ensures |Collect(s[..m], f)| <= |Collect(s, f)|
    ensures Collect(s[..m], f) == Collect(s, f)[..|Collect(s[..m], f)|]
  {
    assert s == s[..m] + s[m..];
    CollectConcat(s[..m], s[m..], f);
  }

  /** Collecting one element further. */
  lemma CollectStep<T, U>(s: seq<T>, i: nat, f: T -> Option<U>)
    requires i < |s|
    ensures Collect(s[..i + 1], f) == Collect(s[..i], f) + (match f(s[i]) case Some(u) => [u] case None => [])
  {
    assert s[..i + 1][..i] == s[..i];
  }

  /** Filtering splits a sequence: what passes and what fails add up to it. */
  lemma {:induction false} CountComplement<T>(s: seq<T>, p: T -> bool, q: T -> bool)
    requires forall x :: q(x) == !p(x)
    ensures Count(s, p) + Count(s, q) == |s|
    decreases |s|
  {
    if s != [] {
      CountComplement(s[..|s| - 1], p, q);
    }
  }

  /** `reduce((a, b) => a + b, 0)`. */
  function Sum(xs: seq<nat>): nat
    decreases |xs|
  {
    if xs == [] then 0 else Sum(xs[..|xs| - 1]) + xs[|xs| - 1]
  }

  lemma {:induction false} SumConcat(a: seq<nat>, b: seq<nat>)
    ensures Sum(a + b) == Sum(a) + Sum(b)
    decreases |b|
  {
    if b == [] {
      assert a + b == a;
    } else {
      assert (a + b)[..|a + b| - 1] == a + b[..|b| - 1];
      SumConcat(a, b[..|b| - 1]);
    }
  }

  /** A sum does not depend on the order of its terms. */
  lemma {:induction false} SumPerm(a: seq<nat>, b: seq<nat>)
    requires multiset(a) == multiset(b)
    ensures Sum(a) == Sum(b)
    decreases |a|
  {
    if a == [] {
      assert |b| == |multiset(b)| == 0;
    } else {
      var j := PermSplit(a, b);
      SumPerm(a[..|a| - 1], b[..j] + b[j + 1..]);
      SumConcat(b[..j], b[j + 1..]);
      SumConcat(b[..j] + [b[j]], b[j + 1..]);
      SumConcat(b[..j], [b[j]]);
      assert Sum([b[j]]) == Sum([]) + b[j];
    }
  }

  /** `Math.min(...xs)` of a non-empty list. */
  function Min(xs: seq<nat>): nat
    requires |xs| > 0
    decreases |xs|
  {
    if |xs| == 1 then xs[0]
    else
      var m := Min(xs[..|xs| - 1]);
      if xs[|xs| - 1] < m then xs[|xs| - 1] else m
  }

  /** `Math.max(...xs)` of a non-empty list. */
  function Max(xs: seq<nat>): nat
    requires |xs| > 0
    decreases |xs|
  {
    if |xs| == 1 then xs[0]
    else
      var m := Max(xs[..|xs| - 1]);
      if xs[|xs| - 1] > m then xs[|xs| - 1] else m
  }

  /** The minimum and maximum are elements of the list that bound every element. */
  lemma {:induction false} MinMaxSpec(xs: seq<nat>)
    requires |xs| > 0
    ensures Min(xs) in xs && Max(xs) in xs
    ensures forall i :: 0 <= i < |xs| ==> Min(xs) <= xs[i] <= Max(xs)
    decreases |xs|
  {
    if |xs| > 1 {
      var init := xs[..|xs| - 1];
      MinMaxSpec(init);
      assert forall i :: 0 <= i < |init| ==> init[i] == xs[i];
      assert Min(init) in xs && Max(init) in xs;
    }
  }

  /** Minimum and maximum depend only on which values occur. */
  lemma MinMaxPerm(a: seq<nat>, b: seq<nat>)
    requires multiset(a) == multiset(b) && |a| > 0
    ensures |b| > 0 && Min(a) == Min(b) && Max(a) == Max(b)
  {
    assert |b| == |multiset(b)| == |multiset(a)| == |a|;
    MinMaxSpec(a);
    MinMaxSpec(b);
    forall x | x in a ensures x in b {
      assert x in multiset(a);
    }
    forall x | x in b ensures x in a {
      assert x in multiset(b);
    }
    var ia :| 0 <= ia < |a| && a[ia] == Min(a);
    var ib :| 0 <= ib < |b| && b[ib] == Min(b);
    var ja :| 0 <= ja < |a| && a[ja] == Max(a);
    var jb :| 0 <= jb < |b| && b[jb] == Max(b);
    var ia' :| 0 <= ia' < |b| && b[ia'] == Min(a);
    var ib' :| 0 <= ib' < |a| && a[ib'] == Min(b);
    var ja' :| 0 <= ja' < |b| && b[ja'] == Max(a);
    var jb' :| 0 <= jb' < |a| && a[jb'] == Max(b);
  }

  /** The terms of a sum lie between its minimum and maximum, so the sum lies
      between `|xs| * Min(xs)` and `|xs| * Max(xs)`. */
  lemma {:induction false} SumBounds(xs: seq<nat>, lo: nat, hi: nat)
    requires forall i :: 0 <= i < |xs| ==> lo <= xs[i] <= hi
    ensures |xs| * lo <= Sum(xs) <= |xs| * hi
    decreases |xs|
  {
    if xs != [] {
      var init := xs[..|xs| - 1];
      assert forall i :: 0 <= i < |init| ==> init[i] == xs[i];
      SumBounds(init, lo, hi);
      assert |xs| * lo == |init| * lo + lo;
      assert |xs| * hi == |init| * hi + hi;
    }
  }

  /** The arithmetic mean rounded half up, which is what `Math.round(sum / n)`
      computes for a non-negative sum and `n > 0`; 0 for an empty list. */
  function RoundedMean(xs: seq<nat>): nat {
    if |xs| == 0 then 0 else (2 * Sum(xs) + |xs|) / (2 * |xs|)
  }

  /** Rounding `q / n` half up keeps it within any integer bounds `q / n` respects. */
  lemma RoundHalfUpBounds(q: nat, n: nat, lo: nat, hi: nat)
    requires n > 0 && n * lo <= q <= n * hi
    ensures lo <= (2 * q + n) / (2 * n) <= hi
  {
    var d := 2 * n;
    var m := 2 * q + n;
    assert d * lo <= m < d * (hi + 1);
    DivBounds(m, d, lo, hi + 1);
  }

  lemma DivBounds(m: nat, d: nat, lo: nat, hi: nat)
    requires d > 0 && d * lo <= m < d * hi
    ensures lo <= m / d < hi
  {
    var r := m / d;
    assert d * r <= m < d * r + d;
    if r < lo {
      MulMono(d, r + 1, lo);
    }
    if r >= hi {
      MulMono(d, hi, r);
    }
  }

  lemma MulMono(d: nat, a: nat, b: nat)
    requires a <= b
    ensures d * a <= d * b
  {
    assert d * b == d * a + d * (b - a);
  }

  /** The rounded mean of a non-empty list lies between its minimum and maximum. */
  lemma MeanBetweenMinMax(xs: seq<nat>)
    requires |xs| > 0
    ensures Min(xs) <= RoundedMean(xs) <= Max(xs)
  {
    MinMaxSpec(xs);
    SumBounds(xs, Min(xs), Max(xs));
    RoundHalfUpBounds(Sum(xs), |xs|, Min(xs), Max(xs));
  }

  /** `s.slice(0, k)`. */
  function Take<T>(s: seq<T>, k: nat): (r: seq<T>)
    ensures |r| == if |s| < k then |s| else k
    ensures r == s[..|r|]
  {
    if |s| < k then s else s[..k]
  }

  /** `s.filter(p).slice(0, k)` is everything `p` keeps in the first `j`
      elements of `s`, for a `j` that is either all of `s` or where the
      `k`-th kept element is reached. */
  lemma {:induction false} TakeFilterPrefix<T>(s: seq<T>, p: T -> bool, k: nat) returns (j: nat)
    ensures j <= |s| && Take(Filter(s, p), k) == Filter(s[..j], p)
    ensures |Take(Filter(s, p), k)| == k || j == |s|
    decreases |s|
  {
    if |Filter(s, p)| <= k {
      j := |s|;
      assert s[..j] == s;
    } else {
      var init := s[..|s| - 1];
      assert Filter(s, p) == Filter(init, p) + (if p(s[|s| - 1]) then [s[|s| - 1]] else []);
      j := TakeFilterPrefix(init, p, k);
      assert init[..j] == s[..j];
      assert Take(Filter(s, p), k) == Take(Filter(init, p), k);
    }
  }

  predicate SortedDesc<T>(s: seq<T>, rank: T -> int) {
    forall i, j :: 0 <= i < j < |s| ==> rank(s[i]) >= rank(s[j])
  }

  /** The elements of rank `v`, in order: the part a stable sort must keep in order. */
  function OfRank<T>(s: seq<T>, rank: T -> int, v: int): seq<T>
    decreases |s|
  {
    if s == [] then [] else (if rank(s[0]) == v then [s[0]] else []) + OfRank(s[1..], rank, v)
  }

  /** Puts `x` into a list sorted by descending rank, after every element of
      equal or greater rank. */
  function Insert<T>(x: T, s: seq<T>, rank: T -> int): (r: seq<T>)
    ensures multiset(r) == multiset(s) + multiset{x}
    ensures |r| == |s| + 1
    decreases |s|
  {
    if s == [] then [x]
    else if rank(s[0]) >= rank(x) then
      assert s == [s[0]] + s[1..];
      [s[0]] + Insert(x, s[1..], rank)
    else [x] + s
  }

  /** `sort((a, b) => rank(b) - rank(a))`: Array.prototype.sort is stable, so
      this is an insertion sort that never overtakes an equal element. */
  function SortDesc<T>(s: seq<T>, rank: T -> int): (r: seq<T>)
    decreases |s|
  {
    if s == [] then [] else Insert(s[|s| - 1], SortDesc(s[..|s| - 1], rank), rank)
  }

  predicate AllAtMost<T>(s: seq<T>, rank: T -> int, b: int) {
    forall k :: 0 <= k < |s| ==> rank(s[k]) <= b
  }

  lemma {:induction false} InsertAtMost<T>(x: T, s: seq<T>, rank: T -> int, b: int)
    requires AllAtMost(s, rank, b) && rank(x) <= b
    ensures AllAtMost(Insert(x, s, rank), rank, b)
    decreases |s|
  {
    if s != [] && rank(s[0]) >= rank(x) {
      InsertAtMost(x, s[1..], rank, b);
      var t := Insert(x, s[1..], rank);
      assert forall k :: 1 <= k < |t| + 1 ==> ([s[0]] + t)[k] == t[k - 1];
    }
  }

  lemma {:induction false} InsertSorted<T>(x: T, s: seq<T>, rank: T -> int)
    requires SortedDesc(s, rank)
    ensures SortedDesc(Insert(x, s, rank), rank)
    decreases |s|
  {
    if s != [] && rank(s[0]) >= rank(x) {
      assert SortedDesc(s[1..], rank) by {
        assert forall k :: 0 <= k < |s| - 1 ==> s[1..][k] == s[k + 1];
      }
      InsertSorted(x, s[1..], rank);
      assert AllAtMost(s[1..], rank, rank(s[0])) by {
        assert forall k :: 0 <= k < |s| - 1 ==> s[1..][k] == s[k + 1];
      }
      InsertAtMost(x, s[1..], rank, rank(s[0]));
      var t := Insert(x, s[1..], rank);
      var r := [s[0]] + t;
      forall i, j | 0 <= i < j < |r| ensures rank(r[i]) >= rank(r[j]) {
        assert r[j] == t[j - 1];
        if i > 0 {
          assert r[i] == t[i - 1];
        }
      }
    }
  }

  lemma OfRankCons<T>(y: T, t: seq<T>, rank: T -> int, v: int)
    ensures OfRank([y] + t, rank, v) == (if rank(y) == v then [y] else []) + OfRank(t, rank, v)
  {
    assert ([y] + t)[0] == y;
    assert ([y] + t)[1..] == t;
  }

  lemma {:induction false} OfRankConcat<T>(a: seq<T>, b: seq<T>, rank: T -> int, v: int)
    ensures OfRank(a + b, rank, v) == OfRank(a, rank, v) + OfRank(b, rank, v)
    decreases |a|
  {
    if a != [] {
      assert a + b == [a[0]] + (a[1..] + b);
      OfRankCons(a[0], a[1..] + b, rank, v);
      OfRankCons(a[0], a[1..], rank, v);
      assert a == [a[0]] + a[1..];
      OfRankConcat(a[1..], b, rank, v);
    } else {
      assert a + b == b;
    }
  }

  lemma {:induction false} OfRankBelow<T>(s: seq<T>, rank: T -> int, v: int)
    requires forall k :: 0 <= k < |s| ==> rank(s[k]) < v
    ensures OfRank(s, rank, v) == []
    decreases |s|
  {
    if s != [] {
      OfRankBelow(s[1..], rank, v);
    }
  }

  lemma {:induction false} InsertStable<T>(x: T, s: seq<T>, rank: T -> int, v: int)
    requires SortedDesc(s, rank)
    ensures OfRank(Insert(x, s, rank), rank, v)
         == OfRank(s, rank, v) + (if rank(x) == v then [x] else [])
    decreases |s|
  {
    if s == [] {
      assert Insert(x, s, rank) == [x] + [];
      OfRankCons(x, [], rank, v);
    } else if rank(s[0]) >= rank(x) {
      SortedTail(s, rank);
      InsertStable(x, s[1..], rank, v);
      InsertStableBehind(x, s, rank, v);
    } else {
      InsertStableFront(x, s, rank, v);
    }
  }

  /** The step case of InsertStable: `x` goes behind the head. */
  lemma InsertStableBehind<T>(x: T, s: seq<T>, rank: T -> int, v: int)
    requires s != [] && rank(s[0]) >= rank(x)
    requires OfRank(Insert(x, s[1..], rank), rank, v)
          == OfRank(s[1..], rank, v) + (if rank(x) == v then [x] else [])
    ensures OfRank(Insert(x, s, rank), rank, v)
         == OfRank(s, rank, v) + (if rank(x) == v then [x] else [])
  {
    var t := Insert(x, s[1..], rank);
    assert Insert(x, s, rank) == [s[0]] + t;
    OfRankKeepHead(t, s, rank, v, if rank(x) == v then [x] else []);
  }

  lemma OfRankKeepHead<T>(t: seq<T>, u: seq<T>, rank: T -> int, v: int, e: seq<T>)
    requires u != [] && OfRank(t, rank, v) == OfRank(u[1..], rank, v) + e
    ensures OfRank([u[0]] + t, rank, v) == OfRank(u, rank, v) + e
  {
    OfRankCons(u[0], t, rank, v);
    var h := if rank(u[0]) == v then [u[0]] else [];
    assert h + (OfRank(u[1..], rank, v) + e) == (h + OfRank(u[1..], rank, v)) + e;
  }

  lemma SortedTail<T>(s: seq<T>, rank: T -> int)
    requires SortedDesc(s, rank) && s != []
    ensures SortedDesc(s[1..], rank)
  {
    assert forall k :: 0 <= k < |s| - 1 ==> s[1..][k] == s[k + 1];
  }

  lemma InsertStableFront<T>(x: T, s: seq<T>, rank: T -> int, v: int)
    requires SortedDesc(s, rank) && s != [] && rank(s[0]) < rank(x)
    ensures OfRank(Insert(x, s, rank), rank, v)
         == OfRank(s, rank, v) + (if rank(x) == v then [x] else [])
  {
    assert Insert(x, s, rank) == [x] + s;
    OfRankCons(x, s, rank, v);
    if rank(x) == v {
      assert forall k :: 0 <= k < |s| ==> rank(s[k]) <= rank(s[0]);
      OfRankBelow(s, rank, v);
    }
  }

  /** Sorting permutes, orders by descending rank, and is stable: the elements
      of any one rank keep their input order. */
  lemma {:induction false} SortDescSpec<T>(s: seq<T>, rank: T -> int)
    ensures multiset(SortDesc(s, rank)) == multiset(s)
    ensures SortedDesc(SortDesc(s, rank), rank)
    ensures forall v :: OfRank(SortDesc(s, rank), rank, v) == OfRank(s, rank, v)
    decreases |s|
  {
    if s != [] {
      var init, x := s[..|s| - 1], s[|s| - 1];
      SortDescSpec(init, rank);
      assert s == init + [x];
      InsertSorted(x, SortDesc(init, rank), rank);
      forall v ensures OfRank(SortDesc(s, rank), rank, v) == OfRank(s, rank, v) {
        SortDescStable(init, x, rank, v);
      }
    }
  }

  /** The step case of the stability of SortDesc, for one rank. */
  lemma SortDescStable<T>(init: seq<T>, x: T, rank: T -> int, v: int)
    requires SortedDesc(SortDesc(init, rank), rank)
    requires OfRank(SortDesc(init, rank), rank, v) == OfRank(init, rank, v)
    ensures OfRank(SortDesc(init + [x], rank), rank, v) == OfRank(init + [x], rank, v)
  {
    var s := init + [x];
    assert s[..|s| - 1] == init && s[|s| - 1] == x;
    InsertStable(x, SortDesc(init, rank), rank, v);
    OfRankConcat(init, [x], rank, v);
  }

  /** `f` applied to every element, or `None` as soon as one application gives `None`. */
  function MapAll<T, U>(s: seq<T>, f: T -> Option<U>): (r: Option<seq<U>>)
    ensures r.Some? ==> |r.value| == |s|
    decreases |s|
  {
    if s == [] then Some([])
    else match MapAll(s[..|s| - 1], f)
      case None => None
      case Some(us) => match f(s[|s| - 1]) case None => None case Some(u) => Some(us + [u])
  }

  /** The mapping succeeds exactly when every application does, and then
      element `i` of the result is what `f` gives for element `i`. */
  lemma {:induction false} MapAllSpec<T, U>(s: seq<T>, f: T -> Option<U>)
    ensures MapAll(s, f).Some? <==> forall i :: 0 <= i < |s| ==> f(s[i]).Some?
    ensures MapAll(s, f).Some? ==> forall i :: 0 <= i < |s| ==> f(s[i]) == Some(MapAll(s, f).value[i])
    decreases |s|
  {
    if s != [] {
      var init := s[..|s| - 1];
      MapAllSpec(init, f);
      assert forall i :: 0 <= i < |init| ==> init[i] == s[i];
    }
  }

  /** A sequence with `f`'s value for each element is what the mapping gives. */
  lemma MapAllAre<T, U>(s: seq<T>, f: T -> Option<U>, us: seq<U>)
    requires |us| == |s| && forall i :: 0 <= i < |s| ==> f(s[i]) == Some(us[i])
    ensures MapAll(s, f) == Some(us)
  {
    MapAllSpec(s, f);
    assert MapAll(s, f).Some?;
    var vs := MapAll(s, f).value;
    forall i | 0 <= i < |vs| ensures vs[i] == us[i] {
      assert f(s[i]) == Some(vs[i]);
    }
    assert vs == us;
  }

  /** The identity on optional values, to collect the present ones. */
  function Present<U>(o: Option<U>): Option<U> {
    o
  }

  /** Collecting the present values of a sequence in which each value carries
      its own position as `key`: every collected value sits at its key, the
      keys increase, and every present value is collected. */
  lemma {:induction false} GatherSpec<U>(s: seq<Option<U>>, key: U -> nat)
    requires forall i :: 0 <= i < |s| && s[i].Some? ==> key(s[i].value) == i
    ensures var us := Collect(s, Present);
      (forall k :: 0 <= k < |us| ==> key(us[k]) < |s| && s[key(us[k])] == Some(us[k]))
      && (forall k, l :: 0 <= k < l < |us| ==> key(us[k]) < key(us[l]))
      && (forall i :: 0 <= i < |s| && s[i].Some? ==> s[i].value in us)
    decreases |s|
  {
    if s != [] {
      var init := s[..|s| - 1];
      GatherSpec(init, key);
      var a := Collect(init, Present);
      assert forall k :: 0 <= k < |a| ==> Collect(s, Present)[k] == a[k];
    }
  }
}
