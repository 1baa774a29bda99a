/**
 * A counting dictionary, `counts[key] = (counts[key] || 0) + 1`, as the list
 * of its entries in insertion order, which is the order `Object.entries`
 * reports string keys in.
 */
module Histogram {
  import opened Wrappers
  import opened Seqs

  type Entries<K> = seq<(K, nat)>

  /** Where `key` sits among the entries, if anywhere. */
  function KeyIndex<K(==)>(h: Entries<K>, key: K): (r: Option<nat>)
    ensures r.Some? ==> r.value < |h| && h[r.value].0 == key
    ensures r.None? ==> forall i :: 0 <= i < |h| ==> h[i].0 != key
  {
    if h == [] then None
    else if h[0].0 == key then Some(0)
    else match KeyIndex(h[1..], key)
      case None => None
      case Some(i) => Some(i + 1)
  }

  /** The dictionary update for one occurrence of `key`. */
  function Bump<K(==)>(h: Entries<K>, key: K): Entries<K> {
    match KeyIndex(h, key)
    case None => h + [(key, 1)]
    case Some(i) => h[i := (key, h[i].1 + 1)]
  }

  /** The dictionary after counting `keys` one by one from empty. */
  function Tally<K(==)>(keys: seq<K>): Entries<K> {
    if keys == [] then [] else Bump(Tally(keys[..|keys| - 1]), keys[|keys| - 1])
  }

  /** The count recorded under `key`: 0 when it is absent. */
  function CountOf<K(==)>(h: Entries<K>, key: K): nat {
    if h == [] then 0
    else CountOf(h[..|h| - 1], key) + (if h[|h| - 1].0 == key then h[|h| - 1].1 else 0)
  }

  function CountField<K>(e: (K, nat)): Option<nat> {
    Some(e.1)
  }

  /** The sum of all counts. */
  function Total<K>(h: Entries<K>): nat {
    Sum(Collect(h, CountField))
  }

  predicate DistinctKeys<K(==)>(h: Entries<K>) {
    forall i, j :: 0 <= i < j < |h| ==> h[i].0 != h[j].0
  }

  predicate Positive<K>(h: Entries<K>) {
    forall i :: 0 <= i < |h| ==> h[i].1 > 0
  }

  lemma {:induction false} CountOfUpdate<K>(h: Entries<K>, i: nat, e: (K, nat), key: K)
    requires i < |h|
    ensures CountOf(h[i := e], key) + (if h[i].0 == key then h[i].1 else 0)
         == CountOf(h, key) + (if e.0 == key then e.1 else 0)
    decreases |h|
  {
    var u := h[i := e];
    if i < |h| - 1 {
      assert u[..|u| - 1] == h[..|h| - 1][i := e];
      CountOfUpdate(h[..|h| - 1], i, e, key);
    } else {
      assert u[..|u| - 1] == h[..|h| - 1];
    }
  }

  /** The total of a counter split around one entry. */
  lemma TotalAround<K>(l: Entries<K>, x: (K, nat), r: Entries<K>)
    ensures Total(l + [x] + r) == Total(l) + x.1 + Total(r)
  {
    CollectConcat(l + [x], r, CountField);
    CollectConcat(l, [x], CountField);
    var xs: Entries<K> := [x];
    assert Collect(xs, CountField) == [x.1] by {
      assert xs[..0] == [];
    }
    var a, b := Collect(l, CountField), Collect(r, CountField);
    SumConcat(a + [x.1], b);
    SumConcat(a, [x.1]);
    var xn: seq<nat> := [x.1];
    assert Sum(xn) == x.1 by {
      assert xn[..0] == [];
    }
  }

  lemma TotalUpdate<K>(h: Entries<K>, i: nat, e: (K, nat))
    requires i < |h|
    ensures Total(h[i := e]) + h[i].1 == Total(h) + e.1
  {
    assert h == h[..i] + [h[i]] + h[i + 1..];
    assert h[i := e] == h[..i] + [e] + h[i + 1..];
    TotalAround(h[..i], h[i], h[i + 1..]);
    TotalAround(h[..i], e, h[i + 1..]);
  }

  /** One update adds one to the count of its key and to the total, leaves
      the other counts alone, and keeps the keys distinct. */
  lemma BumpSpec<K>(h: Entries<K>, key: K)
    requires DistinctKeys(h) && Positive(h)
    ensures DistinctKeys(Bump(h, key)) && Positive(Bump(h, key))
    ensures forall j :: CountOf(Bump(h, key), j) == CountOf(h, j) + (if j == key then 1 else 0)
    ensures Total(Bump(h, key)) == Total(h) + 1
  {
    match KeyIndex(h, key)
    case None =>
      var u := h + [(key, 1)];
      assert u[..|u| - 1] == h;
      CollectConcat(h, [(key, 1)], CountField);
      var one: Entries<K> := [(key, 1)];
      var ones: seq<nat> := [1];
      assert Collect(one, CountField) == ones by {
        assert one[..0] == [];
      }
      SumConcat(Collect(h, CountField), ones);
      assert Sum(ones) == 1 by {
        assert ones[..0] == [];
      }
    case Some(i) =>
      forall j ensures CountOf(Bump(h, key), j) == CountOf(h, j) + (if j == key then 1 else 0) {
        CountOfUpdate(h, i, (key, h[i].1 + 1), j);
      }
      TotalUpdate(h, i, (key, h[i].1 + 1));
  }

  /** Counting from empty: the keys are distinct, every count is positive,
      the count of each key is its number of occurrences, and the counts add
      up to the number of keys counted. */
  lemma {:induction false} TallySpec<K>(keys: seq<K>)
    ensures DistinctKeys(Tally(keys)) && Positive(Tally(keys))
    ensures forall j :: CountOf(Tally(keys), j) == multiset(keys)[j]
    ensures Total(Tally(keys)) == |keys|
    decreases |keys|
  {
    if keys != [] {
      var init := keys[..|keys| - 1];
      var last := keys[|keys| - 1];
      TallySpec(init);
      BumpSpec(Tally(init), last);
      assert keys == init + [last];
      assert forall j :: multiset(keys)[j] == multiset(init)[j] + (if j == last then 1 else 0);
    }
  }

  /** A key is present exactly when its count is positive. */
  lemma {:induction false} CountOfPresent<K>(h: Entries<K>, key: K)
    requires Positive(h)
    ensures CountOf(h, key) > 0 <==> exists i :: 0 <= i < |h| && h[i].0 == key
    decreases |h|
  {
    if h != [] {
      var init := h[..|h| - 1];
      assert Positive(init) by {
        assert forall i :: 0 <= i < |init| ==> init[i] == h[i];
      }
      CountOfPresent(init, key);
      if exists i :: 0 <= i < |init| && init[i].0 == key {
        var i :| 0 <= i < |init| && init[i].0 == key;
        assert h[i].0 == key;
      }
      if exists i :: 0 <= i < |h| && h[i].0 == key {
        var i :| 0 <= i < |h| && h[i].0 == key;
        if i < |init| {
          assert init[i].0 == key;
        }
      }
    }
  }

  /** A key no entry carries has count 0. */
  lemma {:induction false} CountOfAbsent<K>(h: Entries<K>, key: K)
    requires forall i :: 0 <= i < |h| ==> h[i].0 != key
    ensures CountOf(h, key) == 0
    decreases |h|
  {
    if h != [] {
      CountOfAbsent(h[..|h| - 1], key);
    }
  }

  /** With distinct keys, the count of a key is the number in its entry. */
  lemma {:induction false} CountOfEntry<K>(h: Entries<K>, p: nat)
    requires DistinctKeys(h) && p < |h|
    ensures CountOf(h, h[p].0) == h[p].1
    decreases |h|
  {
    var init := h[..|h| - 1];
    if p == |h| - 1 {
      CountOfAbsent(init, h[p].0);
    } else {
      assert init[p] == h[p];
      CountOfEntry(init, p);
    }
  }

  /** With distinct keys, no entry occurs twice. */
  lemma {:induction false} DistinctOnce<K>(h: Entries<K>, e: (K, nat))
    requires DistinctKeys(h)
    ensures multiset(h)[e] <= 1
    decreases |h|
  {
    if h != [] {
      var init := h[..|h| - 1];
      var last := h[|h| - 1];
      assert h == init + [last];
      DistinctOnce(init, e);
      if e == last {
        assert e !in init by {
          assert forall i :: 0 <= i < |init| ==> init[i].0 != last.0;
        }
      }
    }
  }

  /** Reordering entries keeps their keys distinct. */
  lemma DistinctPerm<K>(a: Entries<K>, b: Entries<K>)
    requires DistinctKeys(a) && multiset(a) == multiset(b)
    ensures DistinctKeys(b)
  {
    forall i, j | 0 <= i < j < |b| ensures b[i].0 != b[j].0 {
      if b[i].0 == b[j].0 {
        assert b[i] in multiset(a) && b[j] in multiset(a);
        var p :| 0 <= p < |a| && a[p] == b[i];
        var q :| 0 <= q < |a| && a[q] == b[j];
        assert b[i] == b[j];
        assert b == b[..j] + [b[j]] + b[j + 1..];
        assert b[i] in b[..j];
        assert multiset(b)[b[i]] >= 2;
        DistinctOnce(a, b[i]);
      }
    }
  }

  /** Every entry of a reordering of distinct-keyed, positive entries is an
      entry of the original: it carries the count of its key, and that count
      is positive. */
  lemma PermCounts<K>(h: Entries<K>, s: Entries<K>)
    requires DistinctKeys(h) && Positive(h) && multiset(h) == multiset(s)
    ensures DistinctKeys(s) && Positive(s)
    ensures forall i :: 0 <= i < |s| ==> CountOf(h, s[i].0) == s[i].1
  {
    DistinctPerm(h, s);
    forall i | 0 <= i < |s| ensures CountOf(h, s[i].0) == s[i].1 > 0 {
      assert s[i] in multiset(h);
      var p :| 0 <= p < |h| && h[p] == s[i];
      CountOfEntry(h, p);
    }
  }

  /** Counting a permutation of the keys gives the same count for every key
      (the order of the entries may differ). */
  lemma TallyPerm<K>(a: seq<K>, b: seq<K>)
    requires multiset(a) == multiset(b)
    ensures forall j :: CountOf(Tally(a), j) == CountOf(Tally(b), j)
    ensures Total(Tally(a)) == Total(Tally(b))
  {
    TallySpec(a);
    TallySpec(b);
    assert |a| == |multiset(a)| == |multiset(b)| == |b|;
  }

  /** Reordering the entries does not change their total. */
  lemma TotalPerm<K>(a: Entries<K>, b: Entries<K>)
    requires multiset(a) == multiset(b)
    ensures Total(a) == Total(b)
  {
    CollectPerm(a, b, CountField);
    SumPerm(Collect(a, CountField), Collect(b, CountField));
  }
}
