/** Insertion-ordered dictionaries.

    Python 3 dicts, Python `Counter`s, JavaScript `Map`s and JavaScript plain
    objects all remember the order in which keys were first inserted, and the
    repository relies on that order (codon lists, "first key" checks,
    `addMaps`' output order). They are modelled as association lists with
    distinct keys: `Put` overwrites a present key where it stands and appends a
    new one at the end, exactly as `d[k] = v` and `m.set(k, v)` do. */
module Dicts {
  import opened Wrappers

  type Dict<K(==), V> = seq<(K, V)>

  function Keys<K(==), V>(d: Dict<K, V>): (ks: seq<K>)
    ensures |ks| == |d|
    ensures forall i :: 0 <= i < |d| ==> ks[i] == d[i].0
  {
    seq(|d|, i requires 0 <= i < |d| => d[i].0)
  }

  function Values<K(==), V>(d: Dict<K, V>): (vs: seq<V>)
    ensures |vs| == |d|
    ensures forall i :: 0 <= i < |d| ==> vs[i] == d[i].1
  {
    seq(|d|, i requires 0 <= i < |d| => d[i].1)
  }

  ghost predicate Distinct<T>(s: seq<T>) {
    forall i, j :: 0 <= i < j < |s| ==> s[i] != s[j]
  }

  ghost predicate DistinctKeys<K, V>(d: Dict<K, V>) {
    Distinct(Keys(d))
  }

  /** Position of the first occurrence of `k`. */
  function IndexOf<T(==)>(s: seq<T>, k: T): (i: nat)
    requires k in s
    ensures i < |s| && s[i] == k
    ensures forall j :: 0 <= j < i ==> s[j] != k
  {
    if s[0] == k then 0 else 1 + IndexOf(s[1..], k)
  }

  /** `d.get(k)` / `m.get(k)`: the value stored under `k`, if any. */
  function Get<K(==), V>(d: Dict<K, V>, k: K): (r: Option<V>)
    ensures r.Some? <==> k in Keys(d)
  {
    if k in Keys(d) then Some(d[IndexOf(Keys(d), k)].1) else None
  }

  function GetOr<K(==), V>(d: Dict<K, V>, k: K, default: V): V {
    if k in Keys(d) then d[IndexOf(Keys(d), k)].1 else default
  }

  /** `d[k] = v` / `m.set(k, v)`. */
  function Put<K(==), V>(d: Dict<K, V>, k: K, v: V): Dict<K, V> {
    if k in Keys(d) then d[IndexOf(Keys(d), k) := (k, v)] else d + [(k, v)]
  }

  /** `dict(d)` viewed as a mathematical map (first occurrence wins). */
  function ToMap<K(==), V>(d: Dict<K, V>): (m: map<K, V>)
    ensures m.Keys == set k | k in Keys(d)
  {
    if d == [] then map[]
    else
      var m := ToMap(d[1..]);
      assert Keys(d) == [d[0].0] + Keys(d[1..]);
      m[d[0].0 := d[0].1]
  }

  function SumReals(xs: seq<real>): real {
    if xs == [] then 0.0 else xs[0] + SumReals(xs[1..])
  }

  /** `sum(d.values())` / `sumMapValues(m)`. */
  function SumValues<K(==)>(d: Dict<K, real>): real {
    SumReals(Values(d))
  }

  /** Occurrences of `w` in `ws`. */
  function Occ<T(==)>(ws: seq<T>, w: T): nat {
    multiset(ws)[w]
  }

  /** `Counter(ws)`, or a JavaScript counting loop
      `counts.set(w, (counts.get(w) || 0) + 1)`: keys in order of first
      occurrence, each mapped to its number of occurrences. */
  function Counts<K(==)>(ws: seq<K>): Dict<K, real> {
    if ws == [] then []
    else
      var c := Counts(ws[..|ws| - 1]);
      var w := ws[|ws| - 1];
      Put(c, w, GetOr(c, w, 0.0) + 1.0)
  }

  /** `{k: v / t for k, v in d.items()}`. */
  function Divide<K(==)>(d: Dict<K, real>, t: real): (r: Dict<K, real>)
    requires d != [] ==> t != 0.0
    ensures |r| == |d|
    ensures forall i :: 0 <= i < |d| ==> r[i] == (d[i].0, d[i].1 / t)
  {
    seq(|d|, i requires 0 <= i < |d| => (d[i].0, d[i].1 / t))
  }

  /** `{**a, **b}`: `a`'s keys in order, then `b`'s new keys; `b` wins. */
  function Merge<K(==), V>(a: Dict<K, V>, b: Dict<K, V>): Dict<K, V>
    decreases |b|
  {
    if b == [] then a else Merge(Put(a, b[0].0, b[0].1), b[1..])
  }

  // ---------------------------------------------------------------------
  // Lemmas
  // ---------------------------------------------------------------------

  lemma KeysCons<K, V>(d: Dict<K, V>)
    requires d != []
    ensures Keys(d) == [d[0].0] + Keys(d[1..])
  {
  }

  lemma DistinctKeysInit<K, V>(d: Dict<K, V>)
    requires DistinctKeys(d) && d != []
    ensures DistinctKeys(d[..|d| - 1])
    ensures d[|d| - 1].0 !in Keys(d[..|d| - 1])
    ensures Keys(d) == Keys(d[..|d| - 1]) + [d[|d| - 1].0]
  {
    var init := d[..|d| - 1];
    forall j | 0 <= j < |init| ensures Keys(init)[j] != d[|d| - 1].0 {
      assert Keys(init)[j] == Keys(d)[j];
    }
  }

  lemma KeysConcat<K, V>(a: Dict<K, V>, b: Dict<K, V>)
    ensures Keys(a + b) == Keys(a) + Keys(b)
  {
  }

  /** A lookup in a concatenation finds the first part's entry first. */
  lemma GetConcat<K, V>(a: Dict<K, V>, b: Dict<K, V>, k: K)
    ensures k in Keys(a) ==> Get(a + b, k) == Get(a, k)
    ensures k !in Keys(a) ==> Get(a + b, k) == Get(b, k)
  {
    KeysConcat(a, b);
    var ks := Keys(a + b);
    if k in Keys(a) {
      var i := IndexOf(Keys(a), k);
      var j := IndexOf(ks, k);
      assert ks[i] == k;
      assert j <= i;
      assert Keys(a)[j] == k;
    } else if k in Keys(b) {
      var i := IndexOf(Keys(b), k);
      var j := IndexOf(ks, k);
      assert ks[|a| + i] == k;
      assert j >= |a|;
      assert Keys(b)[j - |a|] == k;
    }
  }

  lemma ValuesConcat<K, V>(a: Dict<K, V>, b: Dict<K, V>)
    ensures Values(a + b) == Values(a) + Values(b)
  {
  }

  lemma {:induction false} SumRealsConcat(a: seq<real>, b: seq<real>)
    ensures SumReals(a + b) == SumReals(a) + SumReals(b)
  {
    if a == [] {
      assert a + b == b;
    } else {
      assert (a + b)[1..] == a[1..] + b;
      SumRealsConcat(a[1..], b);
    }
  }

  lemma {:induction false} SumRealsUpdate(xs: seq<real>, i: nat, x: real)
    requires i < |xs|
    ensures SumReals(xs[i := x]) == SumReals(xs) - xs[i] + x
  {
    if i > 0 {
      assert xs[i := x][1..] == xs[1..][i - 1 := x];
      SumRealsUpdate(xs[1..], i - 1, x);
    }
  }

  lemma {:induction false} SumRealsScale(xs: seq<real>, ys: seq<real>, t: real)
    requires t != 0.0 && |xs| == |ys|
    requires forall i :: 0 <= i < |xs| ==> ys[i] == xs[i] / t
    ensures SumReals(ys) == SumReals(xs) / t
  {
    if xs != [] {
      SumRealsScale(xs[1..], ys[1..], t);
    }
  }

  lemma {:induction false} SumRealsZero(xs: seq<real>)
    requires forall i :: 0 <= i < |xs| ==> xs[i] == 0.0
    ensures SumReals(xs) == 0.0
  {
    if xs != [] {
      SumRealsZero(xs[1..]);
    }
  }

  /** A sum of non-negative terms of which one is positive is positive. */
  lemma {:induction false} SumRealsPositive(xs: seq<real>, m: nat)
    requires forall i :: 0 <= i < |xs| ==> xs[i] >= 0.0
    requires m < |xs| && xs[m] > 0.0
    ensures SumReals(xs) > 0.0
  {
    if m == 0 {
      SumRealsNonNegative(xs[1..]);
    } else {
      SumRealsPositive(xs[1..], m - 1);
    }
  }

  lemma {:induction false} SumRealsNonNegative(xs: seq<real>)
    requires forall i :: 0 <= i < |xs| ==> xs[i] >= 0.0
    ensures SumReals(xs) >= 0.0
  {
    if xs != [] {
      SumRealsNonNegative(xs[1..]);
    }
  }

  /** A sum of `n` equal terms. */
  lemma {:induction false} SumRealsConst(xs: seq<real>, x: real)
    requires forall i :: 0 <= i < |xs| ==> xs[i] == x
    ensures SumReals(xs) == |xs| as real * x
  {
    if xs != [] {
      SumRealsConst(xs[1..], x);
    }
  }

  lemma SumValuesConcat<K>(a: Dict<K, real>, b: Dict<K, real>)
    ensures SumValues(a + b) == SumValues(a) + SumValues(b)
  {
    ValuesConcat(a, b);
    SumRealsConcat(Values(a), Values(b));
  }

  lemma DivideFacts<K>(d: Dict<K, real>, t: real)
    requires t != 0.0
    ensures Keys(Divide(d, t)) == Keys(d)
    ensures SumValues(Divide(d, t)) == SumValues(d) / t
  {
    SumRealsScale(Values(d), Values(Divide(d, t)), t);
  }

  lemma DivideGetOr<K>(d: Dict<K, real>, t: real, k: K)
    requires t != 0.0
    ensures GetOr(Divide(d, t), k, 0.0) == GetOr(d, k, 0.0) / t
  {
    DivideFacts(d, t);
    if k in Keys(d) {
      var i := IndexOf(Keys(d), k);
      assert IndexOf(Keys(Divide(d, t)), k) == i;
    }
  }

  lemma GetIndex<K, V>(d: Dict<K, V>, i: nat)
    requires DistinctKeys(d) && i < |d|
    ensures Get(d, d[i].0) == Some(d[i].1)
    ensures GetOr(d, d[i].0, d[i].1) == d[i].1
  {
    assert Keys(d)[i] == d[i].0;
    var j := IndexOf(Keys(d), d[i].0);
    assert Keys(d)[j] == Keys(d)[i];
  }

  /** What `Put` does to the keys, the lookups and the sum. */
  lemma PutFacts<K, V>(d: Dict<K, V>, k: K, v: V)
    ensures Keys(Put(d, k, v)) == if k in Keys(d) then Keys(d) else Keys(d) + [k]
    ensures forall k' :: Get(Put(d, k, v), k') == if k' == k then Some(v) else Get(d, k')
    ensures DistinctKeys(d) ==> DistinctKeys(Put(d, k, v))
  {
    var r := Put(d, k, v);
    if k in Keys(d) {
      var i := IndexOf(Keys(d), k);
      assert Keys(r) == Keys(d);
      forall k' ensures Get(r, k') == if k' == k then Some(v) else Get(d, k') {
        if k' in Keys(d) {
          var j := IndexOf(Keys(d), k');
          assert IndexOf(Keys(r), k') == j;
        }
      }
    } else {
      KeysConcat(d, [(k, v)]);
      forall k' ensures Get(r, k') == if k' == k then Some(v) else Get(d, k') {
        if k' in Keys(d) {
          var j := IndexOf(Keys(d), k');
          assert Keys(r)[j] == k';
          assert IndexOf(Keys(r), k') == j;
        } else if k' == k {
          assert Keys(r)[|d|] == k;
          assert IndexOf(Keys(r), k') == |d|;
        }
      }
    }
  }

  lemma PutGetOr<K, V>(d: Dict<K, V>, k: K, v: V, k': K, default: V)
    ensures GetOr(Put(d, k, v), k', default) == if k' == k then v else GetOr(d, k', default)
  {
    PutFacts(d, k, v);
    var r := Put(d, k, v);
    assert Get(r, k') == if k' == k then Some(v) else Get(d, k');
    if k' in Keys(r) {
      assert GetOr(r, k', default) == Get(r, k').value;
    }
    if k' in Keys(d) {
      assert GetOr(d, k', default) == Get(d, k').value;
    }
  }

  lemma PutSum<K>(d: Dict<K, real>, k: K, v: real)
    ensures SumValues(Put(d, k, v)) == SumValues(d) - GetOr(d, k, 0.0) + v
  {
    if k in Keys(d) {
      var i := IndexOf(Keys(d), k);
      assert Values(d[i := (k, v)]) == Values(d)[i := v];
      SumRealsUpdate(Values(d), i, v);
    } else {
      SumValuesConcat(d, [(k, v)]);
      assert SumReals(Values([(k, v)])) == v + SumReals([]);
    }
  }

  lemma ToMapGet<K, V>(d: Dict<K, V>, k: K)
    requires k in Keys(d)
    ensures k in ToMap(d) && ToMap(d)[k] == Get(d, k).value
  {
    KeysCons(d);
    if d[0].0 != k {
      ToMapGet(d[1..], k);
      var j := IndexOf(Keys(d[1..]), k);
      assert IndexOf(Keys(d), k) == j + 1;
    }
  }

  /** The counting loop builds a dictionary of distinct keys, one per
      distinct element. */
  lemma {:induction false} CountsKeys<K>(ws: seq<K>)
    ensures DistinctKeys(Counts(ws))
    ensures forall w :: w in Keys(Counts(ws)) <==> w in ws
  {
    if ws != [] {
      var init := ws[..|ws| - 1];
      var w := ws[|ws| - 1];
      assert ws == init + [w];
      CountsKeys(init);
      var c := Counts(init);
      PutFacts(c, w, GetOr(c, w, 0.0) + 1.0);
      forall x ensures x in Keys(Counts(ws)) <==> x in ws {
        assert x in ws <==> x in init || x == w;
      }
    }
  }

  /** Each key holds its number of occurrences. */
  lemma {:induction false} CountsGet<K>(ws: seq<K>, x: K)
    ensures GetOr(Counts(ws), x, 0.0) == Occ(ws, x) as real
  {
    if ws != [] {
      var init := ws[..|ws| - 1];
      var w := ws[|ws| - 1];
      assert ws == init + [w];
      CountsGet(init, x);
      var c := Counts(init);
      PutGetOr(c, w, GetOr(c, w, 0.0) + 1.0, x, 0.0);
      if x == w {
        CountsGet(init, w);
      }
    }
  }

  /** The counts add up to the number of elements counted. */
  lemma {:induction false} CountsSum<K>(ws: seq<K>)
    ensures SumValues(Counts(ws)) == |ws| as real
  {
    if ws != [] {
      var init := ws[..|ws| - 1];
      var w := ws[|ws| - 1];
      CountsSum(init);
      CountsGet(init, w);
      var c := Counts(init);
      PutSum(c, w, GetOr(c, w, 0.0) + 1.0);
    }
  }

  lemma {:induction false} MergeFacts<K, V>(a: Dict<K, V>, b: Dict<K, V>)
    requires DistinctKeys(b)
    ensures forall k :: Get(Merge(a, b), k) == if k in Keys(b) then Get(b, k) else Get(a, k)
    ensures DistinctKeys(a) ==> DistinctKeys(Merge(a, b))
    ensures forall k :: k in Keys(Merge(a, b)) <==> k in Keys(a) || k in Keys(b)
    ensures forall k :: k in Keys(a) ==> k in Keys(Merge(a, b))
    decreases |b|
  {
    if b != [] {
      var a' := Put(a, b[0].0, b[0].1);
      PutFacts(a, b[0].0, b[0].1);
      KeysCons(b);
      assert DistinctKeys(b[1..]) by {
        assert forall i :: 0 <= i < |b| - 1 ==> Keys(b[1..])[i] == Keys(b)[i + 1];
      }
      MergeFacts(a', b[1..]);
      forall k ensures Get(Merge(a, b), k) == if k in Keys(b) then Get(b, k) else Get(a, k) {
        if k == b[0].0 {
          assert k !in Keys(b[1..]);
          assert IndexOf(Keys(b), k) == 0;
        } else if k in Keys(b[1..]) {
          assert IndexOf(Keys(b), k) == 1 + IndexOf(Keys(b[1..]), k);
        }
      }
      forall k | k in Keys(a) ensures k in Keys(Merge(a, b)) {
        assert k in Keys(a');
      }
    }
  }

  /** Merging values into a dictionary whose entries at those keys are zero
      adds their sum. */
  lemma {:induction false} MergeSum<K>(a: Dict<K, real>, b: Dict<K, real>)
    requires DistinctKeys(b)
    requires forall k :: k in Keys(b) ==> GetOr(a, k, 0.0) == 0.0
    ensures SumValues(Merge(a, b)) == SumValues(a) + SumValues(b)
    decreases |b|
  {
    if b != [] {
      var a' := Put(a, b[0].0, b[0].1);
      PutSum(a, b[0].0, b[0].1);
      KeysCons(b);
      assert DistinctKeys(b[1..]) by {
        assert forall i :: 0 <= i < |b| - 1 ==> Keys(b[1..])[i] == Keys(b)[i + 1];
      }
      forall k | k in Keys(b[1..]) ensures GetOr(a', k, 0.0) == 0.0 {
        PutGetOr(a, b[0].0, b[0].1, k, 0.0);
      }
      MergeSum(a', b[1..]);
      assert Values(b) == [b[0].1] + Values(b[1..]);
    }
  }
}
