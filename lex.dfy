/** String ordering and sorting, as Python's `sorted` uses them.

    Python compares strings code point by code point, a proper prefix coming
    first. `sorted(d.items(), key=lambda x: x[0])` orders a dictionary's
    entries by that comparison; `sorted(ks)` orders integers. */
module Lex {
  import opened Dicts

  /** `a < b` on Python strings. */
  predicate Less(a: string, b: string) {
    if a == [] then b != []
    else b != [] && (a[0] < b[0] || (a[0] == b[0] && Less(a[1..], b[1..])))
  }

  ghost predicate StrictlySorted(ks: seq<string>) {
    forall i, j :: 0 <= i < j < |ks| ==> Less(ks[i], ks[j])
  }

  ghost predicate SortedInts(ks: seq<int>) {
    forall i, j :: 0 <= i < j < |ks| ==> ks[i] <= ks[j]
  }

  /** Inserts `x` before the first entry whose key is not smaller. */
  function InsertByKey<V>(x: (string, V), s: Dict<string, V>): Dict<string, V> {
    if s == [] then [x]
    else if Less(s[0].0, x.0) then [s[0]] + InsertByKey(x, s[1..])
    else [x] + s
  }

  /** `sorted(d.items(), key=lambda x: x[0])`. */
  function SortByKey<V>(d: Dict<string, V>): Dict<string, V> {
    if d == [] then [] else InsertByKey(d[0], SortByKey(d[1..]))
  }

  function InsertInt(x: int, s: seq<int>): seq<int> {
    if s == [] then [x]
    else if s[0] < x then [s[0]] + InsertInt(x, s[1..])
    else [x] + s
  }

  /** `sorted(ks)` on a list of integers. */
  function SortInts(ks: seq<int>): seq<int> {
    if ks == [] then [] else InsertInt(ks[0], SortInts(ks[1..]))
  }

  // ---------------------------------------------------------------------
  // The order is a strict total order
  // ---------------------------------------------------------------------

  lemma {:induction false} LessIrreflexive(a: string)
    ensures !Less(a, a)
  {
    if a != [] {
      LessIrreflexive(a[1..]);
    }
  }

  lemma {:induction false} LessTransitive(a: string, b: string, c: string)
    requires Less(a, b) && Less(b, c)
    ensures Less(a, c)
  {
    if a != [] && a[0] == b[0] && b[0] == c[0] {
      LessTransitive(a[1..], b[1..], c[1..]);
    }
  }

  lemma {:induction false} LessTotal(a: string, b: string)
    ensures a == b || Less(a, b) || Less(b, a)
  {
    if a != [] && b != [] && a[0] == b[0] {
      LessTotal(a[1..], b[1..]);
      if a[1..] == b[1..] {
        assert a == [a[0]] + a[1..] && b == [b[0]] + b[1..];
      }
    }
  }

  lemma LessAsymmetric(a: string, b: string)
    requires Less(a, b)
    ensures !Less(b, a)
  {
    if Less(b, a) {
      LessTransitive(a, b, a);
      LessIrreflexive(a);
    }
  }

  // ---------------------------------------------------------------------
  // Sorting by key
  // ---------------------------------------------------------------------

  lemma {:induction false} InsertByKeyPermutes<V>(x: (string, V), s: Dict<string, V>)
    ensures multiset(InsertByKey(x, s)) == multiset(s) + multiset{x}
  {
    if s != [] && Less(s[0].0, x.0) {
      InsertByKeyPermutes(x, s[1..]);
      assert s == [s[0]] + s[1..];
    }
  }

  lemma {:induction false} InsertByKeyKeys<V>(x: (string, V), s: Dict<string, V>)
    ensures forall k :: k in Keys(InsertByKey(x, s)) <==> k == x.0 || k in Keys(s)
  {
    var r := InsertByKey(x, s);
    KeysCons(r);
    if s == [] {
      assert Keys(r) == [x.0];
    } else {
      KeysCons(s);
      if Less(s[0].0, x.0) {
        InsertByKeyKeys(x, s[1..]);
      } else {
        assert r[1..] == s;
      }
    }
  }

  lemma StrictlySortedTail(ks: seq<string>)
    requires StrictlySorted(ks) && ks != []
    ensures StrictlySorted(ks[1..])
    ensures forall k :: k in ks[1..] ==> Less(ks[0], k)
  {
    forall k | k in ks[1..] ensures Less(ks[0], k) {
      var m := IndexOf(ks[1..], k);
      assert ks[m + 1] == k;
    }
  }

  lemma StrictlySortedCons(k: string, ks: seq<string>)
    requires StrictlySorted(ks)
    requires forall k' :: k' in ks ==> Less(k, k')
    ensures StrictlySorted([k] + ks)
  {
    var r := [k] + ks;
    forall i, j | 0 <= i < j < |r| ensures Less(r[i], r[j]) {
      assert r[j] == ks[j - 1];
      if i > 0 {
        assert r[i] == ks[i - 1];
      } else {
        assert r[j] in ks;
      }
    }
  }

  lemma {:induction false} InsertByKeySorted<V>(x: (string, V), s: Dict<string, V>)
    requires StrictlySorted(Keys(s)) && x.0 !in Keys(s)
    ensures StrictlySorted(Keys(InsertByKey(x, s)))
  {
    var r := InsertByKey(x, s);
    if s == [] {
    } else {
      KeysCons(s);
      KeysCons(r);
      StrictlySortedTail(Keys(s));
      if Less(s[0].0, x.0) {
        InsertByKeySorted(x, s[1..]);
        InsertByKeyKeys(x, s[1..]);
        StrictlySortedCons(s[0].0, Keys(InsertByKey(x, s[1..])));
      } else {
        assert r[1..] == s;
        LessTotal(x.0, s[0].0);
        forall k | k in Keys(s) ensures Less(x.0, k) {
          if k != s[0].0 {
            LessTransitive(x.0, s[0].0, k);
          }
        }
        StrictlySortedCons(x.0, Keys(s));
      }
    }
  }

  /** Sorting permutes the entries and keeps the key set. */
  lemma {:induction false} SortByKeyPermutes<V>(d: Dict<string, V>)
    ensures multiset(SortByKey(d)) == multiset(d)
    ensures |SortByKey(d)| == |d|
    ensures forall k :: k in Keys(SortByKey(d)) <==> k in Keys(d)
  {
    if d != [] {
      SortByKeyPermutes(d[1..]);
      InsertByKeyPermutes(d[0], SortByKey(d[1..]));
      InsertByKeyKeys(d[0], SortByKey(d[1..]));
      assert d == [d[0]] + d[1..];
      KeysCons(d);
      assert |multiset(SortByKey(d))| == |multiset(d)|;
    }
  }

  lemma DistinctKeysTail<V>(d: Dict<string, V>)
    requires DistinctKeys(d) && d != []
    ensures DistinctKeys(d[1..])
    ensures d[0].0 !in Keys(d[1..])
  {
    KeysCons(d);
    forall i, j | 0 <= i < j < |d| - 1 ensures Keys(d[1..])[i] != Keys(d[1..])[j] {
      assert Keys(d[1..])[i] == Keys(d)[i + 1] && Keys(d[1..])[j] == Keys(d)[j + 1];
    }
  }

  /** With distinct keys the sorted keys are strictly increasing. */
  lemma {:induction false} SortByKeySorted<V>(d: Dict<string, V>)
    requires DistinctKeys(d)
    ensures StrictlySorted(Keys(SortByKey(d)))
  {
    if d != [] {
      DistinctKeysTail(d);
      SortByKeySorted(d[1..]);
      SortByKeyPermutes(d[1..]);
      InsertByKeySorted(d[0], SortByKey(d[1..]));
    }
  }

  lemma HeadIn<T>(s: seq<T>)
    ensures s != [] ==> s[0] in s
  {
  }

  /** Two strictly increasing sequences with the same elements are equal:
      the sorted layout depends only on the set of keys. */
  lemma {:induction false} SortedUnique(a: seq<string>, b: seq<string>)
    requires StrictlySorted(a) && StrictlySorted(b)
    requires forall x :: x in a <==> x in b
    ensures a == b
  {
    HeadIn(a);
    HeadIn(b);
    if a != [] {
      assert a[0] in a && b != [] && b[0] in b;
      assert a[0] == b[0] by {
        var i := IndexOf(b, a[0]);
        var j := IndexOf(a, b[0]);
        if a[0] != b[0] {
          assert i > 0 && j > 0;
          assert Less(b[0], a[0]) && Less(a[0], b[0]);
          LessAsymmetric(a[0], b[0]);
        }
      }
      forall x ensures x in a[1..] <==> x in b[1..] {
        if x in a[1..] {
          var i := IndexOf(a[1..], x);
          assert a[i + 1] == x && Less(a[0], x);
          LessIrreflexive(x);
          assert x in b && x != b[0];
          var j := IndexOf(b, x);
          assert b[1..][j - 1] == x;
        }
        if x in b[1..] {
          var i := IndexOf(b[1..], x);
          assert b[i + 1] == x && Less(b[0], x);
          LessIrreflexive(x);
          assert x in a && x != a[0];
          var j := IndexOf(a, x);
          assert a[1..][j - 1] == x;
        }
      }
      SortedUnique(a[1..], b[1..]);
      assert a == [a[0]] + a[1..] && b == [b[0]] + b[1..];
    }
  }

  /** Dictionaries with the same keys are laid out under the same key
      sequence once sorted. */
  lemma SameKeysSameLayout<V>(d1: Dict<string, V>, d2: Dict<string, V>)
    requires DistinctKeys(d1) && DistinctKeys(d2)
    requires forall k :: k in Keys(d1) <==> k in Keys(d2)
    ensures Keys(SortByKey(d1)) == Keys(SortByKey(d2))
  {
    SortByKeyPermutes(d1);
    SortByKeyPermutes(d2);
    SortByKeySorted(d1);
    SortByKeySorted(d2);
    SortedUnique(Keys(SortByKey(d1)), Keys(SortByKey(d2)));
  }

  // ---------------------------------------------------------------------
  // Sorting integers
  // ---------------------------------------------------------------------

  lemma {:induction false} InsertIntFacts(x: int, s: seq<int>)
    ensures multiset(InsertInt(x, s)) == multiset(s) + multiset{x}
    ensures SortedInts(s) ==> SortedInts(InsertInt(x, s))
  {
    if s != [] && s[0] < x {
      InsertIntFacts(x, s[1..]);
      assert s == [s[0]] + s[1..];
      var t := InsertInt(x, s[1..]);
      if SortedInts(s) {
        forall j | 0 <= j < |t| ensures s[0] <= t[j] {
          assert t[j] in multiset(t);
        }
      }
    }
  }

  /** `sorted(ks)` is ascending and a permutation of `ks`. */
  lemma {:induction false} SortIntsFacts(ks: seq<int>)
    ensures multiset(SortInts(ks)) == multiset(ks)
    ensures SortedInts(SortInts(ks))
  {
    if ks != [] {
      SortIntsFacts(ks[1..]);
      InsertIntFacts(ks[0], SortInts(ks[1..]));
      assert ks == [ks[0]] + ks[1..];
    }
  }
}
