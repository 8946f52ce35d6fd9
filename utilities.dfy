/** The map utilities of the JavaScript core (packages/freqgen-core/utilities.js).

    packages/freqgen-core/validateKmerMap.js exports the same function as
    `validateKmerCountMap`, and packages/freqgen-cli/addMaps.js the same
    function as `addMaps`; each is modelled once, here. The Maps these
    functions take are only read, so they are modelled as values (insertion-
    ordered dictionaries, `Dicts.Dict`): nothing an input holds can change. */
module Utilities {
  import opened Wrappers
  import opened Dicts

  // ---------------------------------------------------------------------
  // validateKmerCountMap (utilities.js:6-18, validateKmerMap.js:3-15)
  // ---------------------------------------------------------------------

  /** What the validator does with the keys of a Map, in order: the first
      key's length comes from `kmers.next().value.length`, which fails on an
      empty Map, and every later key must match it. */
  function KeyLengthCheck(ks: seq<string>): Outcome {
    if ks == [] then Fail(TypeError("Cannot read properties of undefined (reading 'length')"))
    else if exists i :: 1 <= i < |ks| && |ks[i]| != |ks[0]| then Fail(Thrown("Not all k-mers are of length k."))
    else Pass
  }

  /** The validator accepts exactly the non-empty key lists whose keys all
      have one common length; it fails with TypeError exactly on the empty
      Map, and otherwise with a thrown Error. */
  lemma KeyLengthCheckFacts(ks: seq<string>)
    ensures KeyLengthCheck(ks).Pass? <==> ks != [] && exists n: nat :: AllOfLength(ks, n)
    ensures KeyLengthCheck(ks).Fail? && KeyLengthCheck(ks).failure.TypeError? <==> ks == []
    ensures ks != [] && KeyLengthCheck(ks).Fail? ==> KeyLengthCheck(ks).failure.Thrown?
  {
    if ks != [] && KeyLengthCheck(ks).Pass? {
      assert AllOfLength(ks, |ks[0]|);
    }
  }

  /** Every string of `ks` has length `n`. */
  ghost predicate AllOfLength(ks: seq<string>, n: nat) {
    forall i :: 0 <= i < |ks| ==> |ks[i]| == n
  }

  /** The validator's loop: take the first key, then compare every later
      key with it, throwing at the first that differs. */
  method ValidateKmerCountMap<V>(m: Dict<string, V>) returns (r: Outcome)
    ensures r == KeyLengthCheck(Keys(m))
  {
    var ks := Keys(m);
    if |ks| == 0 {
      return Fail(TypeError("Cannot read properties of undefined (reading 'length')"));
    }
    var k := |ks[0]|;
    var i := 1;
    while i < |ks|
      invariant 1 <= i <= |ks|
      invariant forall j :: 1 <= j < i ==> |ks[j]| == k
    {
      if |ks[i]| != k {
        return Fail(Thrown("Not all k-mers are of length k."));
      }
      i := i + 1;
    }
    return Pass;
  }

  // ---------------------------------------------------------------------
  // sumMapValues (utilities.js:30-36)
  // ---------------------------------------------------------------------

  /** `for (let value of map.values()) sum += value`. */
  method SumMapValues<K>(m: Dict<K, real>) returns (sum: real)
    ensures sum == SumValues(m)
  {
    var vs := Values(m);
    sum := 0.0;
    var i := 0;
    while i < |vs|
      invariant i <= |vs|
      invariant sum == SumReals(vs[..i])
    {
      SumRealsConcat(vs[..i], [vs[i]]);
      assert vs[..i + 1] == vs[..i] + [vs[i]];
      assert SumReals([vs[i]]) == vs[i] + SumReals([]);
      sum := sum + vs[i];
      i := i + 1;
    }
    assert vs[..i] == vs;
  }

  /** The sum of the empty Map is 0, and of a one-entry Map its value. */
  lemma SumMapValuesFacts<K>(k: K, v: real)
    ensures SumValues<K>([]) == 0.0
    ensures SumValues([(k, v)]) == v
  {
    assert Values([(k, v)]) == [v];
    assert [v][1..] == [];
  }

  // ---------------------------------------------------------------------
  // validateKmerFrequencyMap (utilities.js:20-27)
  // ---------------------------------------------------------------------

  /** A key of a frequency Map: a number (a k) or a string (`'codons'`, or
      any key of a plain Object). */
  datatype FreqKey = NumKey(n: int) | StrKey(s: string)

  /** A value of a frequency Map: a Map, or a plain Object, which has no
      `keys` method. */
  datatype Inner = MapValue(m: Dict<string, real>) | ObjectValue(o: Dict<string, real>)

  /** The callback of `forEach` for one entry. */
  function EntryCheck(v: Inner): Outcome {
    match v
    case ObjectValue(_) => Fail(TypeError("kmerCountMap.keys is not a function"))
    case MapValue(m) =>
      if KeyLengthCheck(Keys(m)).Fail? then KeyLengthCheck(Keys(m))
      else if SumValues(m) != 1.0 then Fail(Thrown("Values for k do not sum to 1."))
      else Pass
  }

  /** `forEach` over the entries in order; the first throw ends it. */
  function FrequencyMapCheck(m: Dict<FreqKey, Inner>): Outcome
    decreases |m|
  {
    if m == [] then Pass
    else if EntryCheck(m[0].1).Fail? then EntryCheck(m[0].1)
    else FrequencyMapCheck(m[1..])
  }

  /** A well-formed entry: a non-empty Map of one k-mer length whose values
      sum to exactly one. */
  ghost predicate GoodEntry(v: Inner) {
    v.MapValue? && v.m != []
    && (forall i :: 0 <= i < |v.m| ==> |v.m[i].0| == |v.m[0].0|)
    && SumValues(v.m) == 1.0
  }

  lemma EntryCheckFacts(v: Inner)
    ensures EntryCheck(v).Pass? <==> GoodEntry(v)
  {
    if v.MapValue? {
      KeyLengthCheckFacts(Keys(v.m));
      if v.m != [] {
        assert Keys(v.m)[0] == v.m[0].0;
      }
    }
  }

  /** The validator passes exactly when every entry is well formed, and
      otherwise fails as the first ill-formed entry does. */
  lemma {:induction false} FrequencyMapCheckFacts(m: Dict<FreqKey, Inner>)
    ensures FrequencyMapCheck(m).Pass? <==> forall i :: 0 <= i < |m| ==> GoodEntry(m[i].1)
    ensures FrequencyMapCheck(m).Fail? ==>
              exists i :: 0 <= i < |m| && FrequencyMapCheck(m) == EntryCheck(m[i].1)
                          && forall j :: 0 <= j < i ==> GoodEntry(m[j].1)
    decreases |m|
  {
    if m != [] {
      EntryCheckFacts(m[0].1);
      FrequencyMapCheckFacts(m[1..]);
      assert forall i :: 0 <= i < |m| - 1 ==> m[1..][i] == m[i + 1];
      if FrequencyMapCheck(m).Fail? && EntryCheck(m[0].1).Pass? {
        var i :| 0 <= i < |m| - 1 && FrequencyMapCheck(m[1..]) == EntryCheck(m[1..][i].1)
                 && forall j :: 0 <= j < i ==> GoodEntry(m[1..][j].1);
        assert FrequencyMapCheck(m) == EntryCheck(m[i + 1].1);
      }
    }
  }

  /** The `forEach` loop. */
  method ValidateKmerFrequencyMap(m: Dict<FreqKey, Inner>) returns (r: Outcome)
    ensures r == FrequencyMapCheck(m)
  {
    var i := 0;
    while i < |m|
      invariant i <= |m|
      invariant FrequencyMapCheck(m[i..]) == FrequencyMapCheck(m)
    {
      assert m[i..][1..] == m[i + 1..];
      var (_, v) := m[i];
      if v.ObjectValue? {
        return Fail(TypeError("kmerCountMap.keys is not a function"));
      }
      var c := ValidateKmerCountMap(v.m);
      if c.Fail? {
        return c;
      }
      var total := SumMapValues(v.m);
      if total != 1.0 {
        return Fail(Thrown("Values for k do not sum to 1."));
      }
      i := i + 1;
    }
    return Pass;
  }

  /** The cases of packages/freqgen-core/__tests__/utilities_test.js:4-30. */
  lemma FrequencyMapExamples()
    ensures FrequencyMapCheck([(NumKey(1), MapValue([("A", 0.5), ("T", 0.5)])),
                               (NumKey(2), MapValue([("AT", 0.5), ("TA", 0.5)]))]) == Pass
    ensures FrequencyMapCheck([(StrKey("codons"), MapValue([("AAA", 0.5), ("TTT", 0.5)]))]) == Pass
    ensures FrequencyMapCheck([(NumKey(1), MapValue([("A", 0.5), ("T", 0.6)])),
                               (NumKey(2), MapValue([("AT", 0.5), ("TA", 0.5)]))]).Fail?
    ensures FrequencyMapCheck([(NumKey(1), MapValue([("A", 0.5), ("TT", 0.5)])),
                               (NumKey(2), MapValue([("AT", 0.5), ("TA", 0.5)]))]).Fail?
  {
    HalfAndHalf("A", "T", 0.5);
    HalfAndHalf("AT", "TA", 0.5);
    HalfAndHalf("AAA", "TTT", 0.5);
    HalfAndHalf("A", "T", 0.6);
    HalfAndHalf("A", "TT", 0.5);
    assert Keys([("A", 0.5), ("TT", 0.5)]) == ["A", "TT"];
  }

  lemma HalfAndHalf(a: string, b: string, x: real)
    ensures Keys([(a, 0.5), (b, x)]) == [a, b]
    ensures SumValues([(a, 0.5), (b, x)]) == 0.5 + x
  {
    var d := [(a, 0.5), (b, x)];
    assert Values(d) == [0.5, x];
    assert Values(d)[1..] == [x];
    assert [x][1..] == [];
    assert SumReals([x]) == x;
    assert SumReals(Values(d)) == 0.5 + SumReals([x]);
  }

  // ---------------------------------------------------------------------
  // addMaps (utilities.js:38-49, addMaps.js:1-12)
  // ---------------------------------------------------------------------

  /** `map1.get(k) ? map1.get(k) + v : v`: a missing key, and a stored 0,
      are falsy. */
  function Combined(stored: Option<real>, v: real): real {
    if stored.Some? && stored.value != 0.0 then stored.value + v else v
  }

  /** The first loop, over `map2`'s entries. */
  function FirstPass<K>(map1: Dict<K, real>, map2: Dict<K, real>): Dict<K, real> {
    if map2 == [] then []
    else
      var r := FirstPass(map1, map2[..|map2| - 1]);
      var (k, v) := map2[|map2| - 1];
      Put(r, k, Combined(Get(map1, k), v))
  }

  /** The second loop, over `map1`'s entries: `if (!result.has(k))`. */
  function SecondPass<K>(acc: Dict<K, real>, map1: Dict<K, real>): Dict<K, real> {
    if map1 == [] then acc
    else
      var r := SecondPass(acc, map1[..|map1| - 1]);
      var (k, v) := map1[|map1| - 1];
      if k in Keys(r) then r else Put(r, k, v)
  }

  function AddMapsSpec<K>(map1: Dict<K, real>, map2: Dict<K, real>): Dict<K, real> {
    SecondPass(FirstPass(map1, map2), map1)
  }

  method AddMaps<K>(map1: Dict<K, real>, map2: Dict<K, real>) returns (result: Dict<K, real>)
    ensures result == AddMapsSpec(map1, map2)
  {
    result := [];
    var i := 0;
    while i < |map2|
      invariant i <= |map2|
      invariant result == FirstPass(map1, map2[..i])
    {
      assert map2[..i + 1][..i] == map2[..i];
      var (k, v) := map2[i];
      var stored := Get(map1, k);
      if stored.Some? && stored.value != 0.0 {
        result := Put(result, k, stored.value + v);
      } else {
        result := Put(result, k, v);
      }
      i := i + 1;
    }
    assert map2[..i] == map2;
    ghost var first := result;
    var j := 0;
    while j < |map1|
      invariant j <= |map1|
      invariant result == SecondPass(first, map1[..j])
    {
      assert map1[..j + 1][..j] == map1[..j];
      var (k, v) := map1[j];
      if k !in Keys(result) {
        result := Put(result, k, v);
      }
      j := j + 1;
    }
    assert map1[..j] == map1;
  }

  /** The entries of `map1` whose keys `acc` lacks, in `map1`'s order. */
  function Missing<K>(acc: Dict<K, real>, map1: Dict<K, real>): (r: Dict<K, real>)
    ensures |r| <= |map1|
  {
    if map1 == [] then []
    else Missing(acc, map1[..|map1| - 1]) + (if map1[|map1| - 1].0 in Keys(acc) then [] else [map1[|map1| - 1]])
  }

  /** The truthiness test is harmless on numbers: a stored 0 adds nothing. */
  lemma CombinedIsSum(stored: Option<real>, v: real)
    ensures Combined(stored, v) == (if stored.Some? then stored.value + v else v)
  {
  }

  /** With distinct keys in `map2`, the first loop appends every entry of
      `map2` with the combined value. */
  lemma {:induction false} FirstPassShape<K>(map1: Dict<K, real>, map2: Dict<K, real>)
    requires DistinctKeys(map2)
    ensures |FirstPass(map1, map2)| == |map2|
    ensures forall i :: 0 <= i < |map2| ==> FirstPass(map1, map2)[i] == (map2[i].0, Combined(Get(map1, map2[i].0), map2[i].1))
  {
    if map2 != [] {
      var init := map2[..|map2| - 1];
      DistinctKeysInit(map2);
      FirstPassShape(map1, init);
      var r := FirstPass(map1, init);
      var k := map2[|map2| - 1].0;
      assert Keys(r) == Keys(init);
      assert k !in Keys(init);
    }
  }

  /** With distinct keys in `map1`, the second loop appends the entries of
      `map1` that the first loop did not produce. */
  lemma {:induction false} SecondPassShape<K>(acc: Dict<K, real>, map1: Dict<K, real>)
    requires DistinctKeys(map1)
    ensures SecondPass(acc, map1) == acc + Missing(acc, map1)
    ensures forall k :: k in Keys(Missing(acc, map1)) <==> k in Keys(map1) && k !in Keys(acc)
  {
    if map1 != [] {
      var init := map1[..|map1| - 1];
      DistinctKeysInit(map1);
      SecondPassShape(acc, init);
      var (k, v) := map1[|map1| - 1];
      var r := SecondPass(acc, init);
      assert k !in Keys(init);
      KeysConcat(acc, Missing(acc, init));
      var tail: Dict<K, real> := if k in Keys(acc) then [] else [(k, v)];
      KeysConcat(Missing(acc, init), tail);
      assert Keys(map1) == Keys(init) + [k];
      assert Missing(acc, map1) == Missing(acc, init) + tail;
      assert Keys(tail) == if k in Keys(acc) then [] else [k];
      assert Keys(Missing(acc, map1)) == Keys(Missing(acc, init)) + Keys(tail);
      forall k' ensures k' in Keys(Missing(acc, map1)) <==> k' in Keys(map1) && k' !in Keys(acc) {
        assert k' in Keys(map1) <==> k' in Keys(init) || k' == k;
      }
    }
  }

  /** The order of the result: `map2`'s keys first, then the keys only
      `map1` has, each in its own map's order; the result is a Map. */
  lemma AddMapsOrder<K>(map1: Dict<K, real>, map2: Dict<K, real>)
    requires DistinctKeys(map1) && DistinctKeys(map2)
    ensures AddMapsSpec(map1, map2) == FirstPass(map1, map2) + Missing(FirstPass(map1, map2), map1)
    ensures Keys(AddMapsSpec(map1, map2)) == Keys(map2) + Keys(Missing(FirstPass(map1, map2), map1))
    ensures forall k :: k in Keys(Missing(FirstPass(map1, map2), map1)) <==> k in Keys(map1) && k !in Keys(map2)
  {
    var fp := FirstPass(map1, map2);
    FirstPassShape(map1, map2);
    SecondPassShape(fp, map1);
    assert Keys(fp) == Keys(map2);
    KeysConcat(fp, Missing(fp, map1));
  }

  /** Every key of either map is a key of the result, and no other; a key
      of both maps gets the sum of its values, a key of one map that map's
      value. */
  lemma AddMapsValues<K>(map1: Dict<K, real>, map2: Dict<K, real>, k: K)
    requires DistinctKeys(map1) && DistinctKeys(map2)
    ensures k in Keys(AddMapsSpec(map1, map2)) <==> k in Keys(map1) || k in Keys(map2)
    ensures Get(AddMapsSpec(map1, map2), k) ==
              if k in Keys(map1) && k in Keys(map2) then Some(Get(map1, k).value + Get(map2, k).value)
              else if k in Keys(map2) then Get(map2, k)
              else Get(map1, k)
  {
    AddMapsOrder(map1, map2);
    if k in Keys(map2) {
      AddMapsFromMap2(map1, map2, k);
    } else if k in Keys(map1) {
      AddMapsFromMap1(map1, map2, k);
    }
  }

  lemma AddMapsFromMap2<K>(map1: Dict<K, real>, map2: Dict<K, real>, k: K)
    requires DistinctKeys(map1) && DistinctKeys(map2) && k in Keys(map2)
    ensures Get(AddMapsSpec(map1, map2), k) ==
              if k in Keys(map1) then Some(Get(map1, k).value + Get(map2, k).value) else Get(map2, k)
  {
    var fp := FirstPass(map1, map2);
    var ms := Missing(fp, map1);
    AddMapsOrder(map1, map2);
    FirstPassShape(map1, map2);
    assert Keys(fp) == Keys(map2);
    GetConcat(fp, ms, k);
    var i := IndexOf(Keys(map2), k);
    GetIndex(map2, i);
    GetIndex(fp, i);
    assert fp[i].0 == k;
    CombinedIsSum(Get(map1, k), map2[i].1);
  }

  lemma AddMapsFromMap1<K>(map1: Dict<K, real>, map2: Dict<K, real>, k: K)
    requires DistinctKeys(map1) && DistinctKeys(map2) && k in Keys(map1) && k !in Keys(map2)
    ensures Get(AddMapsSpec(map1, map2), k) == Get(map1, k)
  {
    var fp := FirstPass(map1, map2);
    var ms := Missing(fp, map1);
    AddMapsOrder(map1, map2);
    FirstPassShape(map1, map2);
    assert Keys(fp) == Keys(map2);
    GetConcat(fp, ms, k);
    var i := IndexOf(Keys(ms), k);
    assert Keys(ms)[i] == ms[i].0;
    MissingFrom(fp, map1, i);
  }

  /** The entries `Missing` keeps come from `map1` unchanged. */
  lemma {:induction false} MissingEntries<K>(acc: Dict<K, real>, map1: Dict<K, real>)
    ensures forall i :: 0 <= i < |Missing(acc, map1)| ==> Missing(acc, map1)[i] in map1
  {
    if map1 != [] {
      MissingEntries(acc, map1[..|map1| - 1]);
    }
  }

  lemma MissingFrom<K>(acc: Dict<K, real>, map1: Dict<K, real>, i: nat)
    requires DistinctKeys(map1) && i < |Missing(acc, map1)|
    ensures Missing(acc, map1)[i].0 in Keys(map1)
    ensures Missing(acc, map1)[i] == map1[IndexOf(Keys(map1), Missing(acc, map1)[i].0)]
  {
    MissingEntries(acc, map1);
    var e := Missing(acc, map1)[i];
    var j :| 0 <= j < |map1| && map1[j] == e;
    var n := IndexOf(Keys(map1), e.0);
    assert Keys(map1)[j] == e.0;
  }
}
