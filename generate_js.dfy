/** The entry point of packages/freqgen-core/generate.js, which so far only
    checks its inputs: a warning when the amino-acid string looks like DNA,
    conversion of a plain-Object target into a Map, and validation of the
    target with `validateKmerFrequencyMap`. The function is taken with its
    parameters in the order it declares, target first. */
module GenerateJs {
  import opened Wrappers
  import opened Dicts
  import opened Utilities

  /** The amino-acid argument: a string, or anything else (a Map, an
      Object), which has no `split` method. */
  datatype SeqArg = Text(s: string) | NonText

  /** The target: a Map with number or string keys, or a plain Object,
      whose keys are strings. The inner values keep their own kind. An
      Object's `o` lists its own properties in JavaScript enumeration
      order, the order `Object.entries` returns them: array-index keys
      such as "1" and "2" first, ascending, then the other keys in the
      order they were added. */
  datatype Target = MapTarget(m: Dict<FreqKey, Inner>) | ObjectTarget(o: Dict<string, Inner>)

  /** What a call does: whether it printed the DNA warning, and whether it
      returned (`undefined`) or threw. */
  datatype Run = Run(warned: bool, outcome: Outcome)

  /** `DNA_BASES.has(aminoAcid)`. */
  predicate IsDnaBase(c: char) {
    c == 'A' || c == 'T' || c == 'G' || c == 'C'
  }

  /** `targetAminoAcidSeq.split('').every(...)`: true for the empty string. */
  function LooksLikeDna(s: string): (r: bool)
    ensures r <==> forall i :: 0 <= i < |s| ==> IsDnaBase(s[i])
  {
    if s == [] then true
    else IsDnaBase(s[0]) && LooksLikeDna(s[1..])
  }

  /** `new Map(Object.entries(targetFreqs))` for an Object, in the
      enumeration order `o` is listed in; a Map as it is. */
  function AsMap(target: Target): (m: Dict<FreqKey, Inner>)
    ensures target.MapTarget? ==> m == target.m
    ensures target.ObjectTarget? ==>
              |m| == |target.o| && forall i :: 0 <= i < |m| ==> m[i] == (StrKey(target.o[i].0), target.o[i].1)
  {
    match target
    case MapTarget(m) => m
    case ObjectTarget(o) => seq(|o|, i requires 0 <= i < |o| => (StrKey(o[i].0), o[i].1))
  }

  /** `generate(targetFreqs, targetAminoAcidSeq)`: a non-string throws
      before anything is printed; a string warns exactly when it looks like
      DNA, and the call returns exactly when every target entry is valid. */
  function Generate(target: Target, aminoAcids: SeqArg): (r: Run)
    ensures aminoAcids.NonText? ==> !r.warned && r.outcome.Fail? && r.outcome.failure.TypeError?
    ensures aminoAcids.Text? ==> (r.warned <==> forall i :: 0 <= i < |aminoAcids.s| ==> IsDnaBase(aminoAcids.s[i]))
    ensures aminoAcids.Text? ==>
              (r.outcome.Pass? <==> forall i :: 0 <= i < |AsMap(target)| ==> GoodEntry(AsMap(target)[i].1))
  {
    match aminoAcids
    case NonText => Run(false, Fail(TypeError("targetAminoAcidSeq.split is not a function")))
    case Text(s) =>
      FrequencyMapCheckFacts(AsMap(target));
      Run(LooksLikeDna(s), FrequencyMapCheck(AsMap(target)))
  }

  /** A string argument warns exactly when every character is A, T, G or
      C, the empty string included, and never throws for that reason; the
      call then returns exactly when every target entry is a Map of one
      k-mer length whose values sum to 1, and otherwise throws as the first
      bad entry does. */
  lemma GenerateFacts(target: Target, s: string)
    ensures Generate(target, Text(s)).warned <==> forall i :: 0 <= i < |s| ==> IsDnaBase(s[i])
    ensures Generate(target, Text("")).warned
    ensures Generate(target, Text(s)).outcome.Pass? <==>
              forall i :: 0 <= i < |AsMap(target)| ==> GoodEntry(AsMap(target)[i].1)
    ensures Generate(target, Text(s)).outcome.Fail? ==>
              exists i :: 0 <= i < |AsMap(target)| && Generate(target, Text(s)).outcome == EntryCheck(AsMap(target)[i].1)
  {
    FrequencyMapCheckFacts(AsMap(target));
  }

  /** A non-string amino-acid argument throws a TypeError before anything
      else happens. Both calls of
      packages/freqgen-core/__tests__/generate_test.js:6 and 14 pass the
      target second, so whatever the target, their throw is this one. */
  lemma NonTextThrows(target: Target)
    ensures Generate(target, NonText) == Run(false, Fail(TypeError("targetAminoAcidSeq.split is not a function")))
  {
  }

  /** The bad target of packages/freqgen-core/__tests__/generate_test.js:10-13,
      passed in the declared order, is rejected by validation: the inner
      Map for k = 1 sums to 2. */
  lemma BadTargetRejected()
    ensures Generate(MapTarget([(NumKey(1), MapValue([("A", 1.0), ("T", 1.0)])),
                                (NumKey(2), MapValue([("AA", 0.5), ("TT", 0.5)]))]), Text("M"))
            == Run(false, Fail(Thrown("Values for k do not sum to 1.")))
  {
    var bad := [("A", 1.0), ("T", 1.0)];
    HalfAndHalfish(bad);
    KeyLengthCheckFacts(Keys(bad));
    assert Keys(bad) == ["A", "T"];
    assert LooksLikeDna("M") == false;
  }

  lemma HalfAndHalfish(d: Dict<string, real>)
    requires d == [("A", 1.0), ("T", 1.0)]
    ensures SumValues(d) == 2.0
  {
    assert Values(d) == [1.0, 1.0];
    assert Values(d)[1..] == [1.0];
    assert [1.0][1..] == [];
    assert SumReals([1.0]) == 1.0;
  }

  // ---------------------------------------------------------------------
  // A plain Object of plain Objects
  // ---------------------------------------------------------------------

  /** As written, only the outer Object becomes a Map: its values stay
      plain Objects, which have no `keys` method, so any non-empty Object
      of Objects throws a TypeError, however good its frequencies. */
  lemma NestedObjectThrows(o: Dict<string, Inner>, s: string)
    requires o != [] && forall i :: 0 <= i < |o| ==> o[i].1.ObjectValue?
    ensures Generate(ObjectTarget(o), Text(s)).outcome == Fail(TypeError("kmerCountMap.keys is not a function"))
  {
    assert AsMap(ObjectTarget(o))[0].1 == o[0].1;
  }

  /** The conversion the comment at packages/freqgen-core/generate.js:39
      asks for: inner Objects become Maps as well. */
  function AsMapDeep(target: Target): (m: Dict<FreqKey, Inner>)
    ensures |m| == |AsMap(target)|
    ensures forall i :: 0 <= i < |m| ==> m[i].0 == AsMap(target)[i].0 && m[i].1 == MapValue(EntriesOf(AsMap(target)[i].1))
  {
    var n := AsMap(target);
    seq(|n|, i requires 0 <= i < |n| => (n[i].0, MapValue(EntriesOf(n[i].1))))
  }

  /** The entries of a Map or of an Object. */
  function EntriesOf(v: Inner): Dict<string, real> {
    match v
    case MapValue(m) => m
    case ObjectValue(o) => o
  }

  /** `generate` with the deep conversion. */
  function GenerateDeep(target: Target, aminoAcids: SeqArg): Run {
    match aminoAcids
    case NonText => Run(false, Fail(TypeError("targetAminoAcidSeq.split is not a function")))
    case Text(s) => Run(LooksLikeDna(s), FrequencyMapCheck(AsMapDeep(target)))
  }

  /** With the deep conversion, an Object target is accepted exactly when
      each of its entries, Map or Object, holds one k-mer length and sums
      to 1; a Map of Maps is judged as before. */
  lemma GenerateDeepFacts(target: Target, s: string)
    ensures GenerateDeep(target, Text(s)).outcome.Pass? <==>
              forall i :: 0 <= i < |AsMap(target)| ==> GoodEntry(MapValue(EntriesOf(AsMap(target)[i].1)))
    ensures target.MapTarget? && (forall i :: 0 <= i < |target.m| ==> target.m[i].1.MapValue?) ==>
              GenerateDeep(target, Text(s)) == Generate(target, Text(s))
  {
    FrequencyMapCheckFacts(AsMapDeep(target));
    if target.MapTarget? && (forall i :: 0 <= i < |target.m| ==> target.m[i].1.MapValue?) {
      assert AsMapDeep(target) == AsMap(target);
    }
  }

  /** A well-formed Object of Objects, `{ 1: { A: 0.5, T: 0.5 } }`, throws
      as written and passes once converted deeply. */
  lemma NestedObjectExample()
    ensures Generate(ObjectTarget([("1", ObjectValue([("A", 0.5), ("T", 0.5)]))]), Text("M")).outcome.Fail?
    ensures GenerateDeep(ObjectTarget([("1", ObjectValue([("A", 0.5), ("T", 0.5)]))]), Text("M")).outcome == Pass
  {
    var o := [("1", ObjectValue([("A", 0.5), ("T", 0.5)]))];
    NestedObjectThrows(o, "M");
    HalfAndHalf("A", "T", 0.5);
    var d := AsMapDeep(ObjectTarget(o));
    assert d == [(StrKey("1"), MapValue([("A", 0.5), ("T", 0.5)]))];
    assert d[1..] == [];
    assert EntryCheck(d[0].1) == Pass;
  }
}
