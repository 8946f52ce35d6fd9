/** The object-based k-mer functions of packages/freqgen-core/index.js:
    `kmers` with an options object and a check on `k` but none on the
    length, `kmerCounts` into a plain object with a length check, and
    `kmerFrequencies` with an optional length validation before a
    `mapValues`.

    The counts object is local to `kmerCounts` and `kmerFrequencies`
    returns a new object, so both are values here; nothing an argument
    holds is changed. */
module CoreIndex {
  import opened Wrappers
  import opened Dicts
  import opened JsKmers
  import Dna
  import CoreKmers
  import LegacyIndex

  // ---------------------------------------------------------------------
  // kmers (index.js:11-23)
  // ---------------------------------------------------------------------

  /** `kmers(seq, k, { overlap = true } = {})`. */
  function KmersSpec(s: string, k: Option<int>, options: OptionsArg): Result<seq<string>> {
    match OverlapOf(options)
    case Err(f) => Err(f)
    case Ok(overlap) =>
      if k.None? || k.value < 1 then Err(Thrown("k value >= 0 is required"))
      else Produced(s, k.value, overlap)
  }

  method Kmers(s: string, k: Option<int>, options: OptionsArg) returns (r: Result<seq<string>>)
    ensures r == KmersSpec(s, k, options)
  {
    var o := OverlapOf(options);
    if o.Err? {
      return Err(o.failure);
    }
    if k.None? || k.value < 1 {
      return Err(Thrown("k value >= 0 is required"));
    }
    r := FillKmers(s, k.value, o.value);
  }

  /** A missing or non-positive `k` throws; overlapping cuts are the
      windows (or a RangeError above `seq.length + 1`); non-overlapping cuts
      are the `floor(seq.length / k)` chunks, the remainder dropped without
      complaint. Where the length is a multiple of `k`, or the cut overlaps,
      this agrees with the Map-based `kmers` of kmers.js. */
  lemma KmersFacts(s: string, k: int, overlap: bool)
    ensures k < 1 ==> KmersSpec(s, Some(k), Options(Some(overlap))) == Err(Thrown("k value >= 0 is required"))
    ensures 1 <= k <= |s| + 1 && overlap ==> KmersSpec(s, Some(k), Options(Some(overlap))) == Ok(Dna.Windows(s, k))
    ensures k > |s| + 1 && overlap ==> KmersSpec(s, Some(k), Options(Some(overlap))) == Err(RangeError("Invalid array length"))
    ensures k >= 1 && !overlap ==>
              KmersSpec(s, Some(k), Options(Some(overlap))) == Ok(Dna.Chunks(s, k)) && |Dna.Chunks(s, k)| == |s| / k
    ensures k >= 1 && (overlap || |s| % k == 0) ==>
              KmersSpec(s, Some(k), Options(Some(overlap))) == CoreKmers.KmersSpec(s, Some(k), Options(Some(overlap)))
  {
    if k >= 1 {
      ProducedRangeErrors(s, k, overlap);
      if overlap && k <= |s| + 1 {
        ProducedWindows(s, k);
      } else if !overlap {
        ProducedChunks(s, k);
      }
    }
  }

  /** A positional `false` (`kmers(seq, k, overlap = false)`, as in
      packages/freqgen-core/__tests__/kmers_test.js:29-51) is not an options
      object: the destructuring reads `overlap` from the boxed boolean,
      finds nothing, and cuts overlapping windows. */
  lemma PositionalFalseOverlaps(s: string, k: Option<int>)
    ensures KmersSpec(s, k, Primitive) == KmersSpec(s, k, Options(Some(true)))
    ensures KmersSpec(s, k, Primitive) == KmersSpec(s, k, Omitted)
  {
  }

  /** So the call of packages/freqgen-core/__tests__/kmers_test.js:33-36
      gives the six windows of `'GATTACA'`, not three chunks. */
  lemma PositionalFalseExample()
    ensures KmersSpec("GATTACA", Some(2), Primitive) == Ok(["GA", "AT", "TT", "TA", "AC", "CA"])
  {
    CoreKmers.KmersExampleOverlap();
    KmersFacts("GATTACA", 2, true);
    CoreKmers.KmersFacts("GATTACA", 2, true);
  }

  // ---------------------------------------------------------------------
  // kmerCounts (index.js:25-38)
  // ---------------------------------------------------------------------

  /** The counting loop into a plain object, throwing at the first k-mer
      whose length differs from the first one's. It computes what the
      Map-based `kmerCounts` of kmers.js computes. The object is modelled
      in insertion order, which JavaScript keeps only for keys that are
      neither array indices ("1") nor inherited property names
      ("constructor"); DNA k-mers never are. */
  method KmerCounts(kmers: seq<string>) returns (r: Result<Dict<string, real>>)
    ensures r == CoreKmers.CountsSpec(kmers)
  {
    var counts: Dict<string, real> := [];
    var k := if |kmers| > 0 && kmers[0] != "" then |kmers[0]| else 0;
    var i := 0;
    while i < |kmers|
      invariant i <= |kmers|
      invariant forall j :: 0 <= j < i ==> |kmers[j]| == k
      invariant counts == Counts(kmers[..i])
    {
      var kmer := kmers[i];
      if |kmer| != k {
        return Err(Thrown("Not all k-mers are of length k."));
      }
      var stored := Get(counts, kmer);
      var previous := if stored.Some? && stored.value != 0.0 then stored.value else 0.0;
      assert previous == GetOr(counts, kmer, 0.0);
      assert kmers[..i + 1][..i] == kmers[..i];
      counts := Put(counts, kmer, previous + 1.0);
      i := i + 1;
    }
    assert kmers[..i] == kmers;
    return Ok(counts);
  }

  // ---------------------------------------------------------------------
  // kmerFrequencies (index.js:40-60)
  // ---------------------------------------------------------------------

  /** `kmerFrequencies(counts, { validation })`: with validation, a key
      whose length differs from the first key's throws (an empty object has
      no first key and passes); then `_.mapValues` divides by the total. */
  function FrequenciesSpec(counts: Dict<string, real>, validation: bool): Result<Dict<string, real>>
    requires counts == [] || SumValues(counts) != 0.0
  {
    if validation && exists i :: 0 <= i < |counts| && |counts[i].0| != |counts[0].0| then
      Err(Thrown("Not all k-mers are of length k."))
    else Ok(LegacyIndex.KmerFrequencies(counts))
  }

  /** The validation loop over `Object.keys(counts)`, then the new object. */
  method KmerFrequencies(counts: Dict<string, real>, validation: bool) returns (r: Result<Dict<string, real>>)
    requires counts == [] || SumValues(counts) != 0.0
    ensures r == FrequenciesSpec(counts, validation)
  {
    if validation {
      var kmers := Keys(counts);
      var i := 0;
      while i < |kmers|
        invariant i <= |kmers|
        invariant forall j :: 0 <= j < i ==> |counts[j].0| == |counts[0].0|
      {
        if |kmers[i]| != |kmers[0]| {
          return Err(Thrown("Not all k-mers are of length k."));
        }
        i := i + 1;
      }
    }
    return Ok(LegacyIndex.KmerFrequencies(counts));
  }

  /** The object version and the Map version of `kmerFrequencies` agree on
      every input: both reject exactly the non-empty inputs of mixed key
      lengths (when validating), and both give each key its share of the
      total. An empty input gives an empty result either way. */
  lemma FrequenciesAgree(counts: Dict<string, real>, validation: bool)
    requires counts == [] || SumValues(counts) != 0.0
    ensures FrequenciesSpec(counts, validation).Ok? == CoreKmers.FrequenciesSpec(counts, validation).Ok?
    ensures FrequenciesSpec(counts, validation).Ok? ==>
              FrequenciesSpec(counts, validation).value == CoreKmers.FrequenciesSpec(counts, validation).value
  {
    if counts != [] {
      CoreKmers.MixedLengths(counts);
    } else {
      assert Divide(counts, SumValues(counts)) == [];
    }
  }

  /** With validation off, mixed lengths are accepted:
      packages/freqgen-core/__tests__/kmerFrequencies_test.js:25-27; with it
      on they throw (lines 21-23). */
  lemma FrequenciesValidationExample()
    ensures FrequenciesSpec([("A", 1.0), ("AA", 1.0)], false) == Ok([("A", 0.5), ("AA", 0.5)])
    ensures FrequenciesSpec([("A", 1.0), ("AA", 1.0)], true).Err?
  {
    CoreKmers.OneAndOne("A", "AA");
    assert |[("A", 1.0), ("AA", 1.0)][1].0| != |[("A", 1.0), ("AA", 1.0)][0].0|;
  }
}
