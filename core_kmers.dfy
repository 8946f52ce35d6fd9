/** The k-mer functions of packages/freqgen-core/kmers.js: cutting a
    sequence into k-mers, counting them into a Map, turning the counts into
    frequencies in place, and the shortcut that does all three for several
    k at once.

    `kmerFrequencies` overwrites the Map it is given, so that Map is an
    object here (`KmerMap`, whose one field is its insertion-ordered list
    of entries); the Maps `kmerFrequenciesFromSeq` collects are never
    touched again once built, and are modelled by their entries. */
module CoreKmers {
  import opened Wrappers
  import opened Dicts
  import opened JsKmers
  import Dna
  import Utilities

  // ---------------------------------------------------------------------
  // kmers (kmers.js:3-20)
  // ---------------------------------------------------------------------

  /** `kmers(seq, k, options)`. The options are destructured on entry,
      before the body runs; `k` is undefined or a number. */
  function KmersSpec(s: string, k: Option<int>, options: OptionsArg): Result<seq<string>> {
    match OverlapOf(options)
    case Err(f) => Err(f)
    case Ok(overlap) =>
      if k.None? || k.value < 1 then Err(Thrown("k value >= 0 is required"))
      else if |s| % k.value != 0 && !overlap then
        Err(Thrown("Sequence is not unabiguously divisible into overlapping k-mers."))
      else Produced(s, k.value, overlap)
  }

  method Kmers(s: string, k: Option<int>, options: OptionsArg) returns (r: Result<seq<string>>)
    ensures r == KmersSpec(s, k, options)
  {
    var o := OverlapOf(options);
    if o.Err? {
      return Err(o.failure);
    }
    var overlap := o.value;
    if k.None? || k.value < 1 {
      return Err(Thrown("k value >= 0 is required"));
    }
    if |s| % k.value != 0 && !overlap {
      return Err(Thrown("Sequence is not unabiguously divisible into overlapping k-mers."));
    }
    r := FillKmers(s, k.value, overlap);
  }

  /** The outcomes of `kmers` for a number `k` and an explicit `overlap`:
      it succeeds exactly for `k >= 1` when an overlapping `k` is at most
      `seq.length + 1` and a non-overlapping `k` divides the length; the
      overlapping result is the windows of the sequence, the non-overlapping
      one its `seq.length / k` chunks; every k-mer has length `k`. */
  lemma KmersFacts(s: string, k: int, overlap: bool)
    ensures KmersSpec(s, Some(k), Options(Some(overlap))).Ok? ==>
              k >= 1 && (overlap ==> k <= |s| + 1) && (!overlap ==> |s| % k == 0)
    ensures k >= 1 && (overlap ==> k <= |s| + 1) && (!overlap ==> |s| % k == 0) ==>
              KmersSpec(s, Some(k), Options(Some(overlap))).Ok?
    ensures k < 1 ==> KmersSpec(s, Some(k), Options(Some(overlap))) == Err(Thrown("k value >= 0 is required"))
    ensures k >= 1 && !overlap && |s| % k != 0 ==> KmersSpec(s, Some(k), Options(Some(overlap))).failure.Thrown?
    ensures k > |s| + 1 && overlap ==> KmersSpec(s, Some(k), Options(Some(overlap))) == Err(RangeError("Invalid array length"))
    ensures 1 <= k <= |s| + 1 && overlap ==> KmersSpec(s, Some(k), Options(Some(overlap))) == Ok(Dna.Windows(s, k))
    ensures k >= 1 && !overlap && |s| % k == 0 ==>
              KmersSpec(s, Some(k), Options(Some(overlap))) == Ok(Dna.Chunks(s, k))
              && |Dna.Chunks(s, k)| == |s| / k
    ensures KmersSpec(s, Some(k), Options(Some(overlap))).Ok? ==>
              forall i :: 0 <= i < |KmersSpec(s, Some(k), Options(Some(overlap))).value| ==>
                |KmersSpec(s, Some(k), Options(Some(overlap))).value[i]| == k
  {
    if k >= 1 {
      ProducedRangeErrors(s, k, overlap);
      if overlap && k <= |s| + 1 {
        ProducedWindows(s, k);
      } else if !overlap {
        ProducedChunks(s, k);
      }
    }
  }

  /** An undefined `k` throws; an overlapping `k` of `seq.length + 1`
      gives no k-mers. */
  lemma KmersEdges(s: string, options: OptionsArg)
    requires !options.Null?
    ensures KmersSpec(s, None, options) == Err(Thrown("k value >= 0 is required"))
    ensures KmersSpec(s, Some(|s| + 1), Options(Some(true))) == Ok([])
  {
    ProducedDegenerate(s, 0);
  }

  /** The case of packages/freqgen-core/__tests__/kmers_test.js:11-14,
      here for this module's `kmers`. */
  lemma KmersExampleOverlap()
    ensures KmersSpec("GATTACA", Some(2), Omitted) == Ok(["GA", "AT", "TT", "TA", "AC", "CA"])
  {
    var s := "GATTACA";
    KmersFacts(s, 2, true);
    var w := Dna.Windows(s, 2);
    assert w[0] == "GA" && w[1] == "AT" && w[2] == "TT" && w[3] == "TA" && w[4] == "AC" && w[5] == "CA";
    assert w == ["GA", "AT", "TT", "TA", "AC", "CA"];
  }

  /** The non-overlapping cut of packages/freqgen-core/kmers.js:8-19 on
      the input of packages/freqgen-core/__tests__/kmers_test.js:38-41,
      with `{ overlap: false }` passed as an options object. (The test
      itself passes a positional `false`, which this module reads as
      `overlap = true`.) */
  lemma KmersExampleChunks()
    ensures KmersSpec("GATTACAT", Some(2), Options(Some(false))) == Ok(["GA", "TT", "AC", "AT"])
  {
    var t := "GATTACAT";
    KmersFacts(t, 2, false);
    var c := Dna.Chunks(t, 2);
    assert Dna.Start(1, 2) == 2 && Dna.Start(2, 2) == 4 && Dna.Start(3, 2) == 6;
    assert c[0] == "GA" && c[1] == "TT" && c[2] == "AC" && c[3] == "AT";
    assert c == ["GA", "TT", "AC", "AT"];
  }

  /** The divisibility check of packages/freqgen-core/kmers.js:8-12:
      with `{ overlap: false }` as an options object, "GATTACA" cannot be
      cut into 2-mers. The call of
      packages/freqgen-core/__tests__/kmers_test.js:33-36 passes a
      positional `false` instead, which kmers.js:3 reads as
      `overlap = true`: it gives the six overlapping windows. */
  lemma KmersExampleRemainder()
    ensures KmersSpec("GATTACA", Some(2), Options(Some(false))).Err?
    ensures KmersSpec("GATTACA", Some(2), Primitive) == KmersSpec("GATTACA", Some(2), Omitted)
    ensures KmersSpec("GATTACA", Some(2), Primitive) == Ok(["GA", "AT", "TT", "TA", "AC", "CA"])
  {
    assert |"GATTACA"| % 2 == 1;
    KmersExampleOverlap();
  }

  // ---------------------------------------------------------------------
  // The Map object
  // ---------------------------------------------------------------------

  /** A JavaScript Map from k-mers to numbers. */
  class KmerMap {
    var entries: Dict<string, real>

    /** A Map never holds a key twice. */
    ghost predicate Valid()
      reads this
    {
      DistinctKeys(entries)
    }

    /** `new Map()`. */
    constructor ()
      ensures entries == [] && Valid()
    {
      entries := [];
    }

    /** `map.set(key, value)`: an existing key keeps its place, a new key
        goes last. */
    method Set(key: string, value: real)
      requires Valid()
      modifies this
      ensures entries == Put(old(entries), key, value) && Valid()
    {
      PutFacts(entries, key, value);
      entries := Put(entries, key, value);
    }
  }

  // ---------------------------------------------------------------------
  // kmerCounts (kmers.js:22-37)
  // ---------------------------------------------------------------------

  /** `kmerCounts(kmers)`: a Map of occurrence counts, unless some k-mer's
      length differs from the first one's. */
  function CountsSpec(kmers: seq<string>): Result<Dict<string, real>> {
    if exists i :: 0 <= i < |kmers| && |kmers[i]| != |kmers[0]| then
      Err(Thrown("Not all k-mers are of length k."))
    else Ok(Counts(kmers))
  }

  /** The counting loop; `counts.get(kmer) || 0` is the stored count or 0
      (a stored count is never 0). */
  method KmerCounts(kmers: seq<string>) returns (r: Result<KmerMap>)
    ensures r.Ok? == CountsSpec(kmers).Ok?
    ensures r.Ok? ==> fresh(r.value) && r.value.Valid() && r.value.entries == CountsSpec(kmers).value
    ensures r.Err? ==> r.failure == CountsSpec(kmers).failure
  {
    var counts := new KmerMap();
    var k := if |kmers| > 0 && kmers[0] != "" then |kmers[0]| else 0;
    var i := 0;
    while i < |kmers|
      invariant i <= |kmers|
      invariant forall j :: 0 <= j < i ==> |kmers[j]| == k
      invariant counts.Valid() && counts.entries == Counts(kmers[..i])
    {
      var kmer := kmers[i];
      if |kmer| != k {
        return Err(Thrown("Not all k-mers are of length k."));
      }
      var stored := Get(counts.entries, kmer);
      var previous := if stored.Some? && stored.value != 0.0 then stored.value else 0.0;
      assert previous == GetOr(counts.entries, kmer, 0.0);
      assert kmers[..i + 1][..i] == kmers[..i];
      counts.Set(kmer, previous + 1.0);
      i := i + 1;
    }
    assert kmers[..i] == kmers;
    return Ok(counts);
  }

  /** `kmerCounts` succeeds exactly when all k-mers share one length; each
      distinct k-mer is then a key once, holding its number of occurrences,
      and the counts add up to the number of k-mers. */
  lemma CountsSpecFacts(kmers: seq<string>)
    ensures CountsSpec(kmers).Ok? <==> forall i :: 0 <= i < |kmers| ==> |kmers[i]| == |kmers[0]|
    ensures CountsSpec(kmers).Err? ==> CountsSpec(kmers).failure.Thrown?
    ensures CountsSpec(kmers).Ok? ==>
              var c := CountsSpec(kmers).value;
              DistinctKeys(c) && (forall w :: w in Keys(c) <==> w in kmers)
              && (forall w :: GetOr(c, w, 0.0) == Occ(kmers, w) as real)
              && SumValues(c) == |kmers| as real
  {
    CountsKeys(kmers);
    CountsSum(kmers);
    forall w ensures GetOr(Counts(kmers), w, 0.0) == Occ(kmers, w) as real {
      CountsGet(kmers, w);
    }
  }

  /** Cases of packages/freqgen-core/__tests__/kmerCounts_test.js:5-22. */
  lemma CountsExamples()
    ensures CountsSpec([]) == Ok([])
    ensures CountsSpec(["A"]) == Ok([("A", 1.0)])
    ensures CountsSpec(["A", "T"]) == Ok([("A", 1.0), ("T", 1.0)])
    ensures CountsSpec(["A", "A"]) == Ok([("A", 2.0)])
    ensures CountsSpec(["A", "AA"]).Err?
  {
    assert ["A"][..0] == [];
    assert Counts(["A"]) == [("A", 1.0)];
    var one := [("A", 1.0)];
    assert Keys(one) == ["A"];
    assert ["A", "T"][..1] == ["A"];
    assert "T" !in Keys(one);
    assert Put(one, "T", GetOr(one, "T", 0.0) + 1.0) == one + [("T", 1.0)];
    assert Counts(["A", "T"]) == [("A", 1.0), ("T", 1.0)];
    assert ["A", "A"][..1] == ["A"];
    assert IndexOf(Keys(one), "A") == 0;
    assert GetOr(one, "A", 0.0) == 1.0;
    assert Counts(["A", "A"]) == [("A", 2.0)];
    assert |["A", "AA"][1]| != |["A", "AA"][0]|;
  }

  // ---------------------------------------------------------------------
  // kmerFrequencies (kmers.js:39-57)
  // ---------------------------------------------------------------------

  /** The entries `kmerFrequencies(counts, { validation })` leaves in the
      Map it returns. */
  function FrequenciesSpec(counts: Dict<string, real>, validation: bool): Result<Dict<string, real>>
    requires counts == [] || SumValues(counts) != 0.0
  {
    if validation && counts == [] then Ok([])
    else if validation && Utilities.KeyLengthCheck(Keys(counts)).Fail? then
      Err(Utilities.KeyLengthCheck(Keys(counts)).failure)
    else Ok(Divide(counts, SumValues(counts)))
  }

  /** A Map's keys are distinct, so a key is found at its own index. */
  lemma IndexOfOwnKey(d: Dict<string, real>, i: nat)
    requires DistinctKeys(d) && i < |d|
    ensures d[i].0 in Keys(d) && IndexOf(Keys(d), d[i].0) == i
  {
    assert Keys(d)[i] == d[i].0;
    var j := IndexOf(Keys(d), d[i].0);
    assert Keys(d)[j] == Keys(d)[i];
  }

  /** Validation (unless switched off), the sum, then the `forEach` that
      overwrites every value with its share of the total. With validation
      an empty Map gives a new empty Map; otherwise the Map given is the
      Map returned. A total of 0 on a non-empty Map (division by zero:
      NaN for a zero value, Infinity or -Infinity for any other, in
      JavaScript) is not modelled. */
  method KmerFrequencies(counts: KmerMap, validation: bool) returns (r: Result<KmerMap>)
    requires counts.Valid()
    requires counts.entries == [] || SumValues(counts.entries) != 0.0
    modifies counts
    ensures r.Ok? == FrequenciesSpec(old(counts.entries), validation).Ok?
    ensures r.Ok? ==> r.value.Valid() && r.value.entries == FrequenciesSpec(old(counts.entries), validation).value
    ensures r.Err? ==> r.failure == FrequenciesSpec(old(counts.entries), validation).failure
    ensures validation && old(counts.entries) == [] ==> r.Ok? && fresh(r.value)
    ensures r.Ok? && !(validation && old(counts.entries) == []) ==> r.value == counts
    ensures r.Err? ==> counts.entries == old(counts.entries)
    ensures validation && old(counts.entries) == [] ==> counts.entries == old(counts.entries)
  {
    if validation {
      if |counts.entries| == 0 {
        var empty := new KmerMap();
        return Ok(empty);
      }
      var check := Utilities.ValidateKmerCountMap(counts.entries);
      if check.Fail? {
        return Err(check.failure);
      }
    }
    var total := Utilities.SumMapValues(counts.entries);
    ghost var before := counts.entries;
    var i := 0;
    while i < |counts.entries|
      invariant |counts.entries| == |before| && i <= |before|
      invariant forall j :: 0 <= j < i ==> counts.entries[j] == (before[j].0, before[j].1 / total)
      invariant forall j :: i <= j < |before| ==> counts.entries[j] == before[j]
      invariant Keys(counts.entries) == Keys(before) && counts.Valid()
      decreases |before| - i
    {
      var (k, v) := counts.entries[i];
      IndexOfOwnKey(counts.entries, i);
      counts.Set(k, v / total);
      i := i + 1;
    }
    assert counts.entries == Divide(before, total);
    return Ok(counts);
  }

  lemma SelfQuotient(t: real)
    requires t != 0.0
    ensures t / t == 1.0
  {
  }

  /** `kmerFrequencies` fails only with validation on, on a non-empty Map
      whose keys differ in length; it keeps the keys, gives every key its
      count divided by the total, and the values of a non-empty result sum
      to 1. */
  lemma FrequenciesFacts(counts: Dict<string, real>, validation: bool, w: string)
    requires counts == [] || SumValues(counts) != 0.0
    ensures FrequenciesSpec(counts, validation).Err? <==>
              validation && counts != []
              && exists i :: 0 <= i < |counts| && |counts[i].0| != |counts[0].0|
    ensures FrequenciesSpec(counts, validation).Ok? ==>
              Keys(FrequenciesSpec(counts, validation).value) == Keys(counts)
              && (counts != [] ==> GetOr(FrequenciesSpec(counts, validation).value, w, 0.0) == GetOr(counts, w, 0.0) / SumValues(counts))
              && (counts != [] ==> SumValues(FrequenciesSpec(counts, validation).value) == 1.0)
  {
    if counts != [] {
      var t := SumValues(counts);
      DivideFacts(counts, t);
      DivideGetOr(counts, t, w);
      SelfQuotient(t);
      MixedLengths(counts);
    }
  }

  /** The validator rejects a non-empty Map exactly when some key's length
      differs from the first key's. */
  lemma MixedLengths(counts: Dict<string, real>)
    requires counts != []
    ensures Utilities.KeyLengthCheck(Keys(counts)).Fail? <==>
              exists i :: 0 <= i < |counts| && |counts[i].0| != |counts[0].0|
  {
    var ks := Keys(counts);
    if exists i :: 0 <= i < |counts| && |counts[i].0| != |counts[0].0| {
      var i :| 0 <= i < |counts| && |counts[i].0| != |counts[0].0|;
      assert 1 <= i && |ks[i]| != |ks[0]|;
    }
    if Utilities.KeyLengthCheck(ks).Fail? {
      var i :| 1 <= i < |ks| && |ks[i]| != |ks[0]|;
      assert |counts[i].0| != |counts[0].0|;
    }
  }

  /** Cases of packages/freqgen-core/__tests__/kmerFrequencies_test.js:9-27,
      here for this module's `kmerFrequencies`. */
  lemma FrequenciesExamples()
    ensures FrequenciesSpec([], true) == Ok([])
    ensures FrequenciesSpec([("A", 1.0)], true) == Ok([("A", 1.0)])
    ensures FrequenciesSpec([("A", 1.0), ("T", 1.0)], true) == Ok([("A", 0.5), ("T", 0.5)])
    ensures FrequenciesSpec([("A", 1.0), ("AA", 1.0)], true).Err?
    ensures FrequenciesSpec([("A", 1.0), ("AA", 1.0)], false) == Ok([("A", 0.5), ("AA", 0.5)])
  {
    OneAndOne("A", "T");
    OneAndOne("A", "AA");
    assert Values([("A", 1.0)]) == [1.0];
    assert [1.0][1..] == [];
    assert SumValues([("A", 1.0)]) == 1.0;
    assert Divide([("A", 1.0)], 1.0)[0] == ("A", 1.0);
    assert Divide([("A", 1.0)], 1.0) == [("A", 1.0)];
    assert Keys([("A", 1.0), ("T", 1.0)]) == ["A", "T"];
    assert Keys([("A", 1.0), ("AA", 1.0)]) == ["A", "AA"];
    assert |["A", "AA"][1]| != |["A", "AA"][0]|;
  }

  lemma OneAndOne(a: string, b: string)
    ensures SumValues([(a, 1.0), (b, 1.0)]) == 2.0
    ensures Divide([(a, 1.0), (b, 1.0)], 2.0) == [(a, 0.5), (b, 0.5)]
  {
    var d := [(a, 1.0), (b, 1.0)];
    assert Values(d) == [1.0, 1.0];
    assert Values(d)[1..] == [1.0];
    assert [1.0][1..] == [];
    assert SumReals([1.0]) == 1.0;
    assert SumReals(Values(d)) == 1.0 + SumReals([1.0]);
    var q := Divide(d, 2.0);
    assert q[0] == (a, 0.5) && q[1] == (b, 0.5);
    assert q == [(a, 0.5), (b, 0.5)];
  }

  // ---------------------------------------------------------------------
  // kmerFrequenciesFromSeq (kmers.js:60-80)
  // ---------------------------------------------------------------------

  /** An element of the `k` list: a number, or `'codons'`. */
  datatype Request = Num(n: int) | CodonsRequest

  /** The key a request is stored under: `'codons'` becomes 3. */
  function RequestK(q: Request): int {
    if q.CodonsRequest? then 3 else q.n
  }

  function RequestOverlap(q: Request): bool {
    q.Num?
  }

  /** The Map one request produces: k-mer frequencies, each k-mer's count
      over the number of k-mers. */
  function RequestFrequencies(s: string, q: Request): Result<Dict<string, real>> {
    match KmersSpec(s, Some(RequestK(q)), Options(Some(RequestOverlap(q))))
    case Err(f) => Err(f)
    case Ok(xs) => Ok(Divide(Counts(xs), |xs| as real))
  }

  function FromSeqSpec(s: string, ks: seq<Request>): Result<Dict<int, Dict<string, real>>> {
    if ks == [] then Ok([])
    else
      match FromSeqSpec(s, ks[..|ks| - 1])
      case Err(f) => Err(f)
      case Ok(acc) =>
        match RequestFrequencies(s, ks[|ks| - 1])
        case Err(f) => Err(f)
        case Ok(fr) => Ok(Put(acc, RequestK(ks[|ks| - 1]), fr))
  }

  /** The request loop: each request's k-mers are counted and turned into
      frequencies without validation, and stored in the result. */
  method KmerFrequenciesFromSeq(s: string, ks: seq<Request>) returns (r: Result<Dict<int, Dict<string, real>>>)
    ensures r == FromSeqSpec(s, ks)
  {
    var result: Dict<int, Dict<string, real>> := [];
    for i := 0 to |ks|
      invariant FromSeqSpec(s, ks[..i]) == Ok(result)
    {
      var q := ks[i];
      var k := if q.CodonsRequest? then 3 else q.n;
      var overlap := q.Num?;
      var xs := Kmers(s, Some(k), Options(Some(overlap)));
      if xs.Err? {
        FromSeqStep(s, ks, i);
        FromSeqErrSticky(s, ks, i + 1);
        return Err(xs.failure);
      }
      KmersFacts(s, k, overlap);
      CountedFrequencies(xs.value, k);
      var counts := KmerCounts(xs.value);
      var freqs := KmerFrequencies(counts.value, false);
      FromSeqStep(s, ks, i);
      result := Put(result, k, freqs.value.entries);
    }
    assert ks[..|ks|] == ks;
    return Ok(result);
  }

  /** One more request extends the result, or stops it. */
  lemma FromSeqStep(s: string, ks: seq<Request>, i: nat)
    requires i < |ks|
    ensures FromSeqSpec(s, ks[..i + 1]) ==
              match FromSeqSpec(s, ks[..i])
              case Err(f) => Err(f)
              case Ok(acc) =>
                match RequestFrequencies(s, ks[i])
                case Err(f) => Err(f)
                case Ok(fr) => Ok(Put(acc, RequestK(ks[i]), fr))
  {
    assert ks[..i + 1][..i] == ks[..i];
  }

  /** Once a request has thrown, later ones do not run. */
  lemma {:induction false} FromSeqErrSticky(s: string, ks: seq<Request>, i: nat)
    requires i <= |ks| && FromSeqSpec(s, ks[..i]).Err?
    ensures FromSeqSpec(s, ks) == FromSeqSpec(s, ks[..i])
    decreases |ks| - i
  {
    if i == |ks| {
      assert ks[..i] == ks;
    } else {
      FromSeqStep(s, ks, i);
      FromSeqErrSticky(s, ks, i + 1);
    }
  }

  /** What counting and normalising k-mers of one length give: no
      validation error and, since the counts add up to the number of
      k-mers, each count over that number. */
  lemma CountedFrequencies(xs: seq<string>, k: int)
    requires forall i :: 0 <= i < |xs| ==> |xs[i]| == k
    ensures CountsSpec(xs) == Ok(Counts(xs)) && DistinctKeys(Counts(xs))
    ensures Counts(xs) == [] || SumValues(Counts(xs)) != 0.0
    ensures Counts(xs) == [] ==> xs == []
    ensures FrequenciesSpec(Counts(xs), false) == Ok(Divide(Counts(xs), |xs| as real))
  {
    CountsKeys(xs);
    CountsSum(xs);
    if xs != [] {
      assert xs[0] in Keys(Counts(xs));
    }
  }

  /** The frequencies one request gives: for `'codons'`, the non-overlapping
      3-mers of a sequence whose length is a multiple of 3; the keys are the
      distinct k-mers, each holding its share, and they sum to 1. */
  lemma RequestFrequenciesFacts(s: string, q: Request, w: string)
    ensures q.CodonsRequest? ==>
              RequestFrequencies(s, q).Ok? == (|s| % 3 == 0)
              && (|s| % 3 == 0 ==> RequestFrequencies(s, q) == Ok(Divide(Counts(Dna.Chunks(s, 3)), (|s| / 3) as real)))
    ensures RequestFrequencies(s, q).Ok? ==>
              var xs := KmersSpec(s, Some(RequestK(q)), Options(Some(RequestOverlap(q)))).value;
              var f := RequestFrequencies(s, q).value;
              DistinctKeys(f) && (forall x :: x in Keys(f) <==> x in xs)
              && (xs != [] ==> GetOr(f, w, 0.0) == (Occ(xs, w) as real) / (|xs| as real))
              && (xs != [] ==> SumValues(f) == 1.0)
  {
    KmersFacts(s, RequestK(q), RequestOverlap(q));
    var o := KmersSpec(s, Some(RequestK(q)), Options(Some(RequestOverlap(q))));
    if o.Ok? {
      var xs := o.value;
      CountsKeys(xs);
      if xs != [] {
        var t := |xs| as real;
        CountsGet(xs, w);
        CountsSum(xs);
        DivideFacts(Counts(xs), t);
        DivideGetOr(Counts(xs), t, w);
        SelfQuotient(t);
        assert Keys(Divide(Counts(xs), t)) == Keys(Counts(xs));
      } else {
        assert Counts(xs) == [];
      }
    }
  }

  /** `kmerFrequenciesFromSeq` fails exactly when some request's `kmers`
      call throws. */
  lemma {:induction false} FromSeqOk(s: string, ks: seq<Request>)
    ensures FromSeqSpec(s, ks).Ok? ==> forall i :: 0 <= i < |ks| ==> RequestFrequencies(s, ks[i]).Ok?
    ensures (forall i :: 0 <= i < |ks| ==> RequestFrequencies(s, ks[i]).Ok?) ==> FromSeqSpec(s, ks).Ok?
  {
    if ks != [] {
      var init := ks[..|ks| - 1];
      FromSeqOk(s, init);
      assert forall i :: 0 <= i < |init| ==> init[i] == ks[i];
      if FromSeqSpec(s, ks).Ok? {
        assert FromSeqSpec(s, init).Ok?;
      }
    }
  }

  /** The result holds one entry per distinct requested k: `'codons'` is
      stored under 3. */
  lemma {:induction false} FromSeqKeys(s: string, ks: seq<Request>)
    requires FromSeqSpec(s, ks).Ok?
    ensures DistinctKeys(FromSeqSpec(s, ks).value)
    ensures forall x :: x in Keys(FromSeqSpec(s, ks).value) <==> exists i :: 0 <= i < |ks| && RequestK(ks[i]) == x
  {
    if ks != [] {
      var init := ks[..|ks| - 1];
      var q := ks[|ks| - 1];
      FromSeqKeys(s, init);
      var acc := FromSeqSpec(s, init).value;
      var r := FromSeqSpec(s, ks).value;
      assert r == Put(acc, RequestK(q), RequestFrequencies(s, q).value);
      PutFacts(acc, RequestK(q), RequestFrequencies(s, q).value);
      forall x ensures x in Keys(r) <==> exists i :: 0 <= i < |ks| && RequestK(ks[i]) == x {
        if x == RequestK(q) {
          assert RequestK(ks[|ks| - 1]) == x;
        } else if exists i :: 0 <= i < |ks| && RequestK(ks[i]) == x {
          var i :| 0 <= i < |ks| && RequestK(ks[i]) == x;
          assert i < |init| && RequestK(init[i]) == x;
        } else {
          assert forall i :: 0 <= i < |init| ==> RequestK(init[i]) != x;
        }
      }
    }
  }

  /** A key holds the frequencies of the last request stored under it. */
  lemma {:induction false} FromSeqValues(s: string, ks: seq<Request>, i: nat)
    requires FromSeqSpec(s, ks).Ok? && i < |ks|
    requires forall j :: i < j < |ks| ==> RequestK(ks[j]) != RequestK(ks[i])
    ensures RequestFrequencies(s, ks[i]).Ok?
    ensures Get(FromSeqSpec(s, ks).value, RequestK(ks[i])) == Some(RequestFrequencies(s, ks[i]).value)
  {
    var init := ks[..|ks| - 1];
    var q := ks[|ks| - 1];
    var acc := FromSeqSpec(s, init).value;
    PutFacts(acc, RequestK(q), RequestFrequencies(s, q).value);
    if i < |init| {
      assert RequestK(q) != RequestK(ks[i]);
      assert init[i] == ks[i];
      assert forall j :: i < j < |init| ==> init[j] == ks[j];
      FromSeqValues(s, init, i);
    }
  }

  /** The case of packages/freqgen-core/__tests__/kmerFrequenciesFromSeq_test.js:13-19:
      `'ATGC'` with k = 1 and k = 4 gives the keys 1 and 4, the 4-mer
      `'ATGC'` with frequency 1, and the four bases a quarter each. */
  lemma FromSeqExample()
    ensures FromSeqSpec("ATGC", [Num(1), Num(4)]).Ok?
    ensures Keys(FromSeqSpec("ATGC", [Num(1), Num(4)]).value) == [1, 4]
    ensures Get(FromSeqSpec("ATGC", [Num(1), Num(4)]).value, 4) == Some([("ATGC", 1.0)])
    ensures Get(FromSeqSpec("ATGC", [Num(1), Num(4)]).value, 1) == Some([("A", 0.25), ("T", 0.25), ("G", 0.25), ("C", 0.25)])
  {
    var s := "ATGC";
    var ks := [Num(1), Num(4)];
    ATGCFourMer();
    ATGCOneMer();
    KmersFacts(s, 1, true);
    var fr1 := RequestFrequencies(s, Num(1)).value;
    var fr4 := [("ATGC", 1.0)];
    assert ks[..0] == [] && ks[..2] == ks && ks[0] == Num(1) && ks[1] == Num(4);
    FromSeqStep(s, ks, 0);
    assert Put([], 1, fr1) == [(1, fr1)];
    assert FromSeqSpec(s, ks[..1]) == Ok([(1, fr1)]);
    FromSeqStep(s, ks, 1);
    assert Keys([(1, fr1)]) == [1];
    assert Put([(1, fr1)], 4, fr4) == [(1, fr1), (4, fr4)];
    var r := [(1, fr1), (4, fr4)];
    assert FromSeqSpec(s, ks) == Ok(r);
    assert Keys(r) == [1, 4];
    assert IndexOf(Keys(r), 4) == 1;
  }

  lemma ATGCOneMer()
    ensures RequestFrequencies("ATGC", Num(1)) == Ok([("A", 0.25), ("T", 0.25), ("G", 0.25), ("C", 0.25)])
  {
    var s := "ATGC";
    KmersFacts(s, 1, true);
    var w := Dna.Windows(s, 1);
    assert w[0] == "A" && w[1] == "T" && w[2] == "G" && w[3] == "C";
    assert w == ["A", "T", "G", "C"];
    var c := [("A", 1.0), ("T", 1.0), ("G", 1.0), ("C", 1.0)];
    CountsOfBases();
    assert |w| as real == 4.0;
    var d := Divide(c, 4.0);
    assert d[0] == ("A", 0.25) && d[1] == ("T", 0.25) && d[2] == ("G", 0.25) && d[3] == ("C", 0.25);
    assert d == [("A", 0.25), ("T", 0.25), ("G", 0.25), ("C", 0.25)];
  }

  lemma CountsOfBases()
    ensures Counts(["A", "T", "G", "C"]) == [("A", 1.0), ("T", 1.0), ("G", 1.0), ("C", 1.0)]
  {
    var w := ["A", "T", "G", "C"];
    assert w[..3] == ["A", "T", "G"] && w[..3][..2] == ["A", "T"] && w[..3][..2][..1] == ["A"];
    assert ["A"][..0] == [];
    assert Counts(["A"]) == [("A", 1.0)];
    assert Counts(["A", "T"]) == [("A", 1.0), ("T", 1.0)];
    assert Counts(["A", "T", "G"]) == [("A", 1.0), ("T", 1.0), ("G", 1.0)];
  }

  lemma ATGCFourMer()
    ensures RequestFrequencies("ATGC", Num(4)) == Ok([("ATGC", 1.0)])
  {
    var s := "ATGC";
    KmersFacts(s, 4, true);
    var w4 := Dna.Windows(s, 4);
    assert w4[0] == s[0..4] == s;
    assert w4 == ["ATGC"];
    assert ["ATGC"][..0] == [];
    assert Counts(["ATGC"]) == [("ATGC", 1.0)];
    assert Divide([("ATGC", 1.0)], 1.0)[0] == ("ATGC", 1.0);
    assert Divide([("ATGC", 1.0)], 1.0) == [("ATGC", 1.0)];
    assert |w4| as real == 1.0;
  }
}
