/** The first JavaScript version of the k-mer functions (index.js): `kmers`
    with a positional `overlap` flag and no check on `k` beyond its
    presence, `kmerCounts` over a plain object with no length check, and
    `kmerFrequencies` as a `mapValues` over that object.

    The counts object is local to `kmerCounts` and the object
    `kmerFrequencies` returns is new, so both are modelled as values. */
module LegacyIndex {
  import opened Wrappers
  import opened Dicts
  import opened JsKmers
  import Dna

  // ---------------------------------------------------------------------
  // kmers (index.js:5-17)
  // ---------------------------------------------------------------------

  /** `kmers(seq, k, overlap = true)`: `k == null` throws; any number goes
      on to the allocation and the loop. */
  function KmersSpec(s: string, k: Option<int>, overlap: bool): Result<seq<string>>
    requires k.Some? ==> Terminates(s, k.value, overlap)
  {
    if k.None? then Err(Thrown("k value is required"))
    else Produced(s, k.value, overlap)
  }

  /** The non-overlapping cut of the empty string with a negative `k` never
      returns, so it is excluded. */
  method Kmers(s: string, k: Option<int>, overlap: bool) returns (r: Result<seq<string>>)
    requires k.Some? ==> Terminates(s, k.value, overlap)
    ensures r == KmersSpec(s, k, overlap)
  {
    if k.None? {
      return Err(Thrown("k value is required"));
    }
    r := FillKmers(s, k.value, overlap);
  }

  /** Only a missing `k` throws; an overlapping `k` up to `seq.length + 1`
      gives the windows `substring(i, i + k)`; a positive non-overlapping `k`
      gives the `floor(seq.length / k)` chunks at multiples of `k`, dropping
      the remainder; the allocation rejects an overlapping `k` above
      `seq.length + 1` and a non-overlapping `k` of 0 or less. */
  lemma KmersFacts(s: string, k: int, overlap: bool)
    requires Terminates(s, k, overlap)
    ensures KmersSpec(s, None, overlap).failure.Thrown?
    ensures KmersSpec(s, Some(k), overlap).Err? ==>
              KmersSpec(s, Some(k), overlap) == Err(RangeError("Invalid array length"))
    ensures KmersSpec(s, Some(k), overlap).Err? <==> (overlap && k > |s| + 1) || (!overlap && k <= 0)
    ensures overlap && 0 <= k <= |s| + 1 ==> KmersSpec(s, Some(k), overlap) == Ok(Dna.Windows(s, k))
    ensures !overlap && k >= 1 ==>
              KmersSpec(s, Some(k), overlap) == Ok(Dna.Chunks(s, k)) && |Dna.Chunks(s, k)| == |s| / k
  {
    ProducedRangeErrors(s, k, overlap);
    if overlap && 0 <= k <= |s| + 1 {
      ProducedWindows(s, k);
    } else if !overlap && k >= 1 {
      ProducedChunks(s, k);
    }
  }

  /** The cases of test/test_kmers.js:19-22 and 46-49: windows of
      `'GATTACA'`, and its non-overlapping 3-mers `GAT`, `TAC`. */
  lemma KmersExampleOverlap()
    ensures KmersSpec("GATTACA", Some(3), true) == Ok(["GAT", "ATT", "TTA", "TAC", "ACA"])
  {
    var s := "GATTACA";
    KmersFacts(s, 3, true);
    var w := Dna.Windows(s, 3);
    assert |w| == 5;
    assert w[0] == s[0..3] == "GAT";
    assert w[1] == s[1..4] == "ATT";
    assert w[2] == s[2..5] == "TTA";
    assert w[3] == s[3..6] == "TAC";
    assert w[4] == s[4..7] == "ACA";
    assert w == ["GAT", "ATT", "TTA", "TAC", "ACA"];
  }

  lemma KmersExampleChunks()
    ensures KmersSpec("GATTACA", Some(3), false) == Ok(["GAT", "TAC"])
  {
    var s := "GATTACA";
    KmersFacts(s, 3, false);
    var c := Dna.Chunks(s, 3);
    assert Dna.Start(1, 3) == 3;
    assert c[0] == "GAT" && c[1] == "TAC";
    assert c == ["GAT", "TAC"];
  }

  // ---------------------------------------------------------------------
  // kmerCounts (index.js:19-27)
  // ---------------------------------------------------------------------

  /** The counting loop: `counts[kmer] || 0` is the stored count, or 0 for a
      k-mer not yet seen. Each distinct k-mer becomes a key once, in order of
      first occurrence, holding its number of occurrences; the counts add up
      to the number of k-mers. That order, and the `|| 0` default, hold for
      keys that are neither array indices ("1") nor inherited property
      names ("constructor"), as DNA k-mers are; other keys are not
      modelled. */
  method KmerCounts(kmers: seq<string>) returns (counts: Dict<string, real>)
    ensures counts == Counts(kmers)
    ensures DistinctKeys(counts) && forall w :: w in Keys(counts) <==> w in kmers
    ensures forall w :: GetOr(counts, w, 0.0) == Occ(kmers, w) as real
    ensures SumValues(counts) == |kmers| as real
  {
    counts := [];
    var i := 0;
    while i < |kmers|
      invariant i <= |kmers|
      invariant counts == Counts(kmers[..i])
    {
      var kmer := kmers[i];
      var stored := Get(counts, kmer);
      var previous := if stored.Some? && stored.value != 0.0 then stored.value else 0.0;
      assert previous == GetOr(counts, kmer, 0.0);
      assert kmers[..i + 1][..i] == kmers[..i];
      counts := Put(counts, kmer, previous + 1.0);
      i := i + 1;
    }
    assert kmers[..i] == kmers;
    CountsKeys(kmers);
    CountsSum(kmers);
    forall w ensures GetOr(counts, w, 0.0) == Occ(kmers, w) as real {
      CountsGet(kmers, w);
    }
  }

  // ---------------------------------------------------------------------
  // kmerFrequencies (index.js:29-32)
  // ---------------------------------------------------------------------

  /** `_.mapValues(counts, x => x / totalKmers)` with the total of all
      values: a new object with the same keys, each value its share of the
      total, the shares adding up to 1. A total of 0 on a non-empty object
      (NaN for a zero value, Infinity or -Infinity for any other, in
      JavaScript) is not modelled. */
  function KmerFrequencies(counts: Dict<string, real>): (r: Dict<string, real>)
    requires counts == [] || SumValues(counts) != 0.0
    ensures Keys(r) == Keys(counts)
    ensures counts != [] ==> forall w :: GetOr(r, w, 0.0) == GetOr(counts, w, 0.0) / SumValues(counts)
    ensures counts != [] ==> SumValues(r) == 1.0
    ensures counts == [] ==> r == []
  {
    var t := SumValues(counts);
    var r := Divide(counts, t);
    if counts != [] then
      DivideFacts(counts, t);
      QuotientOfTotal(t);
      assert forall w :: GetOr(r, w, 0.0) == GetOr(counts, w, 0.0) / t by {
        forall w ensures GetOr(r, w, 0.0) == GetOr(counts, w, 0.0) / t {
          DivideGetOr(counts, t, w);
        }
      }
      r
    else r
  }

  lemma QuotientOfTotal(t: real)
    requires t != 0.0
    ensures t / t == 1.0
  {
  }

  /** Counting then normalising a non-empty list of k-mers gives each
      k-mer its occurrences over the number of k-mers. */
  lemma CountsToFrequencies(kmers: seq<string>, w: string)
    requires kmers != []
    ensures Counts(kmers) != [] && SumValues(Counts(kmers)) == |kmers| as real
    ensures GetOr(KmerFrequencies(Counts(kmers)), w, 0.0) == (Occ(kmers, w) as real) / (|kmers| as real)
  {
    CountsKeys(kmers);
    CountsSum(kmers);
    CountsGet(kmers, w);
    assert kmers[0] in Keys(Counts(kmers));
  }
}
