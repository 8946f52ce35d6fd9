/** The vectors the optimiser compares (freqgen/generate.py:73-89).

    The target vector concatenates, for the numeric keys of the target
    parameters in ascending order, each table's values in key order, and
    then the "codons" table in key order. A candidate DNA string is turned
    into a vector by `k_mer_frequencies(seq, ks, include_missing=True,
    vector=True)` followed by its sorted codon frequencies. When the target
    tables cover the k-mers and codons that the candidate's tables have, the
    two vectors line up entry by entry: the j-th number of each refers to
    the same k-mer. */
module Layout {
  import opened Wrappers
  import opened Dicts
  import opened Lex
  import opened Dna
  import opened GeneticCode
  import opened FreqgenEngine

  type Params = Dict<OutKey, Dict<string, real>>

  /** `[x for x in k if x != "codons"]`, in key order. */
  function NumericKs(params: Params): (ks: seq<int>)
    ensures forall kk :: kk in ks <==> KKey(kk) in Keys(params)
    decreases |params|
  {
    if params == [] then []
    else
      KeysCons(params);
      var rest := NumericKs(params[1..]);
      if params[0].0.KKey? then [params[0].0.k] + rest else rest
  }

  /** Each table with its entries sorted by key, one after another. */
  function Labelled(blocks: seq<Dict<string, real>>): Dict<string, real> {
    Flatten(seq(|blocks|, i requires 0 <= i < |blocks| => SortByKey(blocks[i])))
  }

  /** The target's tables in the order of the target vector. */
  function TargetBlocks(params: Params): seq<Dict<string, real>> {
    var ks := SortInts(NumericKs(params));
    seq(|ks|, i requires 0 <= i < |ks| => GetOr(params, KKey(ks[i]), []))
      + (if CodonsKey in Keys(params) then [GetOr(params, CodonsKey, [])] else [])
  }

  /** The target loop of freqgen/generate.py:77-81. */
  method BuildTarget(params: Params) returns (target: seq<real>)
    ensures target == Values(Labelled(TargetBlocks(params)))
  {
    var ks := SortInts(NumericKs(params));
    target := [];
    ghost var done: seq<Dict<string, real>> := [];
    var i := 0;
    while i < |ks|
      invariant i <= |ks|
      invariant done == seq(i, j requires 0 <= j < i => GetOr(params, KKey(ks[j]), []))
      invariant target == Values(Labelled(done))
    {
      var block := GetOr(params, KKey(ks[i]), []);
      LabelledSnoc(done, block);
      ValuesConcat(Labelled(done), SortByKey(block));
      target := target + Values(SortByKey(block));
      done := done + [block];
      i := i + 1;
    }
    if CodonsKey in Keys(params) {
      var block := GetOr(params, CodonsKey, []);
      LabelledSnoc(done, block);
      ValuesConcat(Labelled(done), SortByKey(block));
      target := target + Values(SortByKey(block));
      done := done + [block];
    }
    assert done == TargetBlocks(params);
  }

  lemma {:induction false} FlattenSnoc<T>(xs: seq<seq<T>>, x: seq<T>)
    ensures Flatten(xs + [x]) == Flatten(xs) + x
    decreases |xs|
  {
    if xs == [] {
      assert [] + [x] == [x];
      assert Flatten([x]) == x + Flatten([x][1..]);
    } else {
      assert (xs + [x])[1..] == xs[1..] + [x];
      FlattenSnoc(xs[1..], x);
    }
  }

  lemma LabelledSnoc(blocks: seq<Dict<string, real>>, b: Dict<string, real>)
    ensures Labelled(blocks + [b]) == Labelled(blocks) + SortByKey(b)
  {
    var l := seq(|blocks| + 1, i requires 0 <= i < |blocks| + 1 => SortByKey((blocks + [b])[i]));
    var r := seq(|blocks|, i requires 0 <= i < |blocks| => SortByKey(blocks[i]));
    assert l == r + [SortByKey(b)];
    FlattenSnoc(r, SortByKey(b));
  }

  /** The `vector(seq)` closure of freqgen/generate.py:83-89. */
  function CandidateVector(params: Params, s: string, t: Table): Result<seq<real>>
    requires DistinctKeys(t)
  {
    var numeric := NumericKs(params);
    var kv := if numeric != [] then KMerFrequenciesSpec(OneSeq(s), ManyK(numeric), true, true, false, t) else Ok(Vector([]));
    if kv.Err? then Err(kv.failure)
    else if !kv.value.Vector? then Err(TypeError("not a vector"))
    else if CodonsKey !in Keys(params) then Ok(kv.value.v)
    else
      var c := CodonFrequenciesSpec(OneSeq(s), Absolute, t);
      if c.Err? then Err(c.failure) else Ok(kv.value.v + Values(SortByKey(c.value)))
  }

  /** The candidate's tables in the order of its vector: the k-mer tables
      with every k-mer included, then its codon frequencies. */
  function CandidateBlocks(params: Params, s: string, t: Table): seq<Dict<string, real>> {
    var ks := SortInts(NumericKs(params));
    seq(|ks|, i requires 0 <= i < |ks| => BlockValue([s], ks[i], true))
      + (if CodonsKey in Keys(params) then [AbsoluteFreqs(s, t)] else [])
  }

  function BlockValues(blocks: seq<Dict<string, real>>): seq<seq<real>> {
    seq(|blocks|, i requires 0 <= i < |blocks| => Values(SortByKey(blocks[i])))
  }

  lemma {:induction false} LabelledValues(blocks: seq<Dict<string, real>>)
    ensures Values(Labelled(blocks)) == Flatten(BlockValues(blocks))
    decreases |blocks|
  {
    if blocks != [] {
      var init, last := blocks[..|blocks| - 1], blocks[|blocks| - 1];
      assert blocks == init + [last];
      LabelledValues(init);
      LabelledSnoc(init, last);
      ValuesConcat(Labelled(init), SortByKey(last));
      assert BlockValues(blocks) == BlockValues(init) + [Values(SortByKey(last))];
      FlattenSnoc(BlockValues(init), Values(SortByKey(last)));
    }
  }

  /** Tables that pairwise have the same keys give the same labels. */
  lemma {:induction false} LabelledKeys(a: seq<Dict<string, real>>, b: seq<Dict<string, real>>)
    requires |a| == |b|
    requires forall i :: 0 <= i < |a| ==> DistinctKeys(a[i]) && DistinctKeys(b[i])
    requires forall i, w :: 0 <= i < |a| ==> (w in Keys(a[i]) <==> w in Keys(b[i]))
    ensures Keys(Labelled(a)) == Keys(Labelled(b))
    decreases |a|
  {
    if a != [] {
      var n := |a| - 1;
      assert a == a[..n] + [a[n]] && b == b[..n] + [b[n]];
      LabelledKeys(a[..n], b[..n]);
      LabelledSnoc(a[..n], a[n]);
      LabelledSnoc(b[..n], b[n]);
      SameKeysSameLayout(a[n], b[n]);
      KeysConcat(Labelled(a[..n]), SortByKey(a[n]));
      KeysConcat(Labelled(b[..n]), SortByKey(b[n]));
    }
  }

  /** When the candidate's vector exists it is the values of its labelled
      tables. */
  lemma CandidateLabelled(params: Params, s: string, t: Table)
    requires DistinctKeys(t) && CandidateVector(params, s, t).Ok?
    ensures CandidateVector(params, s, t).value == Values(Labelled(CandidateBlocks(params, s, t)))
  {
    var numeric := NumericKs(params);
    var ks := SortInts(numeric);
    var kblocks := seq(|ks|, i requires 0 <= i < |ks| => BlockValue([s], ks[i], true));
    LabelledValues(kblocks);
    var kv: seq<real> := [];
    if numeric != [] {
      KMerFrequenciesVector(OneSeq(s), ManyK(numeric), true, false, t);
      assert BlockValues(kblocks) == seq(|ks|, i requires 0 <= i < |ks| => Values(SortByKey(BlockValue([s], ks[i], true))));
      kv := BlocksVector([s], ks, true);
    } else {
      assert ks == [] by { SortIntsFacts(numeric); }
    }
    assert Values(Labelled(kblocks)) == kv;
    if CodonsKey in Keys(params) {
      var c := AbsoluteFreqs(s, t);
      assert CodonFrequenciesSpec(OneSeq(s), Absolute, t) == Ok(c) by {
        assert Join([s]) == s + Join([]);
      }
      LabelledSnoc(kblocks, c);
      ValuesConcat(Labelled(kblocks), SortByKey(c));
    } else {
      assert CandidateBlocks(params, s, t) == kblocks;
    }
  }

  /** The codons of a DNA string of whole codons are DNA triplets. */
  lemma DnaCodons(s: string)
    requires IsDna(s) && |s| % 3 == 0
    ensures forall c :: c in Codons(s) ==> |c| == 3 && IsDna(c)
  {
    CodonsAreChunks(s);
    forall i | 0 <= i < |Codons(s)| ensures IsDna(Codons(s)[i]) {
      assert Codons(s)[i] == s[3 * i..3 * i + 3];
    }
  }

  /** Target tables that cover exactly the k-mers of their k, and a codon
      table with exactly the genetic code's codons ... */
  ghost predicate TargetCovers(params: Params, t: Table) {
    && (forall kk :: KKey(kk) in Keys(params) ==>
          && kk >= 1
          && DistinctKeys(GetOr(params, KKey(kk), []))
          && forall w :: w in Keys(GetOr(params, KKey(kk), [])) <==> w in AllKmers(kk))
    && (CodonsKey in Keys(params) ==>
          && DistinctKeys(GetOr(params, CodonsKey, []))
          && forall c :: c in Keys(GetOr(params, CodonsKey, [])) <==> c in Keys(t))
  }

  /** ... a genetic code that lists every DNA triplet ... */
  ghost predicate CompleteTable(t: Table) {
    ValidTable(t) && forall c :: |c| == 3 && IsDna(c) ==> c in Keys(t)
  }

  /** ... and a DNA candidate long enough for every k and of whole codons
      when codons are compared. */
  ghost predicate CandidateFits(params: Params, s: string) {
    && IsDna(s)
    && (forall kk :: KKey(kk) in Keys(params) ==> 1 <= kk <= |s|)
    && (CodonsKey in Keys(params) ==> |s| % 3 == 0)
  }

  lemma SortedNumeric(params: Params)
    ensures forall kk :: kk in SortInts(NumericKs(params)) <==> KKey(kk) in Keys(params)
  {
    var numeric := NumericKs(params);
    SortIntsFacts(numeric);
    forall kk ensures kk in SortInts(numeric) <==> kk in numeric {
      assert kk in SortInts(numeric) <==> kk in multiset(SortInts(numeric));
      assert kk in numeric <==> kk in multiset(numeric);
    }
  }

  /** A fitting DNA candidate has a vector under a complete genetic code. */
  lemma CandidateOk(params: Params, s: string, t: Table)
    requires ValidTable(t) && CandidateFits(params, s)
    ensures CandidateVector(params, s, t).Ok?
  {
    var numeric := NumericKs(params);
    if numeric != [] {
      assert KKey(numeric[0]) in Keys(params);
      assert !FalsySeq(OneSeq(s));
      assert forall kk, i :: kk in KValues(ManyK(numeric)) && 0 <= i < |SeqList(OneSeq(s))| ==>
        1 <= kk <= |SeqList(OneSeq(s))[i]|;
      KMerFrequenciesOk(OneSeq(s), ManyK(numeric), true, true, false, t);
      KMerFrequenciesVector(OneSeq(s), ManyK(numeric), true, false, t);
    }
    if CodonsKey in Keys(params) {
      CodonFrequenciesFacts(OneSeq(s), Absolute, t);
    }
  }

  /** Table by table, candidate and target have the same keys. */
  lemma BlockPairs(params: Params, s: string, t: Table)
    requires TargetCovers(params, t) && CompleteTable(t) && CandidateFits(params, s)
    ensures |CandidateBlocks(params, s, t)| == |TargetBlocks(params)|
    ensures forall i :: 0 <= i < |CandidateBlocks(params, s, t)| ==>
      DistinctKeys(CandidateBlocks(params, s, t)[i]) && DistinctKeys(TargetBlocks(params)[i])
    ensures forall i, w :: 0 <= i < |CandidateBlocks(params, s, t)| ==>
      (w in Keys(CandidateBlocks(params, s, t)[i]) <==> w in Keys(TargetBlocks(params)[i]))
  {
    var ks := SortInts(NumericKs(params));
    SortedNumeric(params);
    var cb, tb := CandidateBlocks(params, s, t), TargetBlocks(params);
    forall i | 0 <= i < |cb|
      ensures DistinctKeys(cb[i]) && DistinctKeys(tb[i])
      ensures forall w :: w in Keys(cb[i]) <==> w in Keys(tb[i])
    {
      if i < |ks| {
        var kk := ks[i];
        assert KKey(kk) in Keys(params);
        assert Block([s], kk, true).Ok? by {
          assert AllWindows([s], kk).Ok? by { AllWindowsOk([s], kk); }
        }
        BlockFacts([s], kk, true);
        BlockKeysDna([s], kk);
      } else {
        UpperDna(s);
        AbsoluteFacts(s, t);
        DnaCodons(s);
      }
    }
  }

  /** Under those conditions the candidate's vector exists and lines up with
      the target's: both are the values of tables sorted by key, with the
      same label at every position. */
  lemma LayoutsAgree(params: Params, s: string, t: Table)
    requires TargetCovers(params, t) && CompleteTable(t) && CandidateFits(params, s)
    ensures CandidateVector(params, s, t).Ok?
    ensures CandidateVector(params, s, t).value == Values(Labelled(CandidateBlocks(params, s, t)))
    ensures Keys(Labelled(CandidateBlocks(params, s, t))) == Keys(Labelled(TargetBlocks(params)))
    ensures |CandidateVector(params, s, t).value| == |Values(Labelled(TargetBlocks(params)))|
  {
    CandidateOk(params, s, t);
    CandidateLabelled(params, s, t);
    BlockPairs(params, s, t);
    LabelledKeys(CandidateBlocks(params, s, t), TargetBlocks(params));
    KeysLength(Labelled(CandidateBlocks(params, s, t)));
    KeysLength(Labelled(TargetBlocks(params)));
  }

  lemma KeysLength<K, V>(d: Dict<K, V>)
    ensures |Values(d)| == |Keys(d)| == |d|
  {
  }
}
