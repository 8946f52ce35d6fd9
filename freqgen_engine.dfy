/** The frequency engine of the Python package (freqgen/freqgen.py).

    `k_mers` yields overlapping windows; `k_mer_frequencies` counts the
    windows of all input sequences jointly for each requested k, divides by
    the total, optionally completes the table with every ATGC k-mer at 0 and
    optionally flattens the tables into one key-sorted vector.
    `codon_frequencies` splits a sequence into codons and reports absolute
    frequencies, or frequencies relative to each synonym group;
    `amino_acids_to_codons` draws one codon per residue. The genetic code is
    a parameter; the random draws of `np.random.choice` are index
    arguments. */
module FreqgenEngine {
  import opened Wrappers
  import opened Dicts
  import opened Lex
  import opened Dna
  import opened GeneticCode

  /** `seq` is a string or a list of strings. */
  datatype SeqArg = OneSeq(s: string) | ManySeqs(ss: seq<string>)

  /** `seq = [seq]` for a single string. */
  function SeqList(a: SeqArg): seq<string> {
    if a.OneSeq? then [a.s] else a.ss
  }

  // ---------------------------------------------------------------------
  // codon_frequencies (freqgen/freqgen.py:187-222)
  // ---------------------------------------------------------------------

  datatype Mode = Absolute | Relative | OtherMode(name: string)

  /** The checked, joined sequence: every list piece and the whole must be
      whole codons. */
  function JoinedCodonSeq(a: SeqArg): (r: Result<string>)
    ensures r.Ok? <==> (a.ManySeqs? ==> forall i :: 0 <= i < |a.ss| ==> |a.ss[i]| % 3 == 0)
                       && (a.ManySeqs? ==> |Join(a.ss)| % 3 == 0) && (a.OneSeq? ==> |a.s| % 3 == 0)
    ensures r.Ok? ==> r.value == Join(SeqList(a))
  {
    if a.ManySeqs? && exists i :: 0 <= i < |a.ss| && |a.ss[i]| % 3 != 0 then
      Err(ValueError("Sequence length must be divisible by 3."))
    else
      var s := if a.OneSeq? then a.s else Join(a.ss);
      assert a.OneSeq? ==> Join(SeqList(a)) == a.s + Join([]);
      if |s| % 3 != 0 then Err(ValueError("Sequence length must be divisible by 3."))
      else Ok(s)
  }

  /** `frequencies[codon] = 0` for every table codon missing from `f`. */
  function ZeroFill(f: Dict<string, real>, codons: seq<string>): Dict<string, real>
    decreases |codons|
  {
    if codons == [] then f
    else ZeroFill(if codons[0] in Keys(f) then f else Put(f, codons[0], 0.0), codons[1..])
  }

  /** Observed codon frequencies of an upper-case sequence of whole codons. */
  function Observed(codons: seq<string>): Dict<string, real> {
    Divide(Counts(codons), |codons| as real)
  }

  /** The absolute frequencies of the checked sequence `s`. */
  function AbsoluteFreqs(s: string, t: Table): Dict<string, real> {
    ZeroFill(Observed(Codons(Upper(s))), Keys(t))
  }

  /** The codons of the synonym group of table codon `c`. */
  function GroupOf(t: Table, c: string): seq<string> {
    GetOr(Synonyms(t), c, [])
  }

  function GroupTotal(f: Dict<string, real>, group: seq<string>): real {
    SumReals(seq(|group|, j requires 0 <= j < |group| => GetOr(f, group[j], 0.0)))
  }

  /** `frequencies[c] / sum(...)`, or `1 / len(group)` when the sum is 0. */
  function RelativeOf(f: Dict<string, real>, t: Table, c: string): real
    requires DistinctKeys(t) && c in Keys(t)
  {
    SynonymsFacts(t, c);
    var g := GroupOf(t, c);
    var total := GroupTotal(f, g);
    if total == 0.0 then 1.0 / (|g| as real) else GetOr(f, c, 0.0) / total
  }

  /** The relative table, in table order. */
  function RelativeFreqs(f: Dict<string, real>, t: Table): (r: Dict<string, real>)
    requires DistinctKeys(t)
    ensures Keys(r) == Keys(t)
  {
    seq(|t|, i requires 0 <= i < |t| => (t[i].0, RelativeOf(f, t, t[i].0)))
  }

  /** What `codon_frequencies(seq, mode)` returns. */
  function CodonFrequenciesSpec(a: SeqArg, mode: Mode, t: Table): Result<Dict<string, real>>
    requires DistinctKeys(t)
  {
    var s := JoinedCodonSeq(a);
    if s.Err? then Err(s.failure)
    else if mode.Absolute? then Ok(AbsoluteFreqs(s.value, t))
    else if mode.Relative? then Ok(RelativeFreqs(AbsoluteFreqs(s.value, t), t))
    else Err(ValueError("Mode must be either absolute or relative."))
  }

  /** `codon_frequencies`, with its validation, zero-fill and relative
      loops. */
  method CodonFrequencies(a: SeqArg, mode: Mode, t: Table) returns (r: Result<Dict<string, real>>)
    requires DistinctKeys(t)
    ensures r == CodonFrequenciesSpec(a, mode, t)
  {
    var js := CheckCodonSeq(a);
    if js.Err? {
      return Err(js.failure);
    }
    var frequencies := FillMissing(Observed(Codons(Upper(js.value))), t);
    if mode.Absolute? {
      return Ok(frequencies);
    }
    if mode.Relative? {
      var relative := RelativeLoop(frequencies, t);
      return Ok(relative);
    }
    return Err(ValueError("Mode must be either absolute or relative."));
  }

  /** The length checks of freqgen/freqgen.py:187-195. */
  method CheckCodonSeq(a: SeqArg) returns (r: Result<string>)
    ensures r == JoinedCodonSeq(a)
  {
    var s: string;
    if a.ManySeqs? {
      var i := 0;
      while i < |a.ss|
        invariant i <= |a.ss|
        invariant forall j :: 0 <= j < i ==> |a.ss[j]| % 3 == 0
      {
        if |a.ss[i]| % 3 != 0 {
          return Err(ValueError("Sequence length must be divisible by 3."));
        }
        i := i + 1;
      }
      s := Join(a.ss);
    } else {
      s := a.s;
    }
    if |s| % 3 != 0 {
      return Err(ValueError("Sequence length must be divisible by 3."));
    }
    return Ok(s);
  }

  /** The zero-fill loop of freqgen/freqgen.py:204-208. */
  method FillMissing(observed: Dict<string, real>, t: Table) returns (frequencies: Dict<string, real>)
    ensures frequencies == ZeroFill(observed, Keys(t))
  {
    frequencies := observed;
    var k := 0;
    while k < |t|
      invariant k <= |t|
      invariant ZeroFill(frequencies, Keys(t)[k..]) == ZeroFill(observed, Keys(t))
    {
      assert Keys(t)[k..][1..] == Keys(t)[k + 1..];
      if t[k].0 !in Keys(frequencies) {
        frequencies := Put(frequencies, t[k].0, 0.0);
      }
      k := k + 1;
    }
    assert Keys(t)[k..] == [];
  }

  /** The relative loop of freqgen/freqgen.py:212-219. */
  method RelativeLoop(frequencies: Dict<string, real>, t: Table) returns (relative: Dict<string, real>)
    requires DistinctKeys(t)
    ensures relative == RelativeFreqs(frequencies, t)
  {
    relative := [];
    var i := 0;
    while i < |t|
      invariant i <= |t|
      invariant relative == RelativeFreqs(frequencies, t)[..i]
    {
      var c := t[i].0;
      assert Keys(relative) == Keys(t)[..i];
      relative := Put(relative, c, RelativeOf(frequencies, t, c));
      i := i + 1;
    }
    assert RelativeFreqs(frequencies, t)[..|t|] == RelativeFreqs(frequencies, t);
  }

  /** Observed frequencies: one entry per distinct codon, each its share of
      the codons, summing to 1 when there is any codon. */
  lemma ObservedFacts(cs: seq<string>)
    ensures DistinctKeys(Observed(cs))
    ensures forall c :: c in Keys(Observed(cs)) <==> c in cs
    ensures cs != [] ==> forall c :: GetOr(Observed(cs), c, 0.0) == Occ(cs, c) as real / |cs| as real
    ensures cs != [] ==> SumValues(Observed(cs)) == 1.0
    ensures cs == [] ==> Observed(cs) == []
  {
    CountsKeys(cs);
    if cs != [] {
      var n := |cs| as real;
      DivideFacts(Counts(cs), n);
      forall c ensures GetOr(Observed(cs), c, 0.0) == Occ(cs, c) as real / n {
        DivideGetOr(Counts(cs), n, c);
        CountsGet(cs, c);
      }
      ObservedSum(cs);
    }
  }

  lemma ObservedSum(cs: seq<string>)
    requires cs != []
    ensures SumValues(Observed(cs)) == 1.0
  {
    var n := |cs| as real;
    CountsSum(cs);
    DivideFacts(Counts(cs), n);
    SelfQuotient(n);
  }

  lemma SelfQuotient(n: real)
    requires n != 0.0
    ensures n / n == 1.0
  {
  }

  /** Zero-filling adds the missing codons with value 0 and changes no
      value and no sum. */
  lemma {:induction false} ZeroFillFacts(f: Dict<string, real>, codons: seq<string>)
    ensures forall c :: c in Keys(ZeroFill(f, codons)) <==> c in Keys(f) || c in codons
    ensures forall c :: GetOr(ZeroFill(f, codons), c, 0.0) == GetOr(f, c, 0.0)
    ensures DistinctKeys(f) ==> DistinctKeys(ZeroFill(f, codons))
    ensures SumValues(ZeroFill(f, codons)) == SumValues(f)
    decreases |codons|
  {
    if codons != [] {
      var c0 := codons[0];
      var g := if c0 in Keys(f) then f else Put(f, c0, 0.0);
      ZeroFillFacts(g, codons[1..]);
      assert forall c :: c in codons <==> c == c0 || c in codons[1..];
      if c0 !in Keys(f) {
        PutFacts(f, c0, 0.0);
        PutSum(f, c0, 0.0);
        forall c ensures GetOr(g, c, 0.0) == GetOr(f, c, 0.0) {
          PutGetOr(f, c0, 0.0, c, 0.0);
        }
      }
    }
  }

  /** Absolute frequencies: every table codon and every observed codon is a
      key, each value is the codon's share of the sequence, and the values
      sum to 1 unless the sequence is empty. */
  lemma AbsoluteFacts(s: string, t: Table)
    ensures DistinctKeys(AbsoluteFreqs(s, t))
    ensures forall c :: c in Keys(AbsoluteFreqs(s, t)) <==> c in Keys(t) || c in Codons(Upper(s))
    ensures s != [] ==> forall c :: GetOr(AbsoluteFreqs(s, t), c, 0.0)
                                    == Occ(Codons(Upper(s)), c) as real / |Codons(Upper(s))| as real
    ensures s != [] ==> SumValues(AbsoluteFreqs(s, t)) == 1.0
    ensures s == [] ==> forall c :: GetOr(AbsoluteFreqs(s, t), c, 0.0) == 0.0
  {
    var cs := Codons(Upper(s));
    ObservedFacts(cs);
    ZeroFillFacts(Observed(cs), Keys(t));
    if s != [] {
      assert |cs| > 0;
    }
  }

  lemma RelativeLookup(f: Dict<string, real>, t: Table, d: string)
    requires DistinctKeys(t) && d in Keys(t)
    ensures GetOr(RelativeFreqs(f, t), d, 0.0) == RelativeOf(f, t, d)
  {
    var rel := RelativeFreqs(f, t);
    var i := IndexOf(Keys(t), d);
    assert DistinctKeys(rel);
    GetIndex(rel, i);
  }

  /** A synonym of `c` shares its group and hence its group total. */
  lemma RelativeMember(f: Dict<string, real>, t: Table, c: string, d: string)
    requires DistinctKeys(t) && c in Keys(t) && d in GroupOf(t, c)
    ensures var g, total := GroupOf(t, c), GroupTotal(f, GroupOf(t, c));
      GetOr(RelativeFreqs(f, t), d, 0.0) == if total == 0.0 then 1.0 / (|g| as real) else GetOr(f, d, 0.0) / total
  {
    SynonymsFacts(t, c);
    SynonymsShared(t, c, d);
    RelativeLookup(f, t, d);
  }

  /** The relative frequencies of each synonym group sum to 1. */
  lemma RelativeGroupSum(f: Dict<string, real>, t: Table, c: string)
    requires DistinctKeys(t) && c in Keys(t)
    ensures GroupTotal(RelativeFreqs(f, t), GroupOf(t, c)) == 1.0
  {
    SynonymsFacts(t, c);
    var g := GroupOf(t, c);
    var total := GroupTotal(f, g);
    var rel := RelativeFreqs(f, t);
    var xs := seq(|g|, j requires 0 <= j < |g| => GetOr(f, g[j], 0.0));
    var ys := seq(|g|, j requires 0 <= j < |g| => GetOr(rel, g[j], 0.0));
    forall j | 0 <= j < |g|
      ensures ys[j] == (if total == 0.0 then 1.0 / (|g| as real) else xs[j] / total)
    {
      RelativeMember(f, t, c, g[j]);
    }
    Normalised(xs, ys);
  }

  /** Dividing each term by the total, or taking equal shares when the
      total is 0, gives terms that sum to 1. */
  lemma Normalised(xs: seq<real>, ys: seq<real>)
    requires |xs| == |ys| > 0
    requires forall j :: 0 <= j < |ys| ==>
      ys[j] == if SumReals(xs) == 0.0 then 1.0 / (|ys| as real) else xs[j] / SumReals(xs)
    ensures SumReals(ys) == 1.0
  {
    var total := SumReals(xs);
    if total == 0.0 {
      EqualShares(ys);
    } else {
      SumRealsScale(xs, ys, total);
      SelfQuotient(total);
    }
  }

  lemma EqualShares(ys: seq<real>)
    requires |ys| > 0
    requires forall j :: 0 <= j < |ys| ==> ys[j] == 1.0 / (|ys| as real)
    ensures SumReals(ys) == 1.0
  {
    var n := |ys| as real;
    SumRealsConst(ys, 1.0 / n);
    ReciprocalProduct(n);
  }

  lemma ReciprocalProduct(n: real)
    requires n != 0.0
    ensures n * (1.0 / n) == 1.0
  {
  }

  /** `codon_frequencies` fails exactly on a sequence that is not whole
      codons, or on a mode other than absolute and relative; absolute
      results cover the table and sum to 1, relative results have the
      table's keys and sum to 1 within every synonym group. */
  lemma CodonFrequenciesFacts(a: SeqArg, mode: Mode, t: Table)
    requires DistinctKeys(t)
    ensures CodonFrequenciesSpec(a, mode, t).Ok? <==> JoinedCodonSeq(a).Ok? && !mode.OtherMode?
    ensures mode.Absolute? && CodonFrequenciesSpec(a, mode, t).Ok? ==>
      var r := CodonFrequenciesSpec(a, mode, t).value;
      DistinctKeys(r) && (forall c :: c in Keys(t) ==> c in Keys(r))
      && (Join(SeqList(a)) != [] ==> SumValues(r) == 1.0)
    ensures mode.Relative? && CodonFrequenciesSpec(a, mode, t).Ok? ==>
      var r := CodonFrequenciesSpec(a, mode, t).value;
      Keys(r) == Keys(t) && forall c :: c in Keys(t) ==> GroupTotal(r, GroupOf(t, c)) == 1.0
  {
    var js := JoinedCodonSeq(a);
    if js.Ok? {
      AbsoluteFacts(js.value, t);
      if mode.Relative? {
        forall c | c in Keys(t) ensures GroupTotal(RelativeFreqs(AbsoluteFreqs(js.value, t), t), GroupOf(t, c)) == 1.0 {
          RelativeGroupSum(AbsoluteFreqs(js.value, t), t, c);
        }
      }
    }
  }

  // ---------------------------------------------------------------------
  // k_mers (freqgen/freqgen.py:224-264)
  // ---------------------------------------------------------------------

  /** The value of a string of decimal digits, most significant first. */
  function DecimalValue(d: string): nat
    requires forall i :: 0 <= i < |d| ==> '0' <= d[i] <= '9'
  {
    if d == [] then 0 else DecimalValue(d[..|d| - 1]) * 10 + (d[|d| - 1] as int - '0' as int)
  }

  /** `%i` of a non-negative integer: its decimal digits without a leading
      zero, reading back as the number. */
  function NatString(n: nat): (r: string)
    ensures r != [] && forall i :: 0 <= i < |r| ==> '0' <= r[i] <= '9'
    ensures |r| > 1 ==> r[0] != '0'
    ensures DecimalValue(r) == n
  {
    if n < 10 then [('0' as int + n) as char]
    else
      var h := NatString(n / 10);
      var r := h + [('0' as int + n % 10) as char];
      assert r[..|r| - 1] == h;
      r
  }

  /** The message of the first check of `k_mers` (freqgen/freqgen.py:252). */
  function LengthMessage(k: nat, n: nat): string {
    "k (" + NatString(k) + ") may not be less then length of seq (" + NatString(n) + ")."
  }

  /** The k-mers of `s`, or the error `k_mers` raises on its first `next`,
      with the checks in the source's order. */
  function KMers(s: string, k: int): (r: Result<seq<string>>)
    ensures r.Ok? <==> 1 <= k <= |s|
    ensures r.Err? ==> r.failure.ValueError?
    ensures k > |s| ==> r == Err(ValueError(LengthMessage(k, |s|)))
    ensures k <= |s| && s == [] ==> r == Err(ValueError("seq length may not be zero"))
    ensures k <= 0 && s != [] ==> r == Err(ValueError("k may not be <= zero"))
    ensures r.Ok? ==> |r.value| == |s| - k + 1
                      && forall i :: 0 <= i < |r.value| ==> r.value[i] == s[i..i + k]
  {
    if k > |s| then Err(ValueError(LengthMessage(k, |s|)))
    else if s == [] then Err(ValueError("seq length may not be zero"))
    else if k <= 0 then Err(ValueError("k may not be <= zero"))
    else Ok(Windows(s, k))
  }

  /** The generator: the first `k` characters, then one window per further
      character, dropping the oldest and appending the newest. */
  method RollingKMers(s: string, k: int) returns (r: Result<seq<string>>)
    ensures r == KMers(s, k)
  {
    if k > |s| {
      return Err(ValueError(LengthMessage(k, |s|)));
    } else if s == [] {
      return Err(ValueError("seq length may not be zero"));
    } else if k <= 0 {
      return Err(ValueError("k may not be <= zero"));
    }
    var result := s[..k];
    var out := [result];
    var i := k;
    while i < |s|
      invariant k <= i <= |s|
      invariant result == s[i - k..i]
      invariant |out| == i - k + 1
      invariant forall j :: 0 <= j < |out| ==> out[j] == s[j..j + k]
    {
      assert result[1..] + [s[i]] == s[i + 1 - k..i + 1];
      result := result[1..] + [s[i]];
      out := out + [result];
      i := i + 1;
    }
    assert out == Windows(s, k);
    return Ok(out);
  }

  // ---------------------------------------------------------------------
  // k_mer_frequencies (freqgen/freqgen.py:266-379)
  // ---------------------------------------------------------------------

  /** `k` is one integer or a list of integers. */
  datatype KArg = OneK(k: int) | ManyK(ks: seq<int>)

  /** The frequency tables, or the vector they flatten into. */
  datatype OutKey = KKey(k: int) | CodonsKey
  datatype FreqOutput = Tables(d: Dict<OutKey, Dict<string, real>>) | Vector(v: seq<real>)

  /** Python truthiness of the two arguments. */
  predicate FalsyK(k: KArg) {
    k == OneK(0) || k == ManyK([])
  }

  predicate FalsySeq(a: SeqArg) {
    a == OneSeq("") || a == ManySeqs([])
  }

  /** The k values in the order they are processed. */
  function KList(k: KArg): seq<int> {
    if k.OneK? then [k.k] else SortInts(k.ks)
  }

  function PrependList(p: seq<string>, r: Result<seq<string>>): Result<seq<string>> {
    if r.Ok? then Ok(p + r.value) else r
  }

  lemma PrependListAppend(p: seq<string>, q: seq<string>, r: Result<seq<string>>)
    ensures PrependList([], r) == r
    ensures PrependList(p, PrependList(q, r)) == PrependList(p + q, r)
  {
    if r.Ok? {
      assert [] + r.value == r.value;
      assert p + (q + r.value) == (p + q) + r.value;
    }
  }

  /** The k-mers of all upper-cased sequences, one sequence after another,
      or the first error. */
  function AllWindows(seqs: seq<string>, k: int): Result<seq<string>>
    decreases |seqs|
  {
    if seqs == [] then Ok([])
    else
      var w := KMers(Upper(seqs[0]), k);
      if w.Err? then Err(w.failure) else PrependList(w.value, AllWindows(seqs[1..], k))
  }

  /** The table for one value of k. */
  function Block(seqs: seq<string>, k: int, includeMissing: bool): Result<Dict<string, real>> {
    if k < 1 then Err(ValueError("Invalid value of k. May not be less than 1."))
    else
      var ws := AllWindows(seqs, k);
      if ws.Err? then Err(ws.failure)
      else
        var count := Counts(ws.value);
        CountsSum(ws.value);
        var frequencies := Divide(count, SumValues(count));
        Ok(if includeMissing then Merge(Defaults(k), frequencies) else frequencies)
  }

  /** `output[_k] = frequencies` for each remaining k, stopping at the first
      error. */
  function BlocksFrom(seqs: seq<string>, ks: seq<int>, includeMissing: bool, out: Dict<OutKey, Dict<string, real>>)
    : Result<Dict<OutKey, Dict<string, real>>>
    decreases |ks|
  {
    if ks == [] then Ok(out)
    else
      var b := Block(seqs, ks[0], includeMissing);
      if b.Err? then Err(b.failure)
      else BlocksFrom(seqs, ks[1..], includeMissing, Put(out, KKey(ks[0]), b.value))
  }

  function Flatten<T>(xs: seq<seq<T>>): seq<T>
    decreases |xs|
  {
    if xs == [] then [] else xs[0] + Flatten(xs[1..])
  }

  /** Each table's values in key order, one k after another. */
  function VectorOf(out: Dict<OutKey, Dict<string, real>>, ks: seq<int>): seq<real> {
    Flatten(seq(|ks|, i requires 0 <= i < |ks| => Values(SortByKey(GetOr(out, KKey(ks[i]), [])))))
  }

  /** What `k_mer_frequencies` returns. */
  function KMerFrequenciesSpec(a: SeqArg, k: KArg, includeMissing: bool, vector: bool, codons: bool, t: Table)
    : Result<FreqOutput>
    requires DistinctKeys(t)
  {
    if !includeMissing && vector then Err(ValueError("May not create vector without including missing kmers."))
    else if FalsyK(k) then Err(ValueError("Must provide a value for k"))
    else if FalsySeq(a) then Err(ValueError("Must provide seq(s)"))
    else if codons && vector then Err(ValueError("Cannot vectorize codons."))
    else
      var ks, seqs := KList(k), SeqList(a);
      var out := BlocksFrom(seqs, ks, includeMissing, []);
      if out.Err? then Err(out.failure)
      else if vector then Ok(Vector(VectorOf(out.value, ks)))
      else if codons then
        var c := CodonFrequenciesSpec(ManySeqs(seqs), Absolute, t);
        if c.Err? then Err(c.failure) else Ok(Tables(Put(out.value, CodonsKey, c.value)))
      else Ok(Tables(out.value))
  }

  /** The windows of freqgen/freqgen.py:355-357: the comprehension and the
      `extend` loop in one pass. */
  method CollectWindows(seqs: seq<string>, k: int) returns (r: Result<seq<string>>)
    ensures r == AllWindows(seqs, k)
  {
    var ws: seq<string> := [];
    PrependListAppend([], [], AllWindows(seqs, k));
    var i := 0;
    while i < |seqs|
      invariant i <= |seqs|
      invariant AllWindows(seqs, k) == PrependList(ws, AllWindows(seqs[i..], k))
    {
      assert seqs[i..][1..] == seqs[i + 1..];
      var w := RollingKMers(Upper(seqs[i]), k);
      if w.Err? {
        return Err(w.failure);
      }
      PrependListAppend(ws, w.value, AllWindows(seqs[i + 1..], k));
      ws := ws + w.value;
      i := i + 1;
    }
    assert seqs[i..] == [] && ws + [] == ws;
    return Ok(ws);
  }

  /** The body of the loop over k (freqgen/freqgen.py:350-370). */
  method BlockLoop(seqs: seq<string>, k: int, includeMissing: bool) returns (r: Result<Dict<string, real>>)
    ensures r == Block(seqs, k, includeMissing)
  {
    if k < 1 {
      return Err(ValueError("Invalid value of k. May not be less than 1."));
    }
    var ws := CollectWindows(seqs, k);
    if ws.Err? {
      return Err(ws.failure);
    }
    var count := Counts(ws.value);
    CountsSum(ws.value);
    var frequencies := Divide(count, SumValues(count));
    if includeMissing {
      frequencies := Merge(Defaults(k), frequencies);
    }
    return Ok(frequencies);
  }

  /** The loop over k (freqgen/freqgen.py:348-370). */
  method BlocksLoop(seqs: seq<string>, ks: seq<int>, includeMissing: bool)
    returns (r: Result<Dict<OutKey, Dict<string, real>>>)
    ensures r == BlocksFrom(seqs, ks, includeMissing, [])
  {
    var output: Dict<OutKey, Dict<string, real>> := [];
    var i := 0;
    while i < |ks|
      invariant i <= |ks|
      invariant BlocksFrom(seqs, ks, includeMissing, []) == BlocksFrom(seqs, ks[i..], includeMissing, output)
    {
      assert ks[i..][1..] == ks[i + 1..];
      var b := BlockLoop(seqs, ks[i], includeMissing);
      if b.Err? {
        return Err(b.failure);
      }
      output := Put(output, KKey(ks[i]), b.value);
      i := i + 1;
    }
    assert ks[i..] == [];
    return Ok(output);
  }

  /** `k_mer_frequencies`: the argument checks, the loop over the sorted k
      values, then the vector or the codon entry. The vector is assembled
      from the stored tables at the end, which gives the same array as
      storing each sorted array under its k. */
  method KMerFrequencies(a: SeqArg, k: KArg, includeMissing: bool, vector: bool, codons: bool, t: Table)
    returns (r: Result<FreqOutput>)
    requires DistinctKeys(t)
    ensures r == KMerFrequenciesSpec(a, k, includeMissing, vector, codons, t)
  {
    if !includeMissing && vector {
      return Err(ValueError("May not create vector without including missing kmers."));
    } else if FalsyK(k) {
      return Err(ValueError("Must provide a value for k"));
    } else if FalsySeq(a) {
      return Err(ValueError("Must provide seq(s)"));
    } else if codons && vector {
      return Err(ValueError("Cannot vectorize codons."));
    }
    var ks := KList(k);
    var seqs := SeqList(a);
    var out := BlocksLoop(seqs, ks, includeMissing);
    if out.Err? {
      return Err(out.failure);
    }
    var output := out.value;
    if vector {
      return Ok(Vector(VectorOf(output, ks)));
    }
    if codons {
      var c := CodonFrequencies(ManySeqs(seqs), Absolute, t);
      if c.Err? {
        return Err(c.failure);
      }
      output := Put(output, CodonsKey, c.value);
    }
    return Ok(Tables(output));
  }

  /** The windows are collected exactly when every sequence is at least k
      long and k is positive. */
  lemma {:induction false} AllWindowsOk(seqs: seq<string>, k: int)
    ensures AllWindows(seqs, k).Ok? <==> forall i :: 0 <= i < |seqs| ==> 1 <= k <= |seqs[i]|
    decreases |seqs|
  {
    if seqs != [] {
      var rest := seqs[1..];
      AllWindowsOk(rest, k);
      assert forall i :: 0 <= i < |rest| ==> rest[i] == seqs[i + 1];
    }
  }

  /** Every window has length k and is DNA when the sequences are, and
      there is at least one window per sequence. */
  lemma {:induction false} AllWindowsShape(seqs: seq<string>, k: int)
    requires AllWindows(seqs, k).Ok?
    ensures forall w :: w in AllWindows(seqs, k).value ==> |w| == k
    ensures (forall i :: 0 <= i < |seqs| ==> IsDna(seqs[i])) ==>
              forall w :: w in AllWindows(seqs, k).value ==> IsDna(w)
    ensures |AllWindows(seqs, k).value| >= |seqs|
    decreases |seqs|
  {
    if seqs != [] {
      var rest := seqs[1..];
      var u := Upper(seqs[0]);
      var w := KMers(u, k).value;
      var r := AllWindows(rest, k).value;
      AllWindowsShape(rest, k);
      assert AllWindows(seqs, k).value == w + r;
      assert forall x :: x in w + r <==> x in w || x in r;
      if forall i :: 0 <= i < |seqs| ==> IsDna(seqs[i]) {
        assert IsDna(seqs[0]);
        assert forall i :: 0 <= i < |rest| ==> IsDna(rest[i]) by {
          assert forall i :: 0 <= i < |rest| ==> rest[i] == seqs[i + 1];
        }
        UpperDna(seqs[0]);
        WindowsAreKmers(u, k);
        AllKmersMember(k);
      }
    }
  }

  /** The defaults hold 0 under every key. */
  lemma DefaultsZero(k: nat, w: string)
    ensures GetOr(Defaults(k), w, 0.0) == 0.0
  {
    if w in Keys(Defaults(k)) {
      var i := IndexOf(Keys(Defaults(k)), w);
    }
  }

  /** With at least one sequence, a table is the observed frequencies of
      the windows, merged into the defaults with `include_missing`. */
  lemma BlockObserved(seqs: seq<string>, k: int, includeMissing: bool)
    requires seqs != [] && Block(seqs, k, includeMissing).Ok?
    ensures k >= 1 && AllWindows(seqs, k).Ok? && AllWindows(seqs, k).value != []
    ensures var ws := AllWindows(seqs, k).value;
      Block(seqs, k, includeMissing).value == if includeMissing then Merge(Defaults(k), Observed(ws)) else Observed(ws)
  {
    var ws := AllWindows(seqs, k).value;
    AllWindowsShape(seqs, k);
    CountsSum(ws);
  }

  /** Merging observed frequencies into the defaults adds every ATGC k-mer
      at 0 and changes no value and no sum. */
  lemma MergedFacts(k: nat, ws: seq<string>)
    requires ws != []
    ensures var b := Merge(Defaults(k), Observed(ws));
      && DistinctKeys(b)
      && (forall w :: w in Keys(b) <==> w in ws || w in AllKmers(k))
      && (forall w :: GetOr(b, w, 0.0) == GetOr(Observed(ws), w, 0.0))
      && SumValues(b) == 1.0
  {
    var f := Observed(ws);
    ObservedFacts(ws);
    DefaultsFacts(k);
    AllKmersMember(k);
    MergeFacts(Defaults(k), f);
    forall w | w in Keys(f) ensures GetOr(Defaults(k), w, 0.0) == 0.0 {
      DefaultsZero(k, w);
    }
    MergeSum(Defaults(k), f);
    forall w ensures GetOr(Merge(Defaults(k), f), w, 0.0) == GetOr(f, w, 0.0) {
      DefaultsZero(k, w);
    }
  }

  /** The table for one k: a dictionary whose keys are the observed k-mers
      (and every ATGC k-mer with `include_missing`), whose values are each
      k-mer's share of all windows of all sequences, and which sums to 1. */
  lemma BlockFacts(seqs: seq<string>, k: int, includeMissing: bool)
    requires seqs != [] && Block(seqs, k, includeMissing).Ok?
    ensures k >= 1 && AllWindows(seqs, k).Ok? && AllWindows(seqs, k).value != []
    ensures var ws, b := AllWindows(seqs, k).value, Block(seqs, k, includeMissing).value;
      && DistinctKeys(b)
      && (forall w :: w in Keys(b) <==> w in ws || (includeMissing && w in AllKmers(k)))
      && (forall w :: GetOr(b, w, 0.0) == Occ(ws, w) as real / |ws| as real)
      && SumValues(b) == 1.0
  {
    BlockObserved(seqs, k, includeMissing);
    var ws := AllWindows(seqs, k).value;
    ObservedFacts(ws);
    if includeMissing {
      MergedFacts(k, ws);
    }
  }

  /** With `include_missing` and DNA input, a table's keys are exactly the
      ATGC k-mers. */
  lemma BlockKeysDna(seqs: seq<string>, k: int)
    requires seqs != [] && Block(seqs, k, true).Ok?
    requires forall i :: 0 <= i < |seqs| ==> IsDna(seqs[i])
    ensures k >= 1
    ensures forall w :: w in Keys(Block(seqs, k, true).value) <==> w in AllKmers(k)
  {
    BlockFacts(seqs, k, true);
    AllWindowsShape(seqs, k);
    AllKmersMember(k);
  }

  /** The table for `kk`, or the empty table where it fails. */
  function BlockValue(seqs: seq<string>, kk: int, includeMissing: bool): Dict<string, real> {
    var b := Block(seqs, kk, includeMissing);
    if b.Ok? then b.value else []
  }

  /** The loop over k succeeds exactly when every k's table does, and then
      holds each k's own table under its key, whatever the order and
      repetition of the k values. */
  lemma {:induction false} BlocksFromFacts(seqs: seq<string>, ks: seq<int>, includeMissing: bool,
                                           out: Dict<OutKey, Dict<string, real>>)
    ensures BlocksFrom(seqs, ks, includeMissing, out).Ok? <==>
              forall i :: 0 <= i < |ks| ==> Block(seqs, ks[i], includeMissing).Ok?
    ensures BlocksFrom(seqs, ks, includeMissing, out).Ok? ==>
      var r := BlocksFrom(seqs, ks, includeMissing, out).value;
      && (forall key: OutKey :: key in Keys(r) <==> key in Keys(out) || (key.KKey? && key.k in ks))
      && (DistinctKeys(out) ==> DistinctKeys(r))
      && (forall kk :: kk in ks ==> GetOr(r, KKey(kk), []) == BlockValue(seqs, kk, includeMissing))
      && (forall key: OutKey :: !(key.KKey? && key.k in ks) ==> GetOr(r, key, []) == GetOr(out, key, []))
  {
    BlocksFromOk(seqs, ks, includeMissing, out);
    if BlocksFrom(seqs, ks, includeMissing, out).Ok? {
      BlocksFromValue(seqs, ks, includeMissing, out);
    }
  }

  lemma {:induction false} BlocksFromOk(seqs: seq<string>, ks: seq<int>, includeMissing: bool,
                                        out: Dict<OutKey, Dict<string, real>>)
    ensures BlocksFrom(seqs, ks, includeMissing, out).Ok? <==>
              forall i :: 0 <= i < |ks| ==> Block(seqs, ks[i], includeMissing).Ok?
    decreases |ks|
  {
    if ks != [] {
      var b := Block(seqs, ks[0], includeMissing);
      if b.Ok? {
        BlocksFromOk(seqs, ks[1..], includeMissing, Put(out, KKey(ks[0]), b.value));
        assert forall i :: 0 <= i < |ks[1..]| ==> ks[1..][i] == ks[i + 1];
      }
    }
  }

  lemma {:induction false} BlocksFromValue(seqs: seq<string>, ks: seq<int>, includeMissing: bool,
                                           out: Dict<OutKey, Dict<string, real>>)
    requires BlocksFrom(seqs, ks, includeMissing, out).Ok?
    ensures var r := BlocksFrom(seqs, ks, includeMissing, out).value;
      && (forall key: OutKey :: key in Keys(r) <==> key in Keys(out) || (key.KKey? && key.k in ks))
      && (DistinctKeys(out) ==> DistinctKeys(r))
      && (forall kk :: kk in ks ==> GetOr(r, KKey(kk), []) == BlockValue(seqs, kk, includeMissing))
      && (forall key: OutKey :: !(key.KKey? && key.k in ks) ==> GetOr(r, key, []) == GetOr(out, key, []))
    decreases |ks|
  {
    if ks != [] {
      var b := Block(seqs, ks[0], includeMissing);
      var out' := Put(out, KKey(ks[0]), b.value);
      BlocksFromValue(seqs, ks[1..], includeMissing, out');
      assert forall kk :: kk in ks <==> kk == ks[0] || kk in ks[1..];
      PutFacts(out, KKey(ks[0]), b.value);
      forall key ensures GetOr(out', key, []) == if key == KKey(ks[0]) then b.value else GetOr(out, key, []) {
        PutGetOr(out, KKey(ks[0]), b.value, key, []);
      }
    }
  }

  /** The k values as given. */
  function KValues(k: KArg): seq<int> {
    if k.OneK? then [k.k] else k.ks
  }

  /** `sorted(k)` processes the given k values in ascending order. */
  lemma KListFacts(k: KArg)
    ensures forall kk :: kk in KList(k) <==> kk in KValues(k)
    ensures SortedInts(KList(k))
  {
    if k.ManyK? {
      SortIntsFacts(k.ks);
      forall kk ensures kk in KList(k) <==> kk in KValues(k) {
        assert kk in KList(k) <==> kk in multiset(KList(k));
        assert kk in KValues(k) <==> kk in multiset(KValues(k));
      }
    }
  }

  /** `k_mer_frequencies` succeeds exactly when the flags are compatible,
      k and seq are given, every k is positive and at most the length of
      every sequence, and the codon entry, if asked for, can be computed. */
  lemma KMerFrequenciesOk(a: SeqArg, k: KArg, includeMissing: bool, vector: bool, codons: bool, t: Table)
    requires DistinctKeys(t)
    ensures KMerFrequenciesSpec(a, k, includeMissing, vector, codons, t).Ok? <==>
      && (includeMissing || !vector) && !FalsyK(k) && !FalsySeq(a) && !(codons && vector)
      && (forall kk, i :: kk in KValues(k) && 0 <= i < |SeqList(a)| ==> 1 <= kk <= |SeqList(a)[i]|)
      && (codons && !vector ==> JoinedCodonSeq(ManySeqs(SeqList(a))).Ok?)
  {
    var ks, seqs := KList(k), SeqList(a);
    if (includeMissing || !vector) && !FalsyK(k) && !FalsySeq(a) && !(codons && vector) {
      KListFacts(k);
      BlocksFromFacts(seqs, ks, includeMissing, []);
      CodonFrequenciesFacts(ManySeqs(seqs), Absolute, t);
      BlocksOk(seqs, ks, includeMissing);
    }
  }

  /** Every table can be computed exactly when every k is positive and at
      most the length of every sequence. */
  lemma BlocksOk(seqs: seq<string>, ks: seq<int>, includeMissing: bool)
    requires seqs != []
    ensures (forall i :: 0 <= i < |ks| ==> Block(seqs, ks[i], includeMissing).Ok?) <==>
            (forall kk, i :: kk in ks && 0 <= i < |seqs| ==> 1 <= kk <= |seqs[i]|)
  {
    if forall i :: 0 <= i < |ks| ==> Block(seqs, ks[i], includeMissing).Ok? {
      forall kk, i | kk in ks && 0 <= i < |seqs| ensures 1 <= kk <= |seqs[i]| {
        var j := IndexOf(ks, kk);
        assert Block(seqs, ks[j], includeMissing).Ok?;
        AllWindowsOk(seqs, kk);
      }
    }
    if forall kk, i :: kk in ks && 0 <= i < |seqs| ==> 1 <= kk <= |seqs[i]| {
      forall i | 0 <= i < |ks| ensures Block(seqs, ks[i], includeMissing).Ok? {
        assert ks[i] in ks;
        assert 1 <= ks[i] <= |seqs[0]|;
        AllWindowsOk(seqs, ks[i]);
      }
    }
  }

  /** Each k's table in key order, one k after another. */
  function BlocksVector(seqs: seq<string>, ks: seq<int>, includeMissing: bool): seq<real> {
    Flatten(seq(|ks|, i requires 0 <= i < |ks| => Values(SortByKey(BlockValue(seqs, ks[i], includeMissing)))))
  }

  /** A successful call has at least one sequence and a table for every
      given k, and its loop over k has stored each k's own table. */
  lemma KMerFrequenciesBlocks(a: SeqArg, k: KArg, includeMissing: bool, vector: bool, codons: bool, t: Table)
    requires DistinctKeys(t)
    requires KMerFrequenciesSpec(a, k, includeMissing, vector, codons, t).Ok?
    ensures SeqList(a) != [] && !FalsyK(k)
    ensures forall kk :: kk in KValues(k) ==> Block(SeqList(a), kk, includeMissing).Ok?
    ensures BlocksFrom(SeqList(a), KList(k), includeMissing, []).Ok?
    ensures var out := BlocksFrom(SeqList(a), KList(k), includeMissing, []).value;
      && DistinctKeys(out)
      && (forall key: OutKey :: key in Keys(out) <==> key.KKey? && key.k in KValues(k))
      && (forall kk :: kk in KValues(k) ==> GetOr(out, KKey(kk), []) == BlockValue(SeqList(a), kk, includeMissing))
  {
    var ks, seqs := KList(k), SeqList(a);
    KListFacts(k);
    BlocksFromFacts(seqs, ks, includeMissing, []);
    BlocksOk(seqs, ks, includeMissing);
    KMerFrequenciesOk(a, k, includeMissing, vector, codons, t);
  }

  /** With `vector`, the result is each k's table in key order, for the k
      values in ascending order. */
  lemma KMerFrequenciesVector(a: SeqArg, k: KArg, includeMissing: bool, codons: bool, t: Table)
    requires DistinctKeys(t)
    requires KMerFrequenciesSpec(a, k, includeMissing, true, codons, t).Ok?
    ensures var r := KMerFrequenciesSpec(a, k, includeMissing, true, codons, t).value;
      r.Vector? && r.v == BlocksVector(SeqList(a), KList(k), includeMissing)
  {
    KMerFrequenciesBlocks(a, k, includeMissing, true, codons, t);
    KListFacts(k);
    var out := BlocksFrom(SeqList(a), KList(k), includeMissing, []).value;
    assert KMerFrequenciesSpec(a, k, includeMissing, true, codons, t) == Ok(Vector(VectorOf(out, KList(k))));
    assert forall kk :: kk in KList(k) ==> GetOr(out, KKey(kk), []) == BlockValue(SeqList(a), kk, includeMissing);
    VectorOfBlocks(out, SeqList(a), KList(k), includeMissing);
  }

  /** Without `vector`, the result holds, for every given k, that k's table
      (see `BlockFacts`) under the key k, and nothing else but the absolute
      codon frequencies under "codons" when asked for. */
  lemma KMerFrequenciesTables(a: SeqArg, k: KArg, includeMissing: bool, codons: bool, t: Table)
    requires DistinctKeys(t)
    requires KMerFrequenciesSpec(a, k, includeMissing, false, codons, t).Ok?
    ensures var r, seqs := KMerFrequenciesSpec(a, k, includeMissing, false, codons, t).value, SeqList(a);
      && r.Tables?
      && DistinctKeys(r.d)
      && (forall key: OutKey :: key in Keys(r.d) <==> (key.KKey? && key.k in KValues(k)) || (codons && key == CodonsKey))
      && (forall kk :: kk in KValues(k) ==> GetOr(r.d, KKey(kk), []) == BlockValue(seqs, kk, includeMissing))
      && (codons ==> CodonFrequenciesSpec(ManySeqs(seqs), Absolute, t) == Ok(GetOr(r.d, CodonsKey, [])))
  {
    KMerFrequenciesBlocks(a, k, includeMissing, false, codons, t);
    var out := BlocksFrom(SeqList(a), KList(k), includeMissing, []).value;
    if codons {
      var c := CodonFrequenciesSpec(ManySeqs(SeqList(a)), Absolute, t).value;
      PutCodons(out, c);
    }
  }

  lemma VectorOfBlocks(out: Dict<OutKey, Dict<string, real>>, seqs: seq<string>, ks: seq<int>, includeMissing: bool)
    requires forall kk :: kk in ks ==> GetOr(out, KKey(kk), []) == BlockValue(seqs, kk, includeMissing)
    ensures VectorOf(out, ks) == BlocksVector(seqs, ks, includeMissing)
  {
    var l := seq(|ks|, i requires 0 <= i < |ks| => Values(SortByKey(GetOr(out, KKey(ks[i]), []))));
    var r := seq(|ks|, i requires 0 <= i < |ks| => Values(SortByKey(BlockValue(seqs, ks[i], includeMissing))));
    forall i | 0 <= i < |ks| ensures l[i] == r[i] {
      assert ks[i] in ks;
    }
    assert l == r;
  }

  lemma PutCodons(out: Dict<OutKey, Dict<string, real>>, c: Dict<string, real>)
    ensures forall key: OutKey :: key in Keys(Put(out, CodonsKey, c)) <==> key in Keys(out) || key == CodonsKey
    ensures DistinctKeys(out) ==> DistinctKeys(Put(out, CodonsKey, c))
    ensures forall key :: GetOr(Put(out, CodonsKey, c), key, []) == if key == CodonsKey then c else GetOr(out, key, [])
  {
    PutFacts(out, CodonsKey, c);
    forall key ensures GetOr(Put(out, CodonsKey, c), key, []) == if key == CodonsKey then c else GetOr(out, key, []) {
      PutGetOr(out, CodonsKey, c, key, []);
    }
  }

  lemma ExampleWindows()
    ensures AllWindows(["A", "T"], 1) == Ok(["A", "T"])
  {
    assert Upper("A") == "A" && Upper("T") == "T";
    assert Windows("A", 1) == ["A"] by {
      assert "A"[0..1] == "A";
    }
    assert Windows("T", 1) == ["T"] by {
      assert "T"[0..1] == "T";
    }
    assert ["A", "T"][1..] == ["T"] && ["T"][1..] == [];
    assert KMers(Upper("T"), 1) == Ok(["T"]);
    assert KMers(Upper("A"), 1) == Ok(["A"]);
    assert ["T"] + [] == ["T"] && ["A"] + ["T"] == ["A", "T"];
    assert AllWindows(["T"], 1) == PrependList(["T"], AllWindows([], 1));
    assert AllWindows(["A", "T"], 1) == PrependList(["A"], AllWindows(["T"], 1));
  }

  lemma ExampleCounts()
    ensures Counts(["A", "T"]) == [("A", 1.0), ("T", 1.0)]
  {
    var ws: seq<string> := ["A", "T"];
    assert ws[..1] == ["A"] && ["A"][..0] == [];
    assert Counts(["A"]) == Put([], "A", 0.0 + 1.0);
    assert Counts(["A"]) == [("A", 1.0)];
    assert "T" != "A";
    assert Keys([("A", 1.0)]) == ["A"];
  }

  /** The documented example `k_mer_frequencies(["A", "T"], 1,
      include_missing=False)`. */
  lemma KMerFrequenciesExample(t: Table)
    requires DistinctKeys(t)
    ensures KMerFrequenciesSpec(ManySeqs(["A", "T"]), OneK(1), false, false, false, t)
            == Ok(Tables([(KKey(1), [("A", 0.5), ("T", 0.5)])]))
  {
    var b: Dict<string, real> := [("A", 0.5), ("T", 0.5)];
    ExampleBlock();
    BlocksFromSingle(["A", "T"], 1, false, []);
    assert KList(OneK(1)) == [1];
    assert Put([], KKey(1), b) == [(KKey(1), b)];
    assert !FalsyK(OneK(1)) && !FalsySeq(ManySeqs(["A", "T"]));
  }

  lemma BlocksFromSingle(seqs: seq<string>, kk: int, includeMissing: bool, out: Dict<OutKey, Dict<string, real>>)
    ensures BlocksFrom(seqs, [kk], includeMissing, out)
            == if Block(seqs, kk, includeMissing).Ok? then Ok(Put(out, KKey(kk), Block(seqs, kk, includeMissing).value))
               else Err(Block(seqs, kk, includeMissing).failure)
  {
    assert [kk][1..] == [];
  }

  lemma ExampleBlock()
    ensures Block(["A", "T"], 1, false) == Ok([("A", 0.5), ("T", 0.5)])
  {
    ExampleWindows();
    ExampleCounts();
    var c: Dict<string, real> := [("A", 1.0), ("T", 1.0)];
    assert SumValues(c) == 2.0 by {
      assert Values(c) == [1.0, 1.0];
      assert [1.0, 1.0][1..] == [1.0];
    }
    assert Divide(c, 2.0) == [("A", 0.5), ("T", 0.5)];
  }

  /** The documented example `k_mers("GATTACA", 2)`. */
  lemma NatStringExample()
    ensures NatString(12) == "12" && NatString(7) == "7"
  {
    assert NatString(1) == "1";
  }

  lemma LengthMessageExample()
    ensures LengthMessage(12, 7) == "k (12) may not be less then length of seq (7)."
  {
    NatStringExample();
    assert LengthMessage(12, 7) == "k (" + "12" + ") may not be less then length of seq (" + "7" + ").";
    MessageJoin();
  }

  lemma MessageJoin()
    ensures "k (" + "12" + ") may not be less then length of seq (" + "7" + ")."
            == "k (12) may not be less then length of seq (7)."
  {
  }

  lemma KMersExample()
    ensures KMers("GATTACA", 2) == Ok(["GA", "AT", "TT", "TA", "AC", "CA"])
    ensures KMers("GATTACA", 12) == Err(ValueError("k (12) may not be less then length of seq (7)."))
  {
    LengthMessageExample();
    var s := "GATTACA";
    assert s[0..2] == "GA" && s[1..3] == "AT" && s[2..4] == "TT";
    assert s[3..5] == "TA" && s[4..6] == "AC" && s[5..7] == "CA";
    var w := Windows(s, 2);
    assert w[0] == "GA" && w[1] == "AT" && w[2] == "TT";
    assert w[3] == "TA" && w[4] == "AC" && w[5] == "CA";
    assert w == ["GA", "AT", "TT", "TA", "AC", "CA"];
  }

  // ---------------------------------------------------------------------
  // amino_acids_to_codons (freqgen/freqgen.py:65-98)
  // ---------------------------------------------------------------------

  /** What the loop body does for one residue: append a codon, swallow a
      KeyError, or let `np.random.choice` raise. */
  datatype Pick = Picked(codon: string) | Skipped | Raised(failure: Failure)

  /** `codons_dict[aa]` on the default dictionary: an unknown residue gives
      the empty list. */
  function CodonList(inv: Dict<char, seq<string>>, aa: char): seq<string> {
    GetOr(inv, aa, [])
  }

  /** The weights `[codon_frequencies[codon] for codon in codons]`. */
  function Weights(freqs: Dict<string, real>, codons: seq<string>): seq<real>
    requires forall j :: 0 <= j < |codons| ==> codons[j] in Keys(freqs)
  {
    seq(|codons|, j requires 0 <= j < |codons| => Get(freqs, codons[j]).value)
  }

  predicate WeightsAccepted(p: seq<real>) {
    p != [] && (forall j :: 0 <= j < |p| ==> p[j] >= 0.0) && SumReals(p) == 1.0
  }

  /** A draw is an index holding positive weight, whenever `np.random.choice`
      gets as far as drawing. */
  predicate DrawFits(inv: Dict<char, seq<string>>, freqs: Dict<string, real>, aa: char, draw: nat) {
    var codons := CodonList(inv, aa);
    ((forall j :: 0 <= j < |codons| ==> codons[j] in Keys(freqs)) && WeightsAccepted(Weights(freqs, codons)))
    ==> draw < |codons| && Weights(freqs, codons)[draw] > 0.0
  }

  function PickFor(inv: Dict<char, seq<string>>, freqs: Dict<string, real>, aa: char, draw: nat): Pick
    requires DrawFits(inv, freqs, aa, draw)
  {
    var codons := CodonList(inv, aa);
    if exists j :: 0 <= j < |codons| && codons[j] !in Keys(freqs) then Skipped
    else
      var p := Weights(freqs, codons);
      if codons == [] then Raised(ValueError("'a' cannot be empty unless no samples are taken"))
      else if exists j :: 0 <= j < |p| && p[j] < 0.0 then Raised(ValueError("probabilities are not non-negative"))
      else if SumReals(p) != 1.0 then Raised(ValueError("probabilities do not sum to 1"))
      else Picked(codons[draw])
  }

  predicate AllDrawsFit(inv: Dict<char, seq<string>>, freqs: Dict<string, real>, aas: string, draws: seq<nat>) {
    |draws| == |aas| && forall i :: 0 <= i < |aas| ==> DrawFits(inv, freqs, aas[i], draws[i])
  }

  lemma AllDrawsFitTail(inv: Dict<char, seq<string>>, freqs: Dict<string, real>, aas: string, draws: seq<nat>)
    requires aas != [] && AllDrawsFit(inv, freqs, aas, draws)
    ensures AllDrawsFit(inv, freqs, aas[1..], draws[1..])
  {
    assert forall i :: 0 <= i < |aas| - 1 ==> aas[1..][i] == aas[i + 1] && draws[1..][i] == draws[i + 1];
  }

  /** The appended codons, or the first error raised. */
  function Picks(inv: Dict<char, seq<string>>, freqs: Dict<string, real>, aas: string, draws: seq<nat>)
    : Result<seq<string>>
    requires AllDrawsFit(inv, freqs, aas, draws)
    decreases |aas|
  {
    if aas == [] then Ok([])
    else
      AllDrawsFitTail(inv, freqs, aas, draws);
      var rest := Picks(inv, freqs, aas[1..], draws[1..]);
      match PickFor(inv, freqs, aas[0], draws[0])
      case Raised(f) => Err(f)
      case Skipped => rest
      case Picked(c) => PrependList([c], rest)
  }

  /** What `amino_acids_to_codons(aa_seq, codon_frequencies)` returns, with
      `inv` the table's `codons_for_aa`. */
  function AminoAcidsToCodonsSpec(inv: Dict<char, seq<string>>, freqs: Dict<string, real>, aas: string, draws: seq<nat>)
    : Result<string>
    requires AllDrawsFit(inv, freqs, aas, draws)
  {
    var picks := Picks(inv, freqs, aas, draws);
    if picks.Err? then Err(picks.failure)
    else if |picks.value| != |aas| then Err(KeyError("Missing codon frequency."))
    else Ok(Join(picks.value))
  }

  /** The loop over the residues. */
  method AminoAcidsToCodons(inv: Dict<char, seq<string>>, freqs: Dict<string, real>, aas: string, draws: seq<nat>)
    returns (r: Result<string>)
    requires AllDrawsFit(inv, freqs, aas, draws)
    ensures r == AminoAcidsToCodonsSpec(inv, freqs, aas, draws)
  {
    var sequence: seq<string> := [];
    PrependListAppend([], [], Picks(inv, freqs, aas, draws));
    var i := 0;
    while i < |aas|
      invariant i <= |aas|
      invariant AllDrawsFit(inv, freqs, aas[i..], draws[i..])
      invariant Picks(inv, freqs, aas, draws) == PrependList(sequence, Picks(inv, freqs, aas[i..], draws[i..]))
    {
      AllDrawsFitTail(inv, freqs, aas[i..], draws[i..]);
      assert aas[i..][1..] == aas[i + 1..] && draws[i..][1..] == draws[i + 1..];
      var pick := PickFor(inv, freqs, aas[i], draws[i]);
      match pick {
        case Raised(f) =>
          return Err(f);
        case Skipped =>
        case Picked(c) =>
          PrependListAppend(sequence, [c], Picks(inv, freqs, aas[i + 1..], draws[i + 1..]));
          sequence := sequence + [c];
      }
      i := i + 1;
    }
    assert aas[i..] == [] && sequence + [] == sequence;
    if |sequence| != |aas| {
      return Err(KeyError("Missing codon frequency."));
    }
    return Ok(Join(sequence));
  }

  /** A picked codon is one of the residue's codons, with a frequency, and
      drawn with positive weight. */
  lemma PickedFacts(inv: Dict<char, seq<string>>, freqs: Dict<string, real>, aa: char, draw: nat)
    requires DrawFits(inv, freqs, aa, draw) && PickFor(inv, freqs, aa, draw).Picked?
    ensures var c := PickFor(inv, freqs, aa, draw).codon;
      c in CodonList(inv, aa) && c in Keys(freqs) && Get(freqs, c).value > 0.0
  {
  }

  /** The loop appends a codon for every residue that does not fail; it
      fails, always with ValueError, exactly when some residue raises. */
  lemma PicksFacts(inv: Dict<char, seq<string>>, freqs: Dict<string, real>, aas: string, draws: seq<nat>)
    requires AllDrawsFit(inv, freqs, aas, draws)
    ensures Picks(inv, freqs, aas, draws).Ok? <==> forall i :: 0 <= i < |aas| ==> !PickFor(inv, freqs, aas[i], draws[i]).Raised?
    ensures Picks(inv, freqs, aas, draws).Err? ==> Picks(inv, freqs, aas, draws).failure.ValueError?
    ensures Picks(inv, freqs, aas, draws).Ok? ==> |Picks(inv, freqs, aas, draws).value| <= |aas|
    ensures Picks(inv, freqs, aas, draws).Ok? && |Picks(inv, freqs, aas, draws).value| == |aas| <==>
              forall i :: 0 <= i < |aas| ==> PickFor(inv, freqs, aas[i], draws[i]).Picked?
    ensures Picks(inv, freqs, aas, draws).Ok? && |Picks(inv, freqs, aas, draws).value| == |aas| ==>
              forall i :: 0 <= i < |aas| ==> PickFor(inv, freqs, aas[i], draws[i]) == Picked(Picks(inv, freqs, aas, draws).value[i])
  {
    PicksErrors(inv, freqs, aas, draws);
    PicksComplete(inv, freqs, aas, draws);
  }

  lemma PicksErrors(inv: Dict<char, seq<string>>, freqs: Dict<string, real>, aas: string, draws: seq<nat>)
    requires AllDrawsFit(inv, freqs, aas, draws)
    ensures Picks(inv, freqs, aas, draws).Ok? <==> forall i :: 0 <= i < |aas| ==> !PickFor(inv, freqs, aas[i], draws[i]).Raised?
    ensures Picks(inv, freqs, aas, draws).Err? ==> Picks(inv, freqs, aas, draws).failure.ValueError?
    ensures Picks(inv, freqs, aas, draws).Ok? ==> |Picks(inv, freqs, aas, draws).value| <= |aas|
  {
    PicksOk(inv, freqs, aas, draws);
    PicksShape(inv, freqs, aas, draws);
  }

  lemma {:induction false} PicksOk(inv: Dict<char, seq<string>>, freqs: Dict<string, real>, aas: string, draws: seq<nat>)
    requires AllDrawsFit(inv, freqs, aas, draws)
    ensures Picks(inv, freqs, aas, draws).Ok? <==> forall i :: 0 <= i < |aas| ==> !PickFor(inv, freqs, aas[i], draws[i]).Raised?
    decreases |aas|
  {
    if aas != [] {
      AllDrawsFitTail(inv, freqs, aas, draws);
      var tl, dl := aas[1..], draws[1..];
      PicksOk(inv, freqs, tl, dl);
      assert forall i :: 0 <= i < |tl| ==> tl[i] == aas[i + 1] && dl[i] == draws[i + 1];
    }
  }

  lemma {:induction false} PicksShape(inv: Dict<char, seq<string>>, freqs: Dict<string, real>, aas: string, draws: seq<nat>)
    requires AllDrawsFit(inv, freqs, aas, draws)
    ensures Picks(inv, freqs, aas, draws).Err? ==> Picks(inv, freqs, aas, draws).failure.ValueError?
    ensures Picks(inv, freqs, aas, draws).Ok? ==> |Picks(inv, freqs, aas, draws).value| <= |aas|
    decreases |aas|
  {
    if aas != [] {
      AllDrawsFitTail(inv, freqs, aas, draws);
      PicksShape(inv, freqs, aas[1..], draws[1..]);
    }
  }

  lemma {:induction false} PicksComplete(inv: Dict<char, seq<string>>, freqs: Dict<string, real>, aas: string, draws: seq<nat>)
    requires AllDrawsFit(inv, freqs, aas, draws)
    ensures Picks(inv, freqs, aas, draws).Ok? && |Picks(inv, freqs, aas, draws).value| == |aas| <==>
              forall i :: 0 <= i < |aas| ==> PickFor(inv, freqs, aas[i], draws[i]).Picked?
    ensures Picks(inv, freqs, aas, draws).Ok? && |Picks(inv, freqs, aas, draws).value| == |aas| ==>
              forall i :: 0 <= i < |aas| ==> PickFor(inv, freqs, aas[i], draws[i]) == Picked(Picks(inv, freqs, aas, draws).value[i])
    decreases |aas|
  {
    if aas != [] {
      AllDrawsFitTail(inv, freqs, aas, draws);
      var tl, dl := aas[1..], draws[1..];
      PicksComplete(inv, freqs, tl, dl);
      PicksErrors(inv, freqs, tl, dl);
      assert forall i :: 0 <= i < |tl| ==> tl[i] == aas[i + 1] && dl[i] == draws[i + 1];
      var rest := Picks(inv, freqs, tl, dl);
      var p := PickFor(inv, freqs, aas[0], draws[0]);
      if p.Picked? && rest.Ok? {
        var v := Picks(inv, freqs, aas, draws).value;
        assert v == [p.codon] + rest.value;
        if |v| == |aas| {
          forall i | 0 <= i < |aas| ensures PickFor(inv, freqs, aas[i], draws[i]) == Picked(v[i]) {
            if i > 0 {
              assert v[i] == rest.value[i - 1];
            }
          }
        }
      }
    }
  }

  /** A residue that no codon of the table encodes is looked up in the
      default dictionary as the empty list, and `np.random.choice` rejects
      it with ValueError. */
  lemma UnknownResidue(t: Table, freqs: Dict<string, real>, aa: char, draw: nat)
    requires aa !in Values(t)
    ensures DrawFits(Invert(t), freqs, aa, draw)
    ensures PickFor(Invert(t), freqs, aa, draw) == Raised(ValueError("'a' cannot be empty unless no samples are taken"))
  {
    InvertFacts(t);
  }

  /** `amino_acids_to_codons` succeeds exactly when every residue yields a
      codon; the result then has three bases per residue and translates
      back to the residues, codon by codon. A failure with no residue
      raising is the KeyError "Missing codon frequency.". */
  lemma AminoAcidsToCodonsFacts(t: Table, freqs: Dict<string, real>, aas: string, draws: seq<nat>)
    requires ValidTable(t) && AllDrawsFit(Invert(t), freqs, aas, draws)
    ensures var r := AminoAcidsToCodonsSpec(Invert(t), freqs, aas, draws);
      && (r.Ok? <==> forall i :: 0 <= i < |aas| ==> PickFor(Invert(t), freqs, aas[i], draws[i]).Picked?)
      && (r.Err? && (forall i :: 0 <= i < |aas| ==> !PickFor(Invert(t), freqs, aas[i], draws[i]).Raised?) ==>
            r == Err(KeyError("Missing codon frequency.")))
      && (r.Err? && r.failure.KeyError? <==> (forall i :: 0 <= i < |aas| ==> !PickFor(Invert(t), freqs, aas[i], draws[i]).Raised?)
                                             && exists i :: 0 <= i < |aas| && PickFor(Invert(t), freqs, aas[i], draws[i]).Skipped?)
      && (r.Ok? ==> |r.value| == 3 * |aas| && IsDna(r.value)
                    && forall i :: 0 <= i < |aas| ==> Translation(t, r.value)[i] == Some(aas[i]))
  {
    var inv := Invert(t);
    PicksFacts(inv, freqs, aas, draws);
    var picks := Picks(inv, freqs, aas, draws);
    if picks.Ok? && |picks.value| == |aas| {
      var v := picks.value;
      forall j | 0 <= j < |v| ensures |v[j]| == 3 && IsDna(v[j]) && Get(t, v[j]) == Some(aas[j]) {
        PickedCodon(t, freqs, aas[j], draws[j]);
      }
      JoinedCodons(t, v, aas);
    }
  }

  /** A codon picked from the inverted table encodes its residue. */
  lemma PickedCodon(t: Table, freqs: Dict<string, real>, aa: char, draw: nat)
    requires ValidTable(t) && DrawFits(Invert(t), freqs, aa, draw) && PickFor(Invert(t), freqs, aa, draw).Picked?
    ensures var c := PickFor(Invert(t), freqs, aa, draw).codon;
      |c| == 3 && IsDna(c) && Get(t, c) == Some(aa)
  {
    var c := PickFor(Invert(t), freqs, aa, draw).codon;
    PickedFacts(Invert(t), freqs, aa, draw);
    InvertFacts(t);
    CodonsOfMember(t, aa, c);
    var m := IndexOf(Keys(t), c);
  }

  /** Joining codons that encode the residues one by one gives DNA that
      translates to the residues. */
  lemma JoinedCodons(t: Table, v: seq<string>, aas: string)
    requires |v| == |aas|
    requires forall j :: 0 <= j < |v| ==> |v[j]| == 3 && IsDna(v[j]) && Get(t, v[j]) == Some(aas[j])
    ensures |Join(v)| == 3 * |aas| && IsDna(Join(v))
    ensures forall i :: 0 <= i < |aas| ==> Translation(t, Join(v))[i] == Some(aas[i])
  {
    var s := Join(v);
    JoinLength(v, 3);
    assert |s| / 3 == |v|;
    forall i | 0 <= i < |s| / 3 ensures s[3 * i..3 * i + 3] == v[i] && IsDna(s[3 * i..3 * i + 3]) {
      JoinTriplets(v, i);
    }
    DnaFromTriplets(s);
  }
}
