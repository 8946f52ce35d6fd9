/** The original single-file library, freqgen.py at the repository root.

    It predates the package in freqgen/: `translate` skips codons the table
    lacks, `k_mers` is a generator built on `islice`, `codon_frequencies`
    normalises within each amino acid with 0 for unused ones, and
    `k_mer_frequencies` takes `include_missing="dna"`. The genetic code
    (CAI's `genetic_codes[genetic_code]`) is a parameter; `codons_for_aa`
    is `GeneticCode.InvertTable`. */
module LegacyFreqgen {
  import opened Wrappers
  import opened Dicts
  import opened Dna
  import opened GeneticCode
  import opened FreqgenEngine

  // ---------------------------------------------------------------------
  // gc_content (freqgen.py:71-90)
  // ---------------------------------------------------------------------

  /** The G+C share of a DNA string; any letter outside A, T, G, C is a
      ValueError, and the empty string divides by zero. */
  function GcContent(s: string): (r: Result<real>)
    ensures r.Ok? <==> IsDna(s) && s != []
    ensures !IsDna(s) ==> r == Err(ValueError("Invalid character in sequence."))
    ensures s == [] ==> r == Err(ZeroDivisionError)
    ensures r.Ok? ==> 0.0 <= r.value <= 1.0
    ensures r.Ok? ==> r.value * |s| as real == (CountChar(s, 'G') + CountChar(s, 'C')) as real
  {
    if !IsDna(s) then Err(ValueError("Invalid character in sequence."))
    else if s == [] then Err(ZeroDivisionError)
    else
      CountCharPair(s, 'G', 'C');
      var gc := (CountChar(s, 'G') + CountChar(s, 'C')) as real;
      ShareBounds(gc, |s| as real);
      Ok(gc / |s| as real)
  }

  /** A share of a positive whole lies between 0 and 1. */
  lemma ShareBounds(x: real, n: real)
    requires 0.0 <= x <= n && n > 0.0
    ensures 0.0 <= x / n <= 1.0 && x / n * n == x
  {
    var q := x / n;
    assert q * n == x;
    assert q <= 1.0;
  }

  lemma GcContentExample()
    ensures GcContent("GATTACA") == Ok(2.0 / 7.0)
    ensures GcContent("GATXACA").Err?
  {
    assert "GATTACA"[1..] == "ATTACA" && "ATTACA"[1..] == "TTACA" && "TTACA"[1..] == "TACA";
    assert "TACA"[1..] == "ACA" && "ACA"[1..] == "CA" && "CA"[1..] == "A" && "A"[1..] == "";
    assert !IsBase("GATXACA"[3]);
  }

  // ---------------------------------------------------------------------
  // translate (freqgen.py:226-263)
  // ---------------------------------------------------------------------

  /** The amino acids of the codons the table has, in order. */
  function Present(xs: seq<Option<char>>): (r: string)
    ensures |r| <= |xs|
  {
    if xs == [] then []
    else Present(xs[..|xs| - 1]) + (if xs[|xs| - 1].Some? then [xs[|xs| - 1].value] else [])
  }

  /** The position of the first letter outside A, T, G, C. */
  function FirstNonBase(s: string): (j: nat)
    requires !IsDna(s)
    ensures j < |s| && !IsBase(s[j]) && IsDna(s[..j])
  {
    if !IsBase(s[0]) then 0
    else
      var j := 1 + FirstNonBase(s[1..]);
      assert forall i :: 1 <= i < j ==> s[..j][i] == s[1..][..j - 1][i - 1];
      j
  }

  /** `ValueError("Invalid character in sequence: ", base)` carries two
      arguments, the text and the first offending base; `why` holds the
      text followed by that base. */
  function InvalidBase(c: char): Failure {
    ValueError("Invalid character in sequence: " + [c])
  }

  function TranslateSpec(t: Table, s: string): (r: Result<string>)
    ensures r.Ok? <==> IsDna(s) && |s| % 3 == 0
    ensures !IsDna(s) ==> exists j :: 0 <= j < |s| && IsDna(s[..j]) && !IsBase(s[j]) && r == Err(InvalidBase(s[j]))
    ensures IsDna(s) && |s| % 3 != 0 ==> r == Err(ValueError("Invalid sequence length."))
  {
    if !IsDna(s) then Err(InvalidBase(s[FirstNonBase(s)]))
    else if |s| % 3 != 0 then Err(ValueError("Invalid sequence length."))
    else Ok(Present(Translation(t, s)))
  }

  /** The validation loop, then the codon loop that appends what the table
      has and skips (with a warning) what it lacks. */
  method Translate(t: Table, s: string) returns (r: Result<string>)
    ensures r == TranslateSpec(t, s)
  {
    var j := 0;
    while j < |s|
      invariant j <= |s|
      invariant IsDna(s[..j])
    {
      if !IsBase(s[j]) {
        assert !IsDna(s);
        assert FirstNonBase(s) == j;
        return Err(InvalidBase(s[j]));
      }
      assert s[..j + 1] == s[..j] + [s[j]];
      j := j + 1;
    }
    assert s[..|s|] == s;
    if |s| % 3 != 0 {
      return Err(ValueError("Invalid sequence length."));
    }
    var tr := Translation(t, s);
    var aa: string := [];
    var i := 0;
    while i < |s| / 3
      invariant i <= |s| / 3
      invariant aa == Present(tr[..i])
    {
      assert tr[..i + 1][..i] == tr[..i];
      var codon := s[3 * i..3 * i + 3];
      match Get(t, codon) {
        case Some(a) =>
          aa := aa + [a];
        case None =>
      }
      i := i + 1;
    }
    assert tr[..|s| / 3] == tr;
    r := Ok(aa);
  }

  lemma {:induction false} PresentAll(xs: seq<Option<char>>)
    requires forall i :: 0 <= i < |xs| ==> xs[i].Some?
    ensures |Present(xs)| == |xs|
    ensures forall i :: 0 <= i < |xs| ==> Present(xs)[i] == xs[i].value
  {
    if xs != [] {
      PresentAll(xs[..|xs| - 1]);
    }
  }

  /** Every letter of the result is the amino acid of some codon. */
  lemma {:induction false} PresentFrom(xs: seq<Option<char>>)
    ensures forall a :: a in Present(xs) ==> Some(a) in xs
  {
    if xs != [] {
      PresentFrom(xs[..|xs| - 1]);
      assert xs == xs[..|xs| - 1] + [xs[|xs| - 1]];
    }
  }

  lemma {:induction false} PresentNone(xs: seq<Option<char>>)
    requires forall i :: 0 <= i < |xs| ==> xs[i].None?
    ensures Present(xs) == []
  {
    if xs != [] {
      PresentNone(xs[..|xs| - 1]);
    }
  }

  /** A DNA string of whole codons that the table covers translates codon by
      codon; codons the table lacks only shorten the result, and from
      letters the table does not produce. */
  lemma TranslateFacts(t: Table, s: string)
    requires IsDna(s) && |s| % 3 == 0
    ensures TranslateSpec(t, s).Ok?
    ensures |TranslateSpec(t, s).value| <= |s| / 3
    ensures forall a :: a in TranslateSpec(t, s).value ==> a in Values(t)
    ensures (forall i :: 0 <= i < |s| / 3 ==> s[3 * i..3 * i + 3] in Keys(t)) ==>
      |TranslateSpec(t, s).value| == |s| / 3
      && forall i :: 0 <= i < |s| / 3 ==> Some(TranslateSpec(t, s).value[i]) == Get(t, s[3 * i..3 * i + 3])
  {
    var tr := Translation(t, s);
    PresentFrom(tr);
    forall a | a in Present(tr) ensures a in Values(t) {
      var i :| 0 <= i < |tr| && tr[i] == Some(a);
      var c := s[3 * i..3 * i + 3];
      var j := IndexOf(Keys(t), c);
      assert t[j].1 == a;
    }
    if forall i :: 0 <= i < |s| / 3 ==> s[3 * i..3 * i + 3] in Keys(t) {
      PresentAll(tr);
    }
  }

  lemma ExampleDna()
    ensures IsDna("ATTAATCAAACGGAGTTA") && IsDna("ATTTAA") && IsDna("ATTA")
  {
    var s, u, v := "ATTAATCAAACGGAGTTA", "ATTTAA", "ATTA";
    forall i | 0 <= i < |s| ensures IsBase(s[i]) {}
    forall i | 0 <= i < |u| ensures IsBase(u[i]) {}
    forall i | 0 <= i < |v| ensures IsBase(v[i]) {}
  }

  /** The six lookups the documented example relies on. */
  ghost predicate KnowsExample(t: Table) {
    && Get(t, "ATT") == Some('I') && Get(t, "AAT") == Some('N') && Get(t, "CAA") == Some('Q')
    && Get(t, "ACG") == Some('T') && Get(t, "GAG") == Some('E') && Get(t, "TTA") == Some('L')
  }

  lemma ExampleTranslation(t: Table)
    requires KnowsExample(t)
    ensures Translation(t, "ATTAATCAAACGGAGTTA")
      == [Some('I'), Some('N'), Some('Q'), Some('T'), Some('E'), Some('L')]
  {
    var s := "ATTAATCAAACGGAGTTA";
    assert s[0..3] == "ATT" && s[3..6] == "AAT" && s[6..9] == "CAA";
    assert s[9..12] == "ACG" && s[12..15] == "GAG" && s[15..18] == "TTA";
  }

  lemma ExampleStopTranslation(t: Table)
    requires Get(t, "ATT") == Some('I') && Get(t, "TAA") == None
    ensures Translation(t, "ATTTAA") == [Some('I'), None]
  {
    assert "ATTTAA"[0..3] == "ATT" && "ATTTAA"[3..6] == "TAA";
  }

  lemma PresentExample()
    ensures Present([Some('I'), Some('N'), Some('Q'), Some('T'), Some('E'), Some('L')]) == "INQTEL"
  {
    var tr := [Some('I'), Some('N'), Some('Q'), Some('T'), Some('E'), Some('L')];
    PresentAll(tr);
    assert Present(tr)[0] == 'I' && Present(tr)[1] == 'N' && Present(tr)[2] == 'Q';
    assert Present(tr)[3] == 'T' && Present(tr)[4] == 'E' && Present(tr)[5] == 'L';
  }

  /** "ATTAATCAAACGGAGTTA" translates to "INQTEL" under every table with
      those six codons. */
  lemma TranslateExample(t: Table)
    requires KnowsExample(t)
    ensures TranslateSpec(t, "ATTAATCAAACGGAGTTA") == Ok("INQTEL")
  {
    ExampleDna();
    ExampleTranslation(t);
    PresentExample();
  }

  /** A codon the table lacks (a stop codon) is skipped; a partial codon is
      an error. */
  lemma TranslateStopExample(t: Table)
    requires Get(t, "ATT") == Some('I') && Get(t, "TAA") == None
    ensures TranslateSpec(t, "ATTTAA") == Ok("I")
    ensures TranslateSpec(t, "ATTA") == Err(ValueError("Invalid sequence length."))
    ensures TranslateSpec(t, "ANTX") == Err(ValueError("Invalid character in sequence: N"))
  {
    assert !IsBase("ANTX"[1]) && !IsBase("NTX"[0]);
    assert "ANTX"[1..] == "NTX" && FirstNonBase("NTX") == 0;
    assert FirstNonBase("ANTX") == 1;
    assert "Invalid character in sequence: " + ['N'] == "Invalid character in sequence: N";
    ExampleDna();
    ExampleStopTranslation(t);
    var tu := [Some('I'), None];
    assert tu[..1] == [Some('I')];
    assert [Some('I')][..0] == [];
    assert Present(tu) == "I";
  }

  // ---------------------------------------------------------------------
  // k_mers (freqgen.py:265-295)
  // ---------------------------------------------------------------------

  /** `sys.maxsize` on a 64-bit CPython. */
  const MaxSize: int := 0x7FFF_FFFF_FFFF_FFFF

  const StopMessage := "Stop argument for islice() must be None or an integer: 0 <= x <= sys.maxsize."
  const IndicesMessage := "Indices for islice() must be None or an integer: 0 <= x <= sys.maxsize."

  /** CPython's argument check in `islice(it, k)`. A stop that does not fit
      a signed 64-bit size, and -1 (the value the conversion reports an
      overflow with), give the first message; any other negative stop
      gives the second. */
  function IsliceStop(k: int): (r: Result<nat>)
    ensures r.Ok? <==> 0 <= k <= MaxSize
    ensures r.Ok? ==> r.value == k
    ensures (k == -1 || k > MaxSize || k < -MaxSize - 1) ==> r == Err(ValueError(StopMessage))
    ensures -MaxSize - 1 <= k <= -2 ==> r == Err(ValueError(IndicesMessage))
  {
    if k == -1 || k > MaxSize || k < -MaxSize - 1 then Err(ValueError(StopMessage))
    else if k < 0 then Err(ValueError(IndicesMessage))
    else Ok(k)
  }

  /** What the generator yields. `islice` rejects a negative or oversized
      k; with k = 0 the empty first window is yielded and every later
      window is a single letter, since dropping the head of an empty tuple
      leaves it empty; a k beyond the length yields nothing. */
  function LegacyKMersSpec(s: string, k: int): Result<seq<string>> {
    var stop := IsliceStop(k);
    if stop.Err? then Err(stop.failure)
    else if k == 0 then Ok([""] + Windows(s, 1))
    else if k > |s| then Ok([])
    else Ok(Windows(s, k))
  }

  /** The tuple held after reading `i` letters (k >= 1: the last k). */
  ghost function Rolled(s: string, k: nat, i: nat): string
    requires i <= |s| && (k >= 1 ==> k <= i)
  {
    if k == 0 then (if i == 0 then "" else s[i - 1..i]) else s[i - k..i]
  }

  /** The number of windows yielded after reading `i` letters. */
  function Yielded(k: nat, n: nat, i: nat): nat
    requires n <= i
  {
    i - n + (if n == k then 1 else 0)
  }

  /** The rolling-tuple generator, collected into a list. */
  method LegacyKMers(s: string, k: int) returns (r: Result<seq<string>>)
    ensures r == LegacyKMersSpec(s, k)
  {
    var stop := IsliceStop(k);
    if stop.Err? {
      return Err(stop.failure);
    }
    ghost var all := LegacyKMersSpec(s, k).value;
    var n := Min(k, |s|);
    var window := s[..n];
    var out: seq<string> := if n == k then [window] else [];
    var i := n;
    YieldedBounds(s, k);
    while i < |s|
      invariant n <= i <= |s|
      invariant i < |s| ==> n == k
      invariant n == k ==> window == Rolled(s, k, i)
      invariant out == all[..Yielded(k, n, i)]
    {
      RollStep(s, k, i, window);
      window := (if window == [] then [] else window[1..]) + [s[i]];
      RolledYielded(s, k, i);
      out := out + [window];
      i := i + 1;
    }
    assert out == all;
    return Ok(out);
  }

  lemma YieldedBounds(s: string, k: nat)
    requires k <= MaxSize
    ensures var n := Min(k, |s|);
      && |LegacyKMersSpec(s, k).value| == Yielded(k, n, |s|)
      && (n == k ==> s[..n] == Rolled(s, k, n))
      && (if n == k then [s[..n]] else []) == LegacyKMersSpec(s, k).value[..Yielded(k, n, n)]
  {
  }

  lemma RollStep(s: string, k: nat, i: nat, window: string)
    requires k <= i < |s| && window == Rolled(s, k, i)
    ensures (if window == [] then [] else window[1..]) + [s[i]] == Rolled(s, k, i + 1)
  {
  }

  /** The window completed by letter `i` is the next one the generator
      yields. */
  lemma RolledYielded(s: string, k: nat, i: nat)
    requires k <= i < |s| && k <= MaxSize
    ensures Yielded(k, k, i) < |LegacyKMersSpec(s, k).value|
    ensures LegacyKMersSpec(s, k).value[Yielded(k, k, i)] == Rolled(s, k, i + 1)
  {
  }

  lemma WindowsStep(s: string, k: nat, i: nat)
    requires 1 <= k <= i + 1 <= |s|
    ensures Windows(s, k)[..i - k + 2] == Windows(s, k)[..i - k + 1] + [s[i + 1 - k..i + 1]]
  {
  }

  /** For k >= 1 the generator yields the windows of length k, none when k
      exceeds the length; only a negative k or one above `sys.maxsize` is
      an error, and it is `islice`'s. */
  lemma LegacyKMersFacts(s: string, k: int)
    ensures LegacyKMersSpec(s, k).Ok? <==> 0 <= k <= MaxSize
    ensures LegacyKMersSpec(s, k).Err? ==> LegacyKMersSpec(s, k) == Err(IsliceStop(k).failure)
    ensures 1 <= k <= MaxSize ==> var ws := LegacyKMersSpec(s, k).value;
      && |ws| == (if k > |s| then 0 else |s| - k + 1)
      && forall i :: 0 <= i < |ws| ==> ws[i] == s[i..i + k]
    ensures k == 0 ==> var ws := LegacyKMersSpec(s, k).value;
      |ws| == |s| + 1 && ws[0] == "" && forall i :: 1 <= i <= |s| ==> |ws[i]| == 1
  {
  }

  lemma LegacyKMersExample()
    ensures LegacyKMersSpec("GA", 0) == Ok(["", "G", "A"])
    ensures LegacyKMersSpec("GA", 3) == Ok([])
    ensures LegacyKMersSpec("GA", -1) == Err(ValueError(StopMessage))
    ensures LegacyKMersSpec("GA", -2) == Err(ValueError(IndicesMessage))
    ensures LegacyKMersSpec("GA", MaxSize + 1) == Err(ValueError(StopMessage))
    ensures LegacyKMersSpec("GA", MaxSize) == Ok([])
  {
    var w := Windows("GA", 1);
    assert w[0] == "GA"[0..1] == "G" && w[1] == "GA"[1..2] == "A";
    assert [""] + w == ["", "G", "A"];
  }

  // ---------------------------------------------------------------------
  // k_mer_frequencies (freqgen.py:297-344)
  // ---------------------------------------------------------------------

  /** `k_mer_frequencies(seq, k, include_missing)`, where `dna` stands for
      `include_missing == "dna"`. */
  function LegacyKMerFrequencies(s: string, k: int, dna: bool): (r: Result<Dict<string, real>>)
    ensures r.Ok? <==> 0 <= k <= MaxSize
    ensures r.Err? ==> r == Err(IsliceStop(k).failure)
  {
    var ws := LegacyKMersSpec(s, k);
    if ws.Err? then Err(ws.failure)
    else
      var count := Counts(ws.value);
      CountsSum(ws.value);
      CountsKeys(ws.value);
      var frequencies := Divide(count, SumValues(count));
      Ok(if dna then Merge(Defaults(k), frequencies) else frequencies)
  }

  /** Observed k-mers map to count/total and sum to 1; with "dna" every
      ATGC k-mer is a key, unobserved ones at 0. Nothing observed gives an
      empty table, or all zeros with "dna". */
  lemma LegacyKMerFrequenciesFacts(s: string, k: int, dna: bool)
    ensures LegacyKMerFrequencies(s, k, dna).Ok? <==> 0 <= k <= MaxSize
    ensures 0 <= k <= MaxSize ==>
      var ws, f := LegacyKMersSpec(s, k).value, LegacyKMerFrequencies(s, k, dna).value;
      && DistinctKeys(f)
      && (forall w :: w in Keys(f) <==> w in ws || (dna && w in AllKmers(k)))
      && (ws != [] ==> (forall w :: GetOr(f, w, 0.0) == Occ(ws, w) as real / |ws| as real) && SumValues(f) == 1.0)
      && (ws == [] ==> forall w :: GetOr(f, w, 0.0) == 0.0)
  {
    if 0 <= k <= MaxSize {
      var ws := LegacyKMersSpec(s, k).value;
      CountsSum(ws);
      CountsKeys(ws);
      assert Divide(Counts(ws), SumValues(Counts(ws))) == Observed(ws);
      ObservedFacts(ws);
      var f := LegacyKMerFrequencies(s, k, dna).value;
      if dna {
        if ws != [] {
          MergedFacts(k, ws);
        } else {
          assert f == Defaults(k);
          DefaultsFacts(k);
          AllKmersMember(k);
          forall w ensures GetOr(f, w, 0.0) == 0.0 {
            DefaultsZero(k, w);
          }
        }
      }
    }
  }

  // ---------------------------------------------------------------------
  // codon_frequencies (freqgen.py:130-224)
  // ---------------------------------------------------------------------

  /** `counts[codon]` for each codon of a group. */
  function GroupCounts(counts: Dict<string, real>, group: seq<string>): seq<real> {
    seq(|group|, j requires 0 <= j < |group| => GetOr(counts, group[j], 0.0))
  }

  /** `counts[codon] / total`, or 0 where the division raises. */
  function Quot(x: real, total: real): real {
    if total == 0.0 then 0.0 else x / total
  }

  /** The inner loop: `freqs[codon] = ...` for each codon of one group. */
  function FillGroup(d: Dict<string, real>, counts: Dict<string, real>, group: seq<string>, total: real)
    : Dict<string, real>
  {
    if group == [] then d
    else
      var c := group[|group| - 1];
      Put(FillGroup(d, counts, group[..|group| - 1], total), c, Quot(GetOr(counts, c, 0.0), total))
  }

  /** The outer loop over `codons_for_aa(genetic_code).items()`. */
  function FillGroups(inv: Dict<char, seq<string>>, counts: Dict<string, real>): Dict<string, real> {
    if inv == [] then []
    else
      var group := inv[|inv| - 1].1;
      FillGroup(FillGroups(inv[..|inv| - 1], counts), counts, group, SumReals(GroupCounts(counts, group)))
  }

  function LegacyCodonFrequenciesSpec(s: string, t: Table): Result<Dict<string, real>> {
    if |s| % 3 != 0 then Err(ValueError("Sequence length is not divisible by 3."))
    else Ok(FillGroups(Invert(t), Counts(Codons(s))))
  }

  /** The length check and the nested loops of freqgen.py:210-224. */
  method LegacyCodonFrequencies(s: string, t: Table) returns (r: Result<Dict<string, real>>)
    ensures r == LegacyCodonFrequenciesSpec(s, t)
  {
    if |s| % 3 != 0 {
      return Err(ValueError("Sequence length is not divisible by 3."));
    }
    var counts := Counts(Codons(s));
    var inv := InvertTable(t);
    var freqs: Dict<string, real> := [];
    var i := 0;
    while i < |inv|
      invariant i <= |inv|
      invariant freqs == FillGroups(inv[..i], counts)
    {
      var (aa, codons) := inv[i];
      var total := SumReals(GroupCounts(counts, codons));
      ghost var before := freqs;
      var j := 0;
      while j < |codons|
        invariant j <= |codons|
        invariant freqs == FillGroup(before, counts, codons[..j], total)
      {
        assert codons[..j + 1][..j] == codons[..j];
        var codon := codons[j];
        var x := GetOr(counts, codon, 0.0);
        freqs := Put(freqs, codon, if total == 0.0 then 0.0 else x / total);
        j := j + 1;
      }
      assert codons[..|codons|] == codons;
      assert inv[..i + 1][..i] == inv[..i];
      i := i + 1;
    }
    assert inv[..|inv|] == inv;
    return Ok(freqs);
  }

  lemma {:induction false} FillGroupGet(d: Dict<string, real>, counts: Dict<string, real>, group: seq<string>,
                                        total: real, c: string)
    ensures GetOr(FillGroup(d, counts, group, total), c, 0.0)
      == if c in group then Quot(GetOr(counts, c, 0.0), total) else GetOr(d, c, 0.0)
    ensures c in Keys(FillGroup(d, counts, group, total)) <==> c in Keys(d) || c in group
  {
    if group != [] {
      var init, last := group[..|group| - 1], group[|group| - 1];
      assert group == init + [last];
      FillGroupGet(d, counts, init, total, c);
      var f := FillGroup(d, counts, init, total);
      PutGetOr(f, last, Quot(GetOr(counts, last, 0.0), total), c, 0.0);
      PutFacts(f, last, Quot(GetOr(counts, last, 0.0), total));
    }
  }

  /** A codon keeps the value of the only group it belongs to. */
  lemma {:induction false} FillGroupsGet(inv: Dict<char, seq<string>>, counts: Dict<string, real>, i: nat, c: string)
    requires i < |inv| && c in inv[i].1
    requires forall j :: 0 <= j < |inv| && j != i ==> c !in inv[j].1
    ensures GetOr(FillGroups(inv, counts), c, 0.0) == Quot(GetOr(counts, c, 0.0), SumReals(GroupCounts(counts, inv[i].1)))
  {
    var n := |inv| - 1;
    var init := inv[..n];
    var group := inv[n].1;
    FillGroupGet(FillGroups(init, counts), counts, group, SumReals(GroupCounts(counts, group)), c);
    if i < n {
      FillGroupsGet(init, counts, i, c);
    }
  }

  /** The keys are the codons of all groups. */
  lemma {:induction false} FillGroupsKeys(inv: Dict<char, seq<string>>, counts: Dict<string, real>, c: string)
    ensures c in Keys(FillGroups(inv, counts)) <==> exists j :: 0 <= j < |inv| && c in inv[j].1
  {
    if inv != [] {
      var n := |inv| - 1;
      var init := inv[..n];
      FillGroupsKeys(init, counts, c);
      FillGroupGet(FillGroups(init, counts), counts, inv[n].1, SumReals(GroupCounts(counts, inv[n].1)), c);
      if exists j :: 0 <= j < |inv| && c in inv[j].1 {
        var j :| 0 <= j < |inv| && c in inv[j].1;
        if j < n {
          assert init[j] == inv[j];
        }
      }
    }
  }

  /** The occurrences of a group's codons among the codons of the input. */
  function GroupOcc(cs: seq<string>, group: seq<string>): seq<real> {
    seq(|group|, j requires 0 <= j < |group| => Occ(cs, group[j]) as real)
  }

  lemma GroupCountsOcc(cs: seq<string>, group: seq<string>)
    ensures GroupCounts(Counts(cs), group) == GroupOcc(cs, group)
  {
    forall j | 0 <= j < |group| ensures GetOr(Counts(cs), group[j], 0.0) == Occ(cs, group[j]) as real {
      CountsGet(cs, group[j]);
    }
  }

  /** Each amino acid's entry of the inverse lists that amino acid's codons. */
  lemma InvertEntry(t: Table, j: nat)
    requires j < |Invert(t)|
    ensures Invert(t)[j].1 == CodonsOf(t, Invert(t)[j].0)
  {
    var inv := Invert(t);
    InvertFacts(t);
    GetIndex(inv, j);
  }

  /** Under a dictionary table, the inverse entry holding a codon is the one
      of its own amino acid. */
  lemma GroupOfCodon(t: Table, c: string) returns (i: nat)
    requires DistinctKeys(t) && c in Keys(t)
    ensures i < |Invert(t)| && Invert(t)[i].0 == Get(t, c).value && c in Invert(t)[i].1
    ensures forall j :: 0 <= j < |Invert(t)| && j != i ==> c !in Invert(t)[j].1
  {
    var inv := Invert(t);
    var aa := Get(t, c).value;
    InvertFacts(t);
    assert aa in Values(t) by {
      var m := IndexOf(Keys(t), c);
      assert Values(t)[m] == aa;
    }
    i := IndexOf(Keys(inv), aa);
    InvertEntry(t, i);
    CodonsOfMember(t, aa, c);
    forall j | 0 <= j < |inv| && j != i ensures c !in inv[j].1 {
      InvertEntry(t, j);
      CodonsOfMember(t, inv[j].0, c);
      assert Keys(inv)[j] != Keys(inv)[i];
    }
  }

  /** Every table codon, and nothing else, gets a frequency. */
  lemma LegacyCodonKeys(s: string, t: Table)
    requires DistinctKeys(t) && |s| % 3 == 0
    ensures forall c :: c in Keys(LegacyCodonFrequenciesSpec(s, t).value) <==> c in Keys(t)
  {
    var inv := Invert(t);
    var counts := Counts(Codons(s));
    forall c ensures c in Keys(FillGroups(inv, counts)) <==> c in Keys(t) {
      FillGroupsKeys(inv, counts, c);
      if c in Keys(t) {
        var i := GroupOfCodon(t, c);
      }
      if exists j :: 0 <= j < |inv| && c in inv[j].1 {
        var j :| 0 <= j < |inv| && c in inv[j].1;
        InvertEntry(t, j);
        CodonsOfMember(t, inv[j].0, c);
      }
    }
  }

  /** A codon's frequency is its count over the count of all codons of its
      amino acid, or 0 when that amino acid does not occur. */
  lemma LegacyCodonValue(s: string, t: Table, c: string)
    requires DistinctKeys(t) && |s| % 3 == 0 && c in Keys(t)
    ensures GetOr(LegacyCodonFrequenciesSpec(s, t).value, c, 0.0)
      == Quot(Occ(Codons(s), c) as real, SumReals(GroupOcc(Codons(s), CodonsOf(t, Get(t, c).value))))
  {
    var i := GroupOfCodon(t, c);
    var inv := Invert(t);
    InvertEntry(t, i);
    var cs := Codons(s);
    FillGroupsGet(inv, Counts(cs), i, c);
    GroupCountsOcc(cs, inv[i].1);
    CountsGet(cs, c);
  }

  /** The frequencies of one amino acid's codons, in table order. */
  lemma LegacyGroupValues(s: string, t: Table, aa: char)
    requires DistinctKeys(t) && |s| % 3 == 0
    ensures var f, g := LegacyCodonFrequenciesSpec(s, t).value, CodonsOf(t, aa);
      forall j :: 0 <= j < |g| ==>
        GetOr(f, g[j], 0.0) == Quot(GroupOcc(Codons(s), g)[j], SumReals(GroupOcc(Codons(s), g)))
  {
    var g := CodonsOf(t, aa);
    var f := LegacyCodonFrequenciesSpec(s, t).value;
    var xs := GroupOcc(Codons(s), g);
    forall j | 0 <= j < |g| ensures GetOr(f, g[j], 0.0) == Quot(xs[j], SumReals(xs)) {
      var c := g[j];
      CodonsOfMember(t, aa, c);
      assert Get(t, c) == Some(aa);
      LegacyCodonValue(s, t, c);
      assert xs[j] == Occ(Codons(s), c) as real;
    }
  }

  /** Within an amino acid that occurs, its codons' frequencies sum to 1. */
  lemma LegacyCodonGroupSum(s: string, t: Table, aa: char, c: string)
    requires DistinctKeys(t) && |s| % 3 == 0
    requires c in CodonsOf(t, aa) && c in Codons(s)
    ensures GroupTotal(LegacyCodonFrequenciesSpec(s, t).value, CodonsOf(t, aa)) == 1.0
  {
    var f, g, cs := LegacyCodonFrequenciesSpec(s, t).value, CodonsOf(t, aa), Codons(s);
    var xs := GroupOcc(cs, g);
    var total := SumReals(xs);
    LegacyGroupValues(s, t, aa);
    var m :| 0 <= m < |g| && g[m] == c;
    SumRealsPositive(xs, m);
    var ys := seq(|g|, j requires 0 <= j < |g| => GetOr(f, g[j], 0.0));
    SumRealsScale(xs, ys, total);
    SelfQuotient(total);
  }

  lemma QuotZero(total: real)
    ensures Quot(0.0, total) == 0.0
  {
  }

  /** An amino acid that does not occur has all its codons at 0. */
  lemma LegacyCodonGroupUnused(s: string, t: Table, aa: char)
    requires DistinctKeys(t) && |s| % 3 == 0
    requires forall c :: c in CodonsOf(t, aa) ==> c !in Codons(s)
    ensures forall c :: c in CodonsOf(t, aa) ==> GetOr(LegacyCodonFrequenciesSpec(s, t).value, c, 0.0) == 0.0
  {
    var g := CodonsOf(t, aa);
    forall c | c in g ensures GetOr(LegacyCodonFrequenciesSpec(s, t).value, c, 0.0) == 0.0 {
      CodonsOfMember(t, aa, c);
      LegacyCodonValue(s, t, c);
      assert Occ(Codons(s), c) == 0;
      QuotZero(SumReals(GroupOcc(Codons(s), CodonsOf(t, Get(t, c).value))));
    }
  }
}
