/** The search operators of the genetic algorithm (freqgen/generate.py).

    An individual is the bit vector of a DNA sequence, six bits per codon.
    The operators are the back-translation that builds the seed, the
    perturbation that creates each first-generation individual, the
    synonymous-codon mutation, the codon-aligned one-point crossover and the
    "generations since improvement" stopping rule. Random draws are
    arguments; the selection logic of the genetic-algorithm library is
    represented by `Derivation`, any finite composition of the operators.
    The central theorem, `FinalTranslationAgrees`, is the assertion the
    program makes before returning: the best individual translates exactly
    like the back-translated seed. */
module Optimizer {
  import opened Wrappers
  import opened Dicts
  import opened Dna
  import opened Encoding
  import opened GeneticCode

  // ---------------------------------------------------------------------
  // Codons of an individual
  // ---------------------------------------------------------------------

  /** `vector_to_dna(individual[6 * i:6 * i + 6])`, which never raises:
      a six-bit slice is not empty. */
  function CodonAt(v: seq<Bit>, i: nat): string
    requires 6 * i + 6 <= |v|
  {
    Decode(v[6 * i..6 * i + 6])
  }

  /** The amino acid of each codon of an individual. */
  function VTranslation(t: Table, v: seq<Bit>): (r: seq<Option<char>>)
    ensures |r| == |v| / 6
  {
    seq(|v| / 6, i requires 0 <= i < |v| / 6 => Get(t, CodonAt(v, i)))
  }

  /** Translating the individual is translating the DNA it decodes to. */
  lemma VTranslationIsTranslation(t: Table, v: seq<Bit>)
    requires |v| % 6 == 0
    ensures VTranslation(t, v) == Translation(t, Decode(v))
  {
    var d := Decode(v);
    forall i | 0 <= i < |v| / 6 ensures CodonAt(v, i) == d[3 * i..3 * i + 3] {
      DecodeSlice(v, 3 * i, 3 * i + 3);
    }
  }

  function SynOf(t: Table, c: string): seq<string> {
    GetOr(Synonyms(t), c, [])
  }

  /** `[x for x in xs if x != c]`. */
  function Without(xs: seq<string>, c: string): (r: seq<string>)
    ensures forall x :: x in r <==> x in xs && x != c
  {
    if xs == [] then []
    else (if xs[0] != c then [xs[0]] else []) + Without(xs[1..], c)
  }

  /** A codon of a valid table that has more than one synonym has a
      different synonym to switch to, and every such synonym is a DNA
      triplet of the same amino acid. */
  lemma OthersFacts(t: Table, c: string)
    requires ValidTable(t) && c in Keys(t) && |SynOf(t, c)| != 1
    ensures |Without(SynOf(t, c), c)| > 0
    ensures forall d :: d in Without(SynOf(t, c), c) ==>
      d != c && d in Keys(t) && Get(t, d) == Get(t, c) && |d| == 3 && IsDna(d)
  {
    SynonymsFacts(t, c);
    var xs := SynOf(t, c);
    assert Get(Synonyms(t), c).value == xs;
    assert |xs| >= 2;
    if xs[0] != c {
      assert xs[0] in Without(xs, c);
    } else {
      assert xs[1] in Without(xs, c);
    }
    forall d | d in Without(xs, c) ensures |d| == 3 && IsDna(d) {
      var i := IndexOf(Keys(t), d);
    }
  }

  // ---------------------------------------------------------------------
  // Back-translation (freqgen/generate.py:57-64)
  // ---------------------------------------------------------------------

  /** Biopython's `back_table`: one codon per amino acid, and under `None`
      a stop codon. */
  type BackTable = map<Option<char>, string>

  /** What one amino-acid symbol adds to the insert: its codon, the stop
      codon for '*', nothing for any other unmapped symbol. */
  function Contribution(back: BackTable, aa: char): Result<string> {
    if Some(aa) in back then Ok(back[Some(aa)])
    else if aa == '*' then
      if None in back then Ok(back[None]) else Err(KeyError("None"))
    else Ok("")
  }

  function Prepend(p: string, r: Result<string>): Result<string> {
    if r.Ok? then Ok(p + r.value) else r
  }

  lemma PrependAppend(p: string, q: string, r: Result<string>)
    ensures Prepend("", r) == r
    ensures Prepend(p, Prepend(q, r)) == Prepend(p + q, r)
  {
    if r.Ok? {
      assert "" + r.value == r.value;
      assert p + (q + r.value) == (p + q) + r.value;
    }
  }

  function BackTranslation(back: BackTable, aas: string): Result<string> {
    if aas == [] then Ok("")
    else
      var c := Contribution(back, aas[0]);
      if c.Err? then Err(c.failure) else Prepend(c.value, BackTranslation(back, aas[1..]))
  }

  /** The back-translation loop. */
  method BackTranslate(back: BackTable, aas: string) returns (r: Result<string>)
    ensures r == BackTranslation(back, aas)
  {
    var insert := "";
    var i := 0;
    PrependAppend("", "", BackTranslation(back, aas));
    while i < |aas|
      invariant i <= |aas|
      invariant BackTranslation(back, aas) == Prepend(insert, BackTranslation(back, aas[i..]))
    {
      assert aas[i..][1..] == aas[i + 1..];
      var c := Contribution(back, aas[i]);
      if c.Ok? {
        PrependAppend(insert, c.value, BackTranslation(back, aas[i + 1..]));
      }
      if Some(aas[i]) in back {
        insert := insert + back[Some(aas[i])];
      } else if aas[i] == '*' {
        if None !in back {
          assert BackTranslation(back, aas[i..]) == Err(KeyError("None"));
          return Err(KeyError("None"));
        }
        insert := insert + back[None];
      }
      i := i + 1;
    }
    assert aas[i..] == [] && insert + "" == insert;
    r := Ok(insert);
  }

  /** The symbols that contribute a codon. */
  function Mappable(back: BackTable, aas: string): (r: string)
    ensures |r| <= |aas|
  {
    if aas == [] then ""
    else (if Some(aas[0]) in back || aas[0] == '*' then [aas[0]] else []) + Mappable(back, aas[1..])
  }

  /** Biopython's tables: every entry is a DNA triplet that translates back
      to its key, and the stop entry to '*'. */
  ghost predicate Consistent(t: Table, back: BackTable) {
    (forall aa :: Some(aa) in back ==>
      |back[Some(aa)]| == 3 && IsDna(back[Some(aa)]) && Get(t, back[Some(aa)]) == Some(aa))
    && (None in back ==> |back[None]| == 3 && IsDna(back[None]) && Get(t, back[None]) == Some('*'))
  }

  /** The amino acid each mappable symbol stands for. */
  function Expected(back: BackTable, aas: string): (r: seq<Option<char>>)
    ensures |r| == |Mappable(back, aas)|
  {
    var m := Mappable(back, aas);
    seq(|m|, i requires 0 <= i < |m| => if Some(m[i]) in back then Some(m[i]) else Some('*'))
  }

  /** With consistent tables the insert is DNA, three bases per mappable
      symbol, and translates back to the mappable symbols, with the stop
      rendered as '*'. */
  lemma {:induction false} BackTranslationFacts(t: Table, back: BackTable, aas: string)
    requires Consistent(t, back)
    requires BackTranslation(back, aas).Ok?
    ensures IsDna(BackTranslation(back, aas).value)
    ensures |BackTranslation(back, aas).value| == 3 * |Mappable(back, aas)|
    ensures Translation(t, BackTranslation(back, aas).value) == Expected(back, aas)
  {
    if aas != [] {
      var c := Contribution(back, aas[0]).value;
      var rest := BackTranslation(back, aas[1..]).value;
      BackTranslationFacts(t, back, aas[1..]);
      assert BackTranslation(back, aas).value == c + rest;
      ContributionFacts(t, back, aas[0]);
      DnaConcat(c, rest);
      ExpectedCons(back, aas);
      assert |c| % 3 == 0;
      TranslationConcat(t, c, rest);
    }
  }

  /** One symbol's codon: a DNA triplet encoding the symbol (the stop as
      '*'), or nothing for a symbol with no entry. */
  lemma ContributionFacts(t: Table, back: BackTable, a: char)
    requires Consistent(t, back) && Contribution(back, a).Ok?
    ensures var c := Contribution(back, a).value;
      IsDna(c)
      && (Some(a) in back || a == '*' ==>
            |c| == 3 && Translation(t, c) == [if Some(a) in back then Some(a) else Some('*')])
      && (!(Some(a) in back || a == '*') ==> c == "")
  {
    var c := Contribution(back, a).value;
    if Some(a) in back || a == '*' {
      assert |c| == 3;
      assert c[0..3] == c;
    }
  }

  lemma DnaConcat(a: string, b: string)
    requires IsDna(a) && IsDna(b)
    ensures IsDna(a + b)
  {
    forall i | 0 <= i < |a + b| ensures IsBase((a + b)[i]) {
      if i >= |a| {
        assert (a + b)[i] == b[i - |a|];
      }
    }
  }

  /** The expected translation of a non-empty string, symbol by symbol. */
  lemma ExpectedCons(back: BackTable, aas: string)
    requires aas != []
    ensures Expected(back, aas) ==
              (if Some(aas[0]) in back || aas[0] == '*'
               then [if Some(aas[0]) in back then Some(aas[0]) else Some('*')] else [])
              + Expected(back, aas[1..])
  {
    var m, m' := Mappable(back, aas), Mappable(back, aas[1..]);
    var e, e' := Expected(back, aas), Expected(back, aas[1..]);
    if Some(aas[0]) in back || aas[0] == '*' {
      assert m == [aas[0]] + m';
      forall k | 0 <= k < |e'| ensures e[k + 1] == e'[k] {
        assert m[k + 1] == m'[k];
      }
    } else {
      assert m == m';
    }
  }

  /** Any symbol with no entry other than '*' is dropped silently. */
  lemma UnmappedDropped(back: BackTable, aas: string)
    requires forall i :: 0 <= i < |aas| ==> Some(aas[i]) !in back && aas[i] != '*'
    ensures BackTranslation(back, aas) == Ok("")
  {
    if aas != [] {
      UnmappedDropped(back, aas[1..]);
      assert "" + "" == "";
    }
  }

  // ---------------------------------------------------------------------
  // Mutation (freqgen/generate.py:100-118)
  // ---------------------------------------------------------------------

  /** A draw ends the retry loop: the codon is not in the table (the lookup
      raises) or has a synonym count other than one. */
  predicate Halts(t: Table, v: seq<Bit>, slot: nat)
    requires 6 * slot + 6 <= |v|
  {
    var c := CodonAt(v, slot);
    c !in Keys(t) || |SynOf(t, c)| != 1
  }

  ghost predicate DrawsFit(v: seq<Bit>, draws: seq<nat>) {
    |v| % 6 == 0 && forall j :: 0 <= j < |draws| ==> draws[j] < |v| / 6
  }

  /** Index of the draw that ends the retry loop. */
  ghost function FirstHalt(t: Table, v: seq<Bit>, draws: seq<nat>): (j: nat)
    requires DrawsFit(v, draws)
    requires exists j :: 0 <= j < |draws| && Halts(t, v, draws[j])
    ensures j < |draws| && Halts(t, v, draws[j])
    ensures forall i :: 0 <= i < j ==> !Halts(t, v, draws[i])
    decreases |draws|
  {
    if Halts(t, v, draws[0]) then 0
    else
      var w :| 0 <= w < |draws| && Halts(t, v, draws[w]);
      assert draws[1..][w - 1] == draws[w];
      1 + FirstHalt(t, v, draws[1..])
  }

  /** The preconditions of one mutation: the draws are codon positions, one
      of them ends the loop, and the final choice indexes the synonyms. */
  ghost predicate MutationFits(t: Table, v: seq<Bit>, draws: seq<nat>, choice: nat) {
    DrawsFit(v, draws)
    && (exists j :: 0 <= j < |draws| && Halts(t, v, draws[j]))
    && var c := CodonAt(v, draws[FirstHalt(t, v, draws)]);
       (c in Keys(t) ==> choice < |Without(SynOf(t, c), c)|)
  }

  /** The vector with the six bits of codon `slot` replaced by `e`. */
  function Splice(v: seq<Bit>, slot: nat, e: seq<Bit>): seq<Bit>
    requires 6 * slot + 6 <= |v|
  {
    v[..6 * slot] + e + v[6 * slot + 6..]
  }

  /** What `mutate` computes. */
  ghost function MutateSpec(t: Table, v: seq<Bit>, draws: seq<nat>, choice: nat): Result<seq<Bit>>
    requires ValidTable(t) && MutationFits(t, v, draws, choice)
  {
    var slot := draws[FirstHalt(t, v, draws)];
    var c := CodonAt(v, slot);
    if c !in Keys(t) then Err(KeyError(c))
    else
      OthersFacts(t, c);
      Ok(Splice(v, slot, Encode(Without(SynOf(t, c), c)[choice])))
  }

  /** `mutate(individual)`: draws a codon until one has synonyms, then
      overwrites its six bits in place with a different synonym. */
  method Mutate(t: Table, individual: array<Bit>, draws: seq<nat>, choice: nat) returns (r: Result<array<Bit>>)
    requires ValidTable(t) && MutationFits(t, individual[..], draws, choice)
    modifies individual
    ensures MutateSpec(t, old(individual[..]), draws, choice).Ok? ==>
      r == Ok(individual) && individual[..] == MutateSpec(t, old(individual[..]), draws, choice).value
    ensures MutateSpec(t, old(individual[..]), draws, choice).Err? ==>
      r.Err? && r.failure == MutateSpec(t, old(individual[..]), draws, choice).failure
      && individual[..] == old(individual[..])
  {
    ghost var v := individual[..];
    var syn := Synonyms(t);
    var j := 0;
    var slot := draws[0];
    var codon := Decode(individual[6 * slot..6 * slot + 6]);
    while true
      invariant j <= FirstHalt(t, v, draws)
      invariant slot == draws[j] && codon == CodonAt(v, slot)
      invariant individual[..] == v
      decreases FirstHalt(t, v, draws) - j
    {
      if codon !in Keys(syn) {
        return Err(KeyError(codon));
      }
      if |GetOr(syn, codon, [])| != 1 {
        break;
      }
      j := j + 1;
      slot := draws[j];
      codon := Decode(individual[6 * slot..6 * slot + 6]);
    }
    assert j == FirstHalt(t, v, draws);
    OthersFacts(t, codon);
    var choices := Without(GetOr(syn, codon, []), codon);
    assert choice < |choices|;
    assert choices[choice] in choices;
    DnaEncodable(choices[choice]);
    assert 6 * slot + 6 <= individual.Length;
    WriteCodon(individual, slot, Encode(choices[choice]));
    r := Ok(individual);
  }

  /** `individual[6 * slot:6 * slot + 6] = new_codon` on a numpy array. */
  method WriteCodon(individual: array<Bit>, slot: nat, e: seq<Bit>)
    requires 6 * slot + 6 <= individual.Length && |e| == 6
    modifies individual
    ensures individual[..] == Splice(old(individual[..]), slot, e)
  {
    ghost var v := individual[..];
    for k := 0 to 6
      invariant individual[..] == v[..6 * slot] + e[..k] + v[6 * slot + k..]
    {
      individual[6 * slot + k] := e[k];
      assert e[..k + 1] == e[..k] + [e[k]];
    }
    assert e[..6] == e;
  }

  lemma SpliceCodons(v: seq<Bit>, slot: nat, e: seq<Bit>)
    requires 6 * slot + 6 <= |v| && |e| == 6
    ensures |Splice(v, slot, e)| == |v|
    ensures forall i :: 0 <= i < |v| / 6 && i != slot ==> Splice(v, slot, e)[6 * i..6 * i + 6] == v[6 * i..6 * i + 6]
    ensures Splice(v, slot, e)[6 * slot..6 * slot + 6] == e
    ensures forall i :: 0 <= i < |v| && !(6 * slot <= i < 6 * slot + 6) ==> Splice(v, slot, e)[i] == v[i]
  {
    var w := Splice(v, slot, e);
    forall i | 0 <= i < |v| / 6 && i != slot ensures w[6 * i..6 * i + 6] == v[6 * i..6 * i + 6] {
      assert forall m :: 6 * i <= m < 6 * i + 6 ==> w[m] == v[m];
    }
    assert forall m :: 6 * slot <= m < 6 * slot + 6 ==> w[m] == e[m - 6 * slot];
  }

  /** A mutation keeps the length and every bit outside one codon slot; in
      that slot it puts a codon different from the old one that encodes
      the same amino acid. So the translation is unchanged. */
  lemma MutateFacts(t: Table, v: seq<Bit>, draws: seq<nat>, choice: nat)
    requires ValidTable(t) && MutationFits(t, v, draws, choice)
    requires MutateSpec(t, v, draws, choice).Ok?
    ensures var w := MutateSpec(t, v, draws, choice).value;
      var slot := draws[FirstHalt(t, v, draws)];
      |w| == |v|
      && (forall i :: 0 <= i < |v| && !(6 * slot <= i < 6 * slot + 6) ==> w[i] == v[i])
      && CodonAt(w, slot) != CodonAt(v, slot)
      && Get(t, CodonAt(w, slot)) == Get(t, CodonAt(v, slot))
      && VTranslation(t, w) == VTranslation(t, v)
  {
    var slot := draws[FirstHalt(t, v, draws)];
    var c := CodonAt(v, slot);
    OthersFacts(t, c);
    var xs := Without(SynOf(t, c), c);
    assert choice < |xs|;
    var d := xs[choice];
    assert d in xs;
    DnaEncodable(d);
    var e := Encode(d);
    assert 6 * slot + 6 <= |v|;
    var w := Splice(v, slot, e);
    SpliceCodons(v, slot, e);
    DecodeEncode(d);
    assert CodonAt(w, slot) == d;
    forall i | 0 <= i < |v| / 6 ensures Get(t, CodonAt(w, i)) == Get(t, CodonAt(v, i)) {
      if i != slot {
        assert CodonAt(w, i) == CodonAt(v, i);
      }
    }
  }

  /** When no codon of a non-empty individual has more than one synonym,
      no draw ends the retry loop, so `mutate` never returns. (On the empty
      individual `np.random.randint(0)` raises ValueError instead.) */
  lemma NoSynonymsNeverHalts(t: Table, v: seq<Bit>)
    requires |v| % 6 == 0 && |v| >= 6
    requires forall i :: 0 <= i < |v| / 6 ==> CodonAt(v, i) in Keys(t) && |SynOf(t, CodonAt(v, i))| == 1
    ensures forall draws :: DrawsFit(v, draws) ==> !exists j :: 0 <= j < |draws| && Halts(t, v, draws[j])
  {
  }

  // ---------------------------------------------------------------------
  // Crossover (freqgen/generate.py:121-126)
  // ---------------------------------------------------------------------

  /** `random.randrange(1, len(parent_1) / 6)` can return `r`. */
  predicate CutFits(p1: seq<Bit>, r: int) {
    |p1| % 6 == 0 && |p1| / 6 > 1 ==> 1 <= r < |p1| / 6
  }

  /** `crossover(parent_1, parent_2)` with `r` the draw; the float stop of
      `randrange` must be integral and leave a non-empty range. */
  function Crossover(p1: seq<Bit>, p2: seq<Bit>, r: int): (res: Result<(seq<Bit>, seq<Bit>)>)
    requires CutFits(p1, r)
    ensures res.Ok? <==> |p1| % 6 == 0 && |p1| >= 12
  {
    if |p1| % 6 != 0 then Err(ValueError("non-integer stop for randrange()"))
    else if |p1| / 6 <= 1 then Err(ValueError("empty range for randrange()"))
    else
      var i := 6 * r;
      var j := Min(i, |p2|);
      Ok((p1[..i] + p2[j..], p2[..j] + p1[i..]))
  }

  /** The cut is at a codon boundary `6 r` with `1 <= r < codons`; with
      parents of equal length each child has that length and takes every
      position from one parent: the first child from `p1` before the cut
      and from `p2` after it, the second child the other way round. */
  lemma CrossoverFacts(p1: seq<Bit>, p2: seq<Bit>, r: int)
    requires CutFits(p1, r) && |p1| == |p2|
    requires Crossover(p1, p2, r).Ok?
    ensures var (c1, c2) := Crossover(p1, p2, r).value;
      1 <= r < |p1| / 6
      && |c1| == |p1| && |c2| == |p1|
      && (forall i :: 0 <= i < |p1| ==> c1[i] == (if i < 6 * r then p1[i] else p2[i]))
      && (forall i :: 0 <= i < |p1| ==> c2[i] == (if i < 6 * r then p2[i] else p1[i]))
  {
  }

  /** Crossing two individuals that translate alike yields children that
      translate alike too. */
  lemma CrossoverPreserves(t: Table, p1: seq<Bit>, p2: seq<Bit>, r: int)
    requires CutFits(p1, r) && |p1| == |p2|
    requires VTranslation(t, p1) == VTranslation(t, p2)
    requires Crossover(p1, p2, r).Ok?
    ensures VTranslation(t, Crossover(p1, p2, r).value.0) == VTranslation(t, p1)
    ensures VTranslation(t, Crossover(p1, p2, r).value.1) == VTranslation(t, p1)
  {
    var (c1, c2) := Crossover(p1, p2, r).value;
    CrossoverFacts(p1, p2, r);
    forall i | 0 <= i < |p1| / 6
      ensures Get(t, CodonAt(c1, i)) == Get(t, CodonAt(p1, i))
      ensures Get(t, CodonAt(c2, i)) == Get(t, CodonAt(p1, i))
    {
      if i < r {
        assert c1[6 * i..6 * i + 6] == p1[6 * i..6 * i + 6];
        assert c2[6 * i..6 * i + 6] == p2[6 * i..6 * i + 6];
        assert VTranslation(t, p2)[i] == Get(t, CodonAt(p2, i));
      } else {
        assert c1[6 * i..6 * i + 6] == p2[6 * i..6 * i + 6];
        assert c2[6 * i..6 * i + 6] == p1[6 * i..6 * i + 6];
        assert VTranslation(t, p2)[i] == Get(t, CodonAt(p2, i));
      }
    }
  }

  // ---------------------------------------------------------------------
  // Initial perturbation (freqgen/generate.py:129-138)
  // ---------------------------------------------------------------------

  /** The codon `create_individual` writes for `c`: `c` itself when it is
      its only synonym, otherwise the chosen different synonym. */
  function Replacement(t: Table, c: string, choice: nat): string
    requires |SynOf(t, c)| != 1 ==> choice < |Without(SynOf(t, c), c)|
  {
    if |SynOf(t, c)| == 1 then c else Without(SynOf(t, c), c)[choice]
  }

  /** The choices index the synonyms of every codon that has several. */
  ghost predicate ChoicesFit(t: Table, codons: seq<string>, choices: seq<nat>) {
    |choices| == |codons|
    && forall i :: 0 <= i < |codons| && codons[i] in Keys(t) && |SynOf(t, codons[i])| != 1 ==>
      choices[i] < |Without(SynOf(t, codons[i]), codons[i])|
  }

  lemma ChoicesFitTail(t: Table, codons: seq<string>, choices: seq<nat>)
    requires ChoicesFit(t, codons, choices) && codons != []
    ensures ChoicesFit(t, codons[1..], choices[1..])
  {
    forall i | 0 <= i < |codons| - 1 ensures codons[1..][i] == codons[i + 1] && choices[1..][i] == choices[i + 1] {
    }
  }

  /** The new sequence `create_individual` builds from the seed's codons;
      the synonym lookup raises on the first codon not in the table. */
  function Perturb(t: Table, codons: seq<string>, choices: seq<nat>): (r: Result<string>)
    requires ChoicesFit(t, codons, choices)
    ensures r.Err? ==> r.failure.KeyError?
    decreases |codons|
  {
    if codons == [] then Ok("")
    else if codons[0] !in Keys(t) then Err(KeyError(codons[0]))
    else
      ChoicesFitTail(t, codons, choices);
      Prepend(Replacement(t, codons[0], choices[0]), Perturb(t, codons[1..], choices[1..]))
  }

  /** What `create_individual(seed_data)` returns: `vector_to_dna` raises
      on an empty seed, and the synonym lookup raises on a missing codon. */
  ghost function CreateSpec(t: Table, seed: seq<Bit>, choices: seq<nat>): Result<seq<Bit>>
    requires ChoicesFit(t, Codons(Decode(seed)), choices)
  {
    var dna := VectorToDna(seed);
    if dna.Err? then Err(dna.failure)
    else
      var p := Perturb(t, Codons(dna.value), choices);
      if p.Err? then Err(p.failure) else DnaToVector(p.value)
  }

  /** One codon of the perturbation. */
  lemma PerturbStep(t: Table, codons: seq<string>, choices: seq<nat>)
    requires ChoicesFit(t, codons, choices) && codons != []
    ensures ChoicesFit(t, codons[1..], choices[1..])
    ensures codons[0] !in Keys(t) ==> Perturb(t, codons, choices) == Err(KeyError(codons[0]))
    ensures codons[0] in Keys(t) ==>
      Perturb(t, codons, choices) == Prepend(Replacement(t, codons[0], choices[0]), Perturb(t, codons[1..], choices[1..]))
  {
    ChoicesFitTail(t, codons, choices);
  }

  /** The perturbation loop builds the new sequence codon by codon. */
  method CreateIndividual(t: Table, seed: seq<Bit>, choices: seq<nat>) returns (r: Result<seq<Bit>>)
    requires ValidTable(t) && ChoicesFit(t, Codons(Decode(seed)), choices)
    ensures r == CreateSpec(t, seed, choices)
  {
    var syn := Synonyms(t);
    var dna := VectorToDna(seed);
    if dna.Err? {
      return Err(dna.failure);
    }
    var individual := dna.value;
    var codons := Codons(individual);
    var built := "";
    var i := 0;
    ghost var spec := Perturb(t, codons, choices);
    PrependAppend("", "", spec);
    while i < |codons|
      invariant i <= |codons|
      invariant ChoicesFit(t, codons[i..], choices[i..])
      invariant spec == Prepend(built, Perturb(t, codons[i..], choices[i..]))
    {
      var codon := codons[i];
      PerturbStep(t, codons[i..], choices[i..]);
      assert codons[i..][1..] == codons[i + 1..] && choices[i..][1..] == choices[i + 1..];
      assert codons[i..][0] == codon && choices[i..][0] == choices[i];
      if codon !in Keys(syn) {
        return Err(KeyError(codon));
      }
      var pick;
      if |GetOr(syn, codon, [])| == 1 {
        pick := codon;
      } else {
        var others := Without(GetOr(syn, codon, []), codon);
        pick := others[choices[i]];
      }
      PrependAppend(built, pick, Perturb(t, codons[i + 1..], choices[i + 1..]));
      built := built + pick;
      i := i + 1;
    }
    assert codons[i..] == [] && built + "" == built;
    r := DnaToVector(built);
  }

  lemma TripletSlice(p: string, rest: string, i: nat)
    requires |p| == 3 && 3 * i + 3 <= 3 + |rest|
    ensures (p + rest)[3 * i..3 * i + 3] == if i == 0 then p else rest[3 * i - 3..3 * i]
  {
    if i == 0 {
      assert (p + rest)[0..3] == p;
    } else {
      assert (p + rest)[3 * i..3 * i + 3] == rest[3 * i - 3..3 * i];
    }
  }

  /** The perturbation succeeds exactly when every codon is in the table. */
  lemma {:induction false} PerturbOk(t: Table, codons: seq<string>, choices: seq<nat>)
    requires ChoicesFit(t, codons, choices)
    ensures Perturb(t, codons, choices).Ok? <==> forall i :: 0 <= i < |codons| ==> codons[i] in Keys(t)
    decreases |codons|
  {
    if codons != [] {
      PerturbStep(t, codons, choices);
      var tl := codons[1..];
      PerturbOk(t, tl, choices[1..]);
      assert forall i :: 0 <= i < |tl| ==> tl[i] == codons[i + 1];
      assert (forall i :: 0 <= i < |codons| ==> codons[i] in Keys(t))
        <==> codons[0] in Keys(t) && forall i :: 0 <= i < |tl| ==> tl[i] in Keys(t);
    }
  }

  /** Codon `i` of the new sequence is the replacement of codon `i`. */
  lemma {:induction false} PerturbCodons(t: Table, codons: seq<string>, choices: seq<nat>)
    requires ValidTable(t) && ChoicesFit(t, codons, choices)
    requires Perturb(t, codons, choices).Ok?
    ensures var s := Perturb(t, codons, choices).value;
      |s| == 3 * |codons|
      && forall i :: 0 <= i < |codons| ==> codons[i] in Keys(t) && s[3 * i..3 * i + 3] == Replacement(t, codons[i], choices[i])
    decreases |codons|
  {
    if codons != [] {
      PerturbStep(t, codons, choices);
      var tl, ch := codons[1..], choices[1..];
      PerturbCodons(t, tl, ch);
      var c := codons[0];
      var p := Replacement(t, c, choices[0]);
      ReplacementFacts(t, c, choices[0]);
      var rest := Perturb(t, tl, ch).value;
      var s := p + rest;
      forall i | 0 <= i < |codons| ensures codons[i] in Keys(t) && s[3 * i..3 * i + 3] == Replacement(t, codons[i], choices[i]) {
        TripletSlice(p, rest, i);
        if i > 0 {
          assert tl[i - 1] == codons[i] && ch[i - 1] == choices[i];
        }
      }
    }
  }

  /** A replacement is a DNA triplet of the same amino acid, and equals
      the codon exactly when the codon has no other synonym. */
  lemma ReplacementFacts(t: Table, c: string, choice: nat)
    requires ValidTable(t) && c in Keys(t)
    requires |SynOf(t, c)| != 1 ==> choice < |Without(SynOf(t, c), c)|
    ensures var p := Replacement(t, c, choice);
      |p| == 3 && IsDna(p) && Get(t, p) == Get(t, c) && (|SynOf(t, c)| == 1 <==> p == c)
  {
    var p := Replacement(t, c, choice);
    if |SynOf(t, c)| != 1 {
      OthersFacts(t, c);
      assert p in Without(SynOf(t, c), c);
    } else {
      var j := IndexOf(Keys(t), c);
    }
  }

  lemma EncodeSlice(s: string, i: nat)
    requires Encodable(s) && 3 * i + 3 <= |s|
    ensures Encodable(s[3 * i..3 * i + 3])
    ensures Encode(s)[6 * i..6 * i + 6] == Encode(s[3 * i..3 * i + 3])
  {
    var a, c, b := s[..3 * i], s[3 * i..3 * i + 3], s[3 * i + 3..];
    assert s == a + c + b;
    assert Encodable(a) && Encodable(c) && Encodable(b) by {
      assert forall m :: 0 <= m < |a| ==> a[m] == s[m];
      assert forall m :: 0 <= m < |c| ==> c[m] == s[3 * i + m];
      assert forall m :: 0 <= m < |b| ==> b[m] == s[3 * i + 3 + m];
    }
    EncodeConcat(a, c);
    EncodeConcat(a + c, b);
    assert Encode(s) == Encode(a) + Encode(c) + Encode(b);
  }

  /** On a seed of whole codons from a valid table, `create_individual`
      fails with ValueError on the empty seed and with KeyError when a
      codon is missing from the table. Otherwise it keeps the length and,
      codon by codon, keeps every codon without synonyms and replaces every
      other codon by a different synonym: so the translation is
      unchanged. */
  lemma CreateFacts(t: Table, seed: seq<Bit>, choices: seq<nat>)
    requires ValidTable(t) && |seed| % 6 == 0
    requires ChoicesFit(t, Codons(Decode(seed)), choices)
    ensures CreateSpec(t, seed, choices).Ok? <==>
              seed != [] && forall i :: 0 <= i < |seed| / 6 ==> CodonAt(seed, i) in Keys(t)
    ensures seed == [] ==> CreateSpec(t, seed, choices).Err? && CreateSpec(t, seed, choices).failure.ValueError?
    ensures seed != [] && CreateSpec(t, seed, choices).Err? ==> CreateSpec(t, seed, choices).failure.KeyError?
    ensures CreateSpec(t, seed, choices).Ok? ==>
      var w := CreateSpec(t, seed, choices).value;
      |w| == |seed|
      && (forall i :: 0 <= i < |seed| / 6 ==>
            (|SynOf(t, CodonAt(seed, i))| == 1 <==> CodonAt(w, i) == CodonAt(seed, i)))
      && VTranslation(t, w) == VTranslation(t, seed)
  {
    if seed == [] {
      return;
    }
    var codons := Codons(Decode(seed));
    assert VectorToDna(seed) == Ok(Decode(seed));
    SeedCodons(seed);
    PerturbOk(t, codons, choices);
    assert (forall i :: 0 <= i < |codons| ==> codons[i] in Keys(t))
      <==> forall i :: 0 <= i < |seed| / 6 ==> CodonAt(seed, i) in Keys(t);
    var p := Perturb(t, codons, choices);
    if p.Ok? {
      var s := p.value;
      PerturbedVector(t, codons, choices);
      var w := Encode(s);
      assert CreateSpec(t, seed, choices) == Ok(w);
      forall i | 0 <= i < |seed| / 6
        ensures Get(t, CodonAt(w, i)) == Get(t, CodonAt(seed, i))
        ensures |SynOf(t, CodonAt(seed, i))| == 1 <==> CodonAt(w, i) == CodonAt(seed, i)
      {
        var a, b := CodonAt(w, i), CodonAt(seed, i);
        assert a == s[3 * i..3 * i + 3] && codons[i] == b;
        assert Get(t, a) == Get(t, b) && (|SynOf(t, b)| == 1 <==> a == b);
      }
      SameCodonsTranslate(t, w, seed);
    }
  }

  /** The perturbed sequence is DNA; its encoding has codon `i` in slot `i`. */
  lemma PerturbedVector(t: Table, codons: seq<string>, choices: seq<nat>)
    requires ValidTable(t) && ChoicesFit(t, codons, choices)
    requires Perturb(t, codons, choices).Ok?
    ensures var s := Perturb(t, codons, choices).value;
      |s| == 3 * |codons| && IsDna(s)
      && DnaToVector(s) == Ok(Encode(s))
      && |Encode(s)| == 6 * |codons|
      && forall i :: 0 <= i < |codons| ==>
           CodonAt(Encode(s), i) == s[3 * i..3 * i + 3]
           && Get(t, s[3 * i..3 * i + 3]) == Get(t, codons[i])
           && (|SynOf(t, codons[i])| == 1 <==> s[3 * i..3 * i + 3] == codons[i])
  {
    var s := Perturb(t, codons, choices).value;
    PerturbedCodons(t, codons, choices);
    assert |s| / 3 == |codons|;
    DnaFromTriplets(s);
    DnaEncodable(s);
    EncodeCodons(s);
  }

  lemma SameCodonsTranslate(t: Table, w: seq<Bit>, v: seq<Bit>)
    requires |w| == |v| && |v| % 6 == 0
    requires forall i :: 0 <= i < |v| / 6 ==> Get(t, CodonAt(w, i)) == Get(t, CodonAt(v, i))
    ensures VTranslation(t, w) == VTranslation(t, v)
  {
  }

  /** The codons `create_individual` reads are the six-bit slots. */
  lemma SeedCodons(seed: seq<Bit>)
    requires |seed| % 6 == 0
    ensures |Codons(Decode(seed))| == |seed| / 6
    ensures forall i :: 0 <= i < |seed| / 6 ==> Codons(Decode(seed))[i] == CodonAt(seed, i)
  {
    var codons := Codons(Decode(seed));
    forall i | 0 <= i < |seed| / 6 ensures codons[i] == CodonAt(seed, i) {
      DecodeSlice(seed, 3 * i, 3 * i + 3);
    }
  }

  /** Encoding DNA of whole codons puts codon `i` in slot `i`. */
  lemma EncodeCodons(s: string)
    requires IsDna(s) && |s| % 3 == 0
    ensures |Encode(s)| % 6 == 0 && |Encode(s)| / 6 == |s| / 3
    ensures forall i :: 0 <= i < |s| / 3 ==> CodonAt(Encode(s), i) == s[3 * i..3 * i + 3]
  {
    forall i | 0 <= i < |s| / 3 ensures CodonAt(Encode(s), i) == s[3 * i..3 * i + 3] {
      EncodeSlice(s, i);
      DecodeEncode(s[3 * i..3 * i + 3]);
    }
  }

  /** Codon `i` of the perturbed sequence is DNA, encodes the amino
      acid of codon `i` and differs from it exactly when that codon has
      other synonyms. */
  lemma PerturbedCodons(t: Table, codons: seq<string>, choices: seq<nat>)
    requires ValidTable(t) && ChoicesFit(t, codons, choices)
    requires Perturb(t, codons, choices).Ok?
    ensures var s := Perturb(t, codons, choices).value;
      |s| == 3 * |codons|
      && forall i :: 0 <= i < |codons| ==>
           IsDna(s[3 * i..3 * i + 3])
           && Get(t, s[3 * i..3 * i + 3]) == Get(t, codons[i])
           && (|SynOf(t, codons[i])| == 1 <==> s[3 * i..3 * i + 3] == codons[i])
  {
    var s := Perturb(t, codons, choices).value;
    PerturbCodons(t, codons, choices);
    forall i | 0 <= i < |codons| ensures IsDna(s[3 * i..3 * i + 3]) && Get(t, s[3 * i..3 * i + 3]) == Get(t, codons[i])
      && (|SynOf(t, codons[i])| == 1 <==> s[3 * i..3 * i + 3] == codons[i])
    {
      var c, r := codons[i], Replacement(t, codons[i], choices[i]);
      assert s[3 * i..3 * i + 3] == r;
      ReplacementFacts(t, c, choices[i]);
      assert Get(t, r) == Get(t, c) && (|SynOf(t, c)| == 1 <==> r == c);
    }
  }

  // ---------------------------------------------------------------------
  // The stopping rule (freqgen/generate.py:141-158)
  // ---------------------------------------------------------------------

  /** `best_indv_fitness`, `gens_since_improvement` and `counter`. */
  datatype RunState = RunState(best: real, since: nat, counter: nat)

  /** One generation whose best fitness is `b`: a strict improvement
      resets the stagnation count, anything else increments it. */
  function Step(s: RunState, b: real): RunState {
    if b < s.best then RunState(b, 0, s.counter + 1)
    else RunState(s.best, s.since + 1, s.counter + 1)
  }

  /** The loop over the best fitnesses of successive generations; running
      out of them stands for the user interrupting the run. */
  function Run(s: RunState, bests: seq<real>, maxGens: int): RunState
    decreases |bests|
  {
    if s.since >= maxGens || bests == [] then s
    else Run(Step(s, bests[0]), bests[1..], maxGens)
  }

  /** The run loop, starting from the first generation's best. */
  method RunLoop(initial: real, bests: seq<real>, maxGens: int) returns (s: RunState, interrupted: bool)
    ensures s == Run(RunState(initial, 0, 1), bests, maxGens)
    ensures interrupted <==> s.since < maxGens
  {
    s := RunState(initial, 0, 1);
    var g := 0;
    while s.since < maxGens && g < |bests|
      invariant g <= |bests|
      decreases |bests| - g
      invariant Run(s, bests[g..], maxGens) == Run(RunState(initial, 0, 1), bests, maxGens)
    {
      assert bests[g..][1..] == bests[g + 1..];
      var b := bests[g];
      if b < s.best {
        s := RunState(b, 0, s.counter);
      } else {
        s := RunState(s.best, s.since + 1, s.counter);
      }
      s := s.(counter := s.counter + 1);
      g := g + 1;
    }
    interrupted := s.since < maxGens;
  }

  /** The best fitness never increases: it is the minimum of the first
      fitness and every generation's best seen so far, and the counter
      is one more than the generations run. */
  lemma {:induction false} RunFacts(s: RunState, bests: seq<real>, maxGens: int)
    ensures var e := Run(s, bests, maxGens);
      var n := e.counter - s.counter;
      0 <= n <= |bests|
      && e.best <= s.best
      && (forall i :: 0 <= i < n ==> e.best <= bests[i])
      && (e.best == s.best || exists i :: 0 <= i < n && e.best == bests[i])
      && (e.since < maxGens ==> n == |bests|)
    decreases |bests|
  {
    if !(s.since >= maxGens || bests == []) {
      var s' := Step(s, bests[0]);
      RunFacts(s', bests[1..], maxGens);
      var e := Run(s, bests, maxGens);
      var n := e.counter - s.counter;
      forall i | 0 <= i < n ensures e.best <= bests[i] {
        if i > 0 {
          assert bests[1..][i - 1] == bests[i];
        }
      }
      if e.best != s.best && e.best != s'.best {
        var i :| 0 <= i < n - 1 && e.best == bests[1..][i];
        assert e.best == bests[i + 1];
      }
    }
  }

  /** Without a strict improvement the loop stops after exactly
      `maxGens` generations, with the first fitness still the best. */
  lemma {:induction false} NoImprovementRuns(s: RunState, bests: seq<real>, maxGens: int)
    requires 0 <= s.since <= maxGens && maxGens - s.since <= |bests|
    requires forall i :: 0 <= i < |bests| ==> bests[i] >= s.best
    ensures Run(s, bests, maxGens) == RunState(s.best, maxGens, s.counter + maxGens - s.since)
    decreases |bests|
  {
    if s.since < maxGens {
      NoImprovementRuns(Step(s, bests[0]), bests[1..], maxGens);
    }
  }

  /** With constant fitness the run from the first generation lasts
      `maxGens` generations. */
  lemma ConstantFitnessRuns(initial: real, bests: seq<real>, maxGens: nat)
    requires |bests| >= maxGens
    requires forall i :: 0 <= i < |bests| ==> bests[i] == initial
    ensures Run(RunState(initial, 0, 1), bests, maxGens) == RunState(initial, maxGens, maxGens + 1)
  {
    NoImprovementRuns(RunState(initial, 0, 1), bests, maxGens);
  }

  // ---------------------------------------------------------------------
  // The translation theorem (freqgen/generate.py:165-167)
  // ---------------------------------------------------------------------

  /** How an individual of any generation came about. `Created` is the
      perturbation of the seed that fills the first generation; survivors
      of selection are unchanged copies and need no constructor. */
  datatype Derivation =
    | Seed
    | Created(choices: seq<nat>)
    | Mutated(parent: Derivation, draws: seq<nat>, choice: nat)
    | Crossed(left: Derivation, right: Derivation, cut: int, second: bool)

  /** The individual a derivation produces, if its draws are admissible and
      no operator raises. */
  ghost function Derive(t: Table, seed: seq<Bit>, d: Derivation): Option<seq<Bit>>
    requires ValidTable(t)
  {
    match d
    case Seed => Some(seed)
    case Created(choices) =>
      if ChoicesFit(t, Codons(Decode(seed)), choices) && CreateSpec(t, seed, choices).Ok?
      then Some(CreateSpec(t, seed, choices).value) else None
    case Mutated(p, draws, choice) =>
      var v := Derive(t, seed, p);
      if v.Some? && MutationFits(t, v.value, draws, choice) && MutateSpec(t, v.value, draws, choice).Ok?
      then Some(MutateSpec(t, v.value, draws, choice).value) else None
    case Crossed(l, r, cut, second) =>
      var a := Derive(t, seed, l);
      var b := Derive(t, seed, r);
      if a.Some? && b.Some? && CutFits(a.value, cut) && Crossover(a.value, b.value, cut).Ok?
      then Some(if second then Crossover(a.value, b.value, cut).value.1 else Crossover(a.value, b.value, cut).value.0)
      else None
  }

  /** Every operator keeps the amino-acid translation: any individual
      derived from a seed of whole codons has the seed's length and
      translation. */
  lemma {:induction false} DerivedTranslatesLikeSeed(t: Table, seed: seq<Bit>, d: Derivation)
    requires ValidTable(t) && |seed| % 6 == 0
    requires Derive(t, seed, d).Some?
    ensures |Derive(t, seed, d).value| == |seed|
    ensures VTranslation(t, Derive(t, seed, d).value) == VTranslation(t, seed)
  {
    match d
    case Seed =>
    case Created(choices) =>
      CreateFacts(t, seed, choices);
    case Mutated(p, draws, choice) =>
      DerivedTranslatesLikeSeed(t, seed, p);
      MutateFacts(t, Derive(t, seed, p).value, draws, choice);
    case Crossed(l, r, cut, second) =>
      DerivedTranslatesLikeSeed(t, seed, l);
      DerivedTranslatesLikeSeed(t, seed, r);
      CrossoverPreserves(t, Derive(t, seed, l).value, Derive(t, seed, r).value, cut);
  }

  /** The program's closing assertion: with consistent tables, the best
      individual, whatever sequence of operators produced it, decodes to a
      sequence that translates exactly like the back-translated insert,
      which in turn translates to the mappable residues of the input. The
      decoding `vector_to_dna` raises exactly when the insert is empty. */
  lemma FinalTranslationAgrees(t: Table, back: BackTable, aas: string, d: Derivation)
    requires ValidTable(t) && Consistent(t, back)
    requires BackTranslation(back, aas).Ok?
    requires DnaToVector(BackTranslation(back, aas).value).Ok?
    requires Derive(t, DnaToVector(BackTranslation(back, aas).value).value, d).Some?
    ensures var best := Derive(t, DnaToVector(BackTranslation(back, aas).value).value, d).value;
      (VectorToDna(best).Ok? <==> BackTranslation(back, aas).value != "")
      && (VectorToDna(best).Ok? ==>
            Translation(t, VectorToDna(best).value) == Translation(t, BackTranslation(back, aas).value))
    ensures Translation(t, BackTranslation(back, aas).value) == Expected(back, aas)
  {
    var insert := BackTranslation(back, aas).value;
    BackTranslationFacts(t, back, aas);
    assert |insert| == 3 * |Mappable(back, aas)|;
    DecodedInsert(t, insert, d);
    var seed := DnaToVector(insert).value;
    var k := |insert| / 3;
    SixFold(k);
    DerivedTranslatesLikeSeed(t, seed, d);
  }

  /** Encoding a DNA string of whole codons, deriving an individual from
      it and decoding that individual keeps the translation. */
  lemma DecodedInsert(t: Table, insert: string, d: Derivation)
    requires ValidTable(t) && IsDna(insert) && |insert| % 3 == 0
    requires DnaToVector(insert).Ok? && Derive(t, DnaToVector(insert).value, d).Some?
    ensures Translation(t, Decode(Derive(t, DnaToVector(insert).value, d).value)) == Translation(t, insert)
  {
    var seed := DnaToVector(insert).value;
    var k := |insert| / 3;
    assert |insert| == 3 * k && |seed| == 6 * k;
    SixFold(k);
    DecodeEncode(insert);
    DecodedTranslation(t, seed, d);
  }

  lemma SixFold(k: nat)
    ensures (6 * k) % 6 == 0
  {
  }

  /** Decoding any individual derived from a seed gives a sequence that
      translates like the decoded seed. */
  lemma DecodedTranslation(t: Table, seed: seq<Bit>, d: Derivation)
    requires ValidTable(t) && |seed| % 6 == 0
    requires Derive(t, seed, d).Some?
    ensures Translation(t, Decode(Derive(t, seed, d).value)) == Translation(t, Decode(seed))
  {
    DerivedTranslatesLikeSeed(t, seed, d);
    var v := Derive(t, seed, d).value;
    VTranslationIsTranslation(t, v);
    VTranslationIsTranslation(t, seed);
  }
}
