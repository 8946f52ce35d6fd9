/** The search operators of packages/freqgen-core/operators.js: `seed`,
    `crossover` and `mutate` of an `Operators` object. The object's fields
    are set once by its constructor from the YAML genetic-code data and
    never changed by these operators, so the object is a value here, with
    the three tables it reads as fields: the codons of each amino acid, the
    codons with no synonym, and the synonyms of each codon. The random draws
    are arguments. */
module OperatorsJs {
  import opened Wrappers
  import opened Dicts
  import opened Dna
  import opened GeneticCode
  import opened JsKmers
  import CoreKmers
  import Seqgen
  import FreqgenEngine

  datatype Operators = Operators(
    targetAminoAcidSeq: string,
    populationSize: int,
    codonsForAminoAcid: Dict<char, seq<string>>,
    codonsWithoutSynonyms: seq<string>,
    synonymousCodons: Dict<string, seq<string>>)

  // ---------------------------------------------------------------------
  // seed (operators.js:42-50)
  // ---------------------------------------------------------------------

  /** `this.codonsForAminoAcid[letter][0]`, as `dnaSeq +=` appends it: a
      missing amino acid throws a TypeError; an empty codon list yields
      `undefined`, which the concatenation spells out. */
  function SeedPiece(ops: Operators, letter: char): Result<string> {
    match Get(ops.codonsForAminoAcid, letter)
    case None => Err(TypeError("Cannot read properties of undefined (reading '0')"))
    case Some(codons) => Ok(if codons == [] then "undefined" else codons[0])
  }

  function SeedSteps(ops: Operators): (steps: seq<Result<string>>)
    ensures |steps| == |ops.targetAminoAcidSeq|
    ensures forall i :: 0 <= i < |steps| ==> steps[i] == SeedPiece(ops, ops.targetAminoAcidSeq[i])
  {
    seq(|ops.targetAminoAcidSeq|, i requires 0 <= i < |ops.targetAminoAcidSeq| => SeedPiece(ops, ops.targetAminoAcidSeq[i]))
  }

  /** `Array.from({ length: populationSize }, ...)`: a negative length
      counts as 0. */
  function PopulationLength(n: int): nat {
    if n < 0 then 0 else n
  }

  function SeedSpec(ops: Operators): Result<seq<string>> {
    match Seqgen.Concat(SeedSteps(ops))
    case Err(f) => Err(f)
    case Ok(dna) => Ok(seq(PopulationLength(ops.populationSize), _ => dna))
  }

  /** The back-translation loop, then `populationSize` copies. */
  method Seed(ops: Operators) returns (r: Result<seq<string>>)
    ensures r == SeedSpec(ops)
  {
    ghost var steps := SeedSteps(ops);
    var dnaSeq := "";
    var i := 0;
    while i < |ops.targetAminoAcidSeq|
      invariant i <= |ops.targetAminoAcidSeq|
      invariant Seqgen.Concat(steps[..i]) == Ok(dnaSeq)
    {
      var letter := ops.targetAminoAcidSeq[i];
      assert steps[..i + 1][..i] == steps[..i];
      var codons := Get(ops.codonsForAminoAcid, letter);
      if codons.None? {
        Seqgen.ConcatErrSticky(steps, i + 1);
        return Err(TypeError("Cannot read properties of undefined (reading '0')"));
      }
      var piece := if codons.value == [] then "undefined" else codons.value[0];
      dnaSeq := dnaSeq + piece;
      i := i + 1;
    }
    assert steps[..i] == steps;
    var n := if ops.populationSize < 0 then 0 else ops.populationSize;
    return Ok(seq(n, _ => dnaSeq));
  }

  /** With the codon lists of a genetic code (its inverse), `seed` succeeds
      exactly when every amino acid of the target is encoded by some codon;
      it then returns `populationSize` copies of one DNA string of three
      letters per amino acid whose codons are, in order, the first codon of
      each amino acid, so it translates back to the target. */
  lemma SeedTranslates(ops: Operators, t: Table)
    requires ValidTable(t) && ops.codonsForAminoAcid == Invert(t)
    ensures SeedSpec(ops).Ok? <==> forall i :: 0 <= i < |ops.targetAminoAcidSeq| ==> ops.targetAminoAcidSeq[i] in Values(t)
    ensures SeedSpec(ops).Ok? ==>
              var pop := SeedSpec(ops).value;
              |pop| == PopulationLength(ops.populationSize)
              && forall p :: 0 <= p < |pop| ==>
                   pop[p] == pop[0] && |pop[p]| == 3 * |ops.targetAminoAcidSeq| && IsDna(pop[p])
                   && forall i :: 0 <= i < |ops.targetAminoAcidSeq| ==>
                        Translation(t, pop[p])[i] == Some(ops.targetAminoAcidSeq[i])
  {
    var aas := ops.targetAminoAcidSeq;
    var steps := SeedSteps(ops);
    InvertFacts(t);
    Seqgen.ConcatOk(steps);
    if SeedSpec(ops).Ok? {
      var v := Seqgen.Pieces(steps);
      forall j | 0 <= j < |v| ensures |v[j]| == 3 && IsDna(v[j]) && Get(t, v[j]) == Some(aas[j]) {
        SeedPieceFacts(ops, t, aas[j]);
      }
      FreqgenEngine.JoinedCodons(t, v, aas);
    } else {
      var i := Seqgen.ConcatErr(steps);
      SeedPieceFacts(ops, t, aas[i]);
    }
    forall i | 0 <= i < |aas| && aas[i] in Values(t) ensures steps[i].Ok? {
      SeedPieceFacts(ops, t, aas[i]);
    }
  }

  /** One amino acid of the target: its piece is its first codon exactly
      when some codon encodes it. */
  lemma SeedPieceFacts(ops: Operators, t: Table, a: char)
    requires ValidTable(t) && ops.codonsForAminoAcid == Invert(t)
    ensures SeedPiece(ops, a).Ok? <==> a in Values(t)
    ensures SeedPiece(ops, a).Ok? ==>
              var c := SeedPiece(ops, a).value;
              |c| == 3 && IsDna(c) && Get(t, c) == Some(a) && CodonsOf(t, a) != [] && c == CodonsOf(t, a)[0]
  {
    InvertFacts(t);
    if a in Values(t) {
      var i :| 0 <= i < |t| && Values(t)[i] == a;
      GetIndex(t, i);
      CodonsOfMember(t, a, t[i].0);
      var l := CodonsOf(t, a);
      assert l != [];
      assert Get(Invert(t), a) == Some(l);
      CodonsOfMember(t, a, l[0]);
      var j := IndexOf(Keys(t), l[0]);
      assert Keys(t)[j] == t[j].0;
    }
  }

  /** packages/freqgen-core/__tests__/operators_test.js:4-9: for `'FK'`
      with a population of 2, whatever codon lists F and K have, provided
      they start with TTT and AAA. */
  lemma SeedExample(codons: Dict<char, seq<string>>, without: seq<string>, syn: Dict<string, seq<string>>)
    requires Get(codons, 'F').Some? && Get(codons, 'F').value != [] && Get(codons, 'F').value[0] == "TTT"
    requires Get(codons, 'K').Some? && Get(codons, 'K').value != [] && Get(codons, 'K').value[0] == "AAA"
    ensures SeedSpec(Operators("FK", 2, codons, without, syn)) == Ok(["TTTAAA", "TTTAAA"])
  {
    var ops := Operators("FK", 2, codons, without, syn);
    var steps := SeedSteps(ops);
    assert steps == [Ok("TTT"), Ok("AAA")];
    Seqgen.ConcatOk(steps);
    var v := Seqgen.Pieces(steps);
    assert v == ["TTT", "AAA"];
    assert v[1..] == ["AAA"] && v[1..][1..] == [];
    assert Join(v[1..]) == "AAA" + Join(v[1..][1..]);
    assert Join(v) == "TTT" + "AAA";
    assert "TTT" + "AAA" == "TTTAAA";
    assert seq(2, _ => "TTTAAA") == ["TTTAAA", "TTTAAA"];
  }

  // ---------------------------------------------------------------------
  // crossover (operators.js:63-70)
  // ---------------------------------------------------------------------

  /** Where `String.prototype.slice` puts an index: counted from the end
      when negative, clamped to the string. */
  function SliceIndex(i: int, n: nat): (r: nat)
    ensures r <= n
    ensures 0 <= i <= n ==> r == i
  {
    if i < 0 then (if n + i < 0 then 0 else n + i) else if i > n then n else i
  }

  /** `random(1, parent_1.length / 3 - 1)` from lodash: an integer between
      the bounds, which are swapped when the lower is the larger, so a
      one-codon parent draws 0 or 1. A length that is not a multiple of 3
      makes the upper bound fractional and is not modelled. */
  predicate CrossoverDrawFits(p1: string, r: int) {
    |p1| % 3 == 0
    && var n := |p1| / 3;
       (if n - 1 >= 1 then 1 <= r <= n - 1 else n - 1 <= r <= 1)
  }

  /** `crossover(parent1, parent2)` with `r` the draw of `_.random`: the
      parents swap their tails at `idx = 3 * r`, so the children's lengths
      add up to the parents'. */
  function Crossover(p1: string, p2: string, r: int): (children: (string, string))
    requires CrossoverDrawFits(p1, r)
    ensures |children.0| + |children.1| == |p1| + |p2|
  {
    var idx := r * 3;
    (p1[..SliceIndex(idx, |p1|)] + p2[SliceIndex(idx, |p2|)..],
     p2[..SliceIndex(idx, |p2|)] + p1[SliceIndex(idx, |p1|)..])
  }

  /** No letter is lost or made up: the children hold exactly the parents'
      letters, whatever their lengths. */
  lemma CrossoverLetters(p1: string, p2: string, r: int)
    requires CrossoverDrawFits(p1, r)
    ensures var (c1, c2) := Crossover(p1, p2, r);
            multiset(c1) + multiset(c2) == multiset(p1) + multiset(p2)
  {
    var a, b := SliceIndex(r * 3, |p1|), SliceIndex(r * 3, |p2|);
    assert p1 == p1[..a] + p1[a..] && p2 == p2[..b] + p2[b..];
  }

  /** With at least two codons the cut is codon-aligned and strictly
      inside: `idx = 3 * r` with `1 <= r <= length / 3 - 1`. */
  lemma CrossoverCut(p1: string, r: int)
    requires CrossoverDrawFits(p1, r) && |p1| >= 6
    ensures 3 <= 3 * r <= |p1| - 3 && (3 * r) % 3 == 0
  {
    var n := |p1| / 3;
    assert |p1| == 3 * n && n >= 2;
  }

  /** Wherever the draw falls, `slice` cuts at a codon boundary. */
  lemma CutAligned(p1: string, r: int)
    requires CrossoverDrawFits(p1, r)
    ensures SliceIndex(3 * r, |p1|) % 3 == 0
  {
    var n := |p1| / 3;
    assert |p1| == 3 * n;
    if n >= 2 {
      assert 0 <= 3 * r <= |p1|;
    } else if n == 1 {
      assert r == 0 || r == 1;
    } else {
      assert |p1| == 0;
    }
  }

  /** For parents of one length, each child has that length, and each of
      its positions comes from one parent: the first child takes the first
      parent's letters before the cut and the second parent's after it, the
      second child the other way round. */
  lemma CrossoverChildren(p1: string, p2: string, r: int)
    requires CrossoverDrawFits(p1, r) && |p1| == |p2|
    ensures var (c1, c2) := Crossover(p1, p2, r);
            var cut := SliceIndex(3 * r, |p1|);
            |c1| == |p1| && |c2| == |p1| && cut % 3 == 0
            && (forall j :: 0 <= j < |p1| ==> c1[j] == (if j < cut then p1[j] else p2[j]))
            && (forall j :: 0 <= j < |p1| ==> c2[j] == (if j < cut then p2[j] else p1[j]))
  {
    CutAligned(p1, r);
    var cut := SliceIndex(3 * r, |p1|);
    assert SliceIndex(r * 3, |p2|) == cut;
    var (c1, c2) := Crossover(p1, p2, r);
    assert c1 == p1[..cut] + p2[cut..] && c2 == p2[..cut] + p1[cut..];
    assert |c1| == |p1| && |c2| == |p1|;
    forall j | 0 <= j < |p1|
      ensures c1[j] == (if j < cut then p1[j] else p2[j])
      ensures c2[j] == (if j < cut then p2[j] else p1[j])
    {
    }
  }

  /** One-codon parents come back as the same two strings, in one order
      or the other. */
  lemma CrossoverOneCodon(p1: string, p2: string, r: int)
    requires CrossoverDrawFits(p1, r) && |p1| == 3 && |p2| == 3
    ensures Crossover(p1, p2, r) == (p2, p1) || Crossover(p1, p2, r) == (p1, p2)
  {
    assert |p1| / 3 == 1;
    if r == 0 {
      assert SliceIndex(3 * r, 3) == 0;
      assert p1[..0] == "" && p1[0..] == p1 && p2[..0] == "" && p2[0..] == p2;
      assert "" + p2 == p2 && "" + p1 == p1;
    } else {
      assert r == 1 && SliceIndex(3 * r, 3) == 3;
      assert p1[..3] == p1 && p1[3..] == "" && p2[..3] == p2 && p2[3..] == "";
      assert p1 + "" == p1 && p2 + "" == p2;
    }
  }

  /** The cut is codon-aligned, so parents that encode the same protein
      have children that encode it too. */
  lemma CrossoverTranslation(t: Table, p1: string, p2: string, r: int)
    requires CrossoverDrawFits(p1, r) && |p1| == |p2| && Translation(t, p1) == Translation(t, p2)
    ensures Translation(t, Crossover(p1, p2, r).0) == Translation(t, p1)
    ensures Translation(t, Crossover(p1, p2, r).1) == Translation(t, p1)
  {
    var cut := SliceIndex(3 * r, |p1|);
    CrossoverChildren(p1, p2, r);
    assert cut % 3 == 0;
    TranslationConcat(t, p1[..cut], p1[cut..]);
    TranslationConcat(t, p2[..cut], p2[cut..]);
    TranslationConcat(t, p1[..cut], p2[cut..]);
    TranslationConcat(t, p2[..cut], p1[cut..]);
    assert p1[..cut] + p1[cut..] == p1 && p2[..cut] + p2[cut..] == p2;
    var a1, b1 := Translation(t, p1[..cut]), Translation(t, p1[cut..]);
    var a2, b2 := Translation(t, p2[..cut]), Translation(t, p2[cut..]);
    assert |a1| == |a2|;
    assert a1 + b1 == a2 + b2;
    assert a1 == (a1 + b1)[..|a1|] == (a2 + b2)[..|a2|] == a2;
    assert b1 == (a1 + b1)[|a1|..] == (a2 + b2)[|a2|..] == b2;
  }

  /** packages/freqgen-core/__tests__/operators_test.js:19-23: two codons
      each, the second codons are swapped. */
  lemma CrossoverExample()
    ensures Crossover("AAAAAA", "TTTTTT", 1) == ("AAATTT", "TTTAAA")
  {
    assert SliceIndex(1 * 3, 6) == 3;
    assert "AAAAAA"[..3] == "AAA" && "AAAAAA"[3..] == "AAA";
    assert "TTTTTT"[..3] == "TTT" && "TTTTTT"[3..] == "TTT";
    assert "AAA" + "TTT" == "AAATTT" && "TTT" + "AAA" == "TTTAAA";
  }

  // ---------------------------------------------------------------------
  // mutate (operators.js:72-93)
  // ---------------------------------------------------------------------

  /** `codons.every(codon => this.codonsWithoutSynonyms.indexOf(codon) > -1)`. */
  predicate AllWithoutSynonyms(codons: seq<string>, without: seq<string>) {
    forall j :: 0 <= j < |codons| ==> codons[j] in without
  }

  /** The draws of the `do ... while` loop: codon indices, in order; some
      draw must hit a codon with synonyms, or the loop runs on. */
  ghost predicate TriesFit(codons: seq<string>, without: seq<string>, tries: seq<nat>) {
    (forall j :: 0 <= j < |tries| ==> tries[j] < |codons|)
    && exists j :: 0 <= j < |tries| && codons[tries[j]] !in without
  }

  /** The position of the first draw that hits a codon with synonyms. */
  function FirstHit(codons: seq<string>, without: seq<string>, tries: seq<nat>): (j: nat)
    requires TriesFit(codons, without, tries)
    ensures j < |tries| && codons[tries[j]] !in without
    ensures forall i :: 0 <= i < j ==> codons[tries[i]] in without
    decreases |tries|
  {
    if codons[tries[0]] !in without then 0
    else
      assert TriesFit(codons, without, tries[1..]) by {
        var j :| 0 <= j < |tries| && codons[tries[j]] !in without;
        assert j >= 1 && tries[1..][j - 1] == tries[j];
      }
      1 + FirstHit(codons, without, tries[1..])
  }

  /** `synonyms.filter(key => key != codon)`. */
  function OtherThan(synonyms: seq<string>, codon: string): (r: seq<string>)
    ensures forall d :: d in r <==> d in synonyms && d != codon
    ensures |r| <= |synonyms|
  {
    if synonyms == [] then []
    else (if synonyms[0] != codon then [synonyms[0]] else []) + OtherThan(synonyms[1..], codon)
  }

  /** The codons `mutate` cuts `sequence` into, once the length is a
      multiple of 3. */
  function CodonsOfSeq(s: string): (codons: seq<string>)
    requires |s| % 3 == 0
    ensures |codons| == |s| / 3 && 3 * |codons| == |s|
  {
    Chunks(s, 3)
  }

  /** The replacement draw indexes the choices when there are any. */
  predicate PickFits(syn: Dict<string, seq<string>>, codon: string, pick: nat) {
    Get(syn, codon).Some? && OtherThan(Get(syn, codon).value, codon) != [] ==>
      pick < |OtherThan(Get(syn, codon).value, codon)|
  }

  /** The draws fit: the loop's draws are codon indices and one of them
      hits a codon with synonyms, and the replacement draw fits that
      codon's choices. */
  ghost predicate MutateDrawsFit(ops: Operators, s: string, tries: seq<nat>, pick: nat) {
    |s| % 3 == 0 && !AllWithoutSynonyms(CodonsOfSeq(s), ops.codonsWithoutSynonyms) ==>
      TriesFit(CodonsOfSeq(s), ops.codonsWithoutSynonyms, tries)
      && PickFits(ops.synonymousCodons, CodonsOfSeq(s)[tries[FirstHit(CodonsOfSeq(s), ops.codonsWithoutSynonyms, tries)]], pick)
  }

  /** The codon index the loop settles on. */
  function Drawn(ops: Operators, s: string, tries: seq<nat>, pick: nat): (idx: nat)
    requires MutateDrawsFit(ops, s, tries, pick)
    requires |s| % 3 == 0 && !AllWithoutSynonyms(CodonsOfSeq(s), ops.codonsWithoutSynonyms)
    ensures idx < |s| / 3 && 3 * idx + 3 <= |s| && CodonsOfSeq(s)[idx] !in ops.codonsWithoutSynonyms
    ensures PickFits(ops.synonymousCodons, CodonsOfSeq(s)[idx], pick)
  {
    tries[FirstHit(CodonsOfSeq(s), ops.codonsWithoutSynonyms, tries)]
  }

  /** What `choices[Math.floor(Math.random() * choices.length)]` puts in
      the codon's place: an empty choice list gives `undefined`, which
      `join('')` writes as nothing. */
  function Replacement(choices: seq<string>, pick: nat): (c: string)
    ensures choices != [] && pick < |choices| ==> c == choices[pick]
    ensures choices == [] ==> c == ""
  {
    if choices != [] && pick < |choices| then choices[pick] else ""
  }

  /** `synonymousCodons[codon].filter(...)`, the pick, and the join of the
      codon array with codon `idx` replaced. */
  function Substitute(syn: Dict<string, seq<string>>, codons: seq<string>, idx: nat, pick: nat): Result<string>
    requires idx < |codons|
  {
    match Get(syn, codons[idx])
    case None => Err(TypeError("Cannot read properties of undefined (reading 'filter')"))
    case Some(synonyms) => Ok(Join(codons[idx := Replacement(OtherThan(synonyms, codons[idx]), pick)]))
  }

  function MutateSpec(ops: Operators, s: string, tries: seq<nat>, pick: nat): Result<string>
    requires MutateDrawsFit(ops, s, tries, pick)
  {
    if |s| % 3 != 0 then Err(Thrown("Sequence is not unabiguously divisible into overlapping k-mers."))
    else if AllWithoutSynonyms(CodonsOfSeq(s), ops.codonsWithoutSynonyms) then Ok(s)
    else Substitute(ops.synonymousCodons, CodonsOfSeq(s), Drawn(ops, s, tries, pick), pick)
  }

  /** `kmers(sequence, 3, { overlap: false })` throws on a length that is
      not a multiple of 3 and otherwise gives the codons. */
  lemma CutIntoCodons(s: string)
    ensures CoreKmers.KmersSpec(s, Some(3), Options(Some(false))) ==
              if |s| % 3 != 0 then Err(Thrown("Sequence is not unabiguously divisible into overlapping k-mers."))
              else Ok(CodonsOfSeq(s))
  {
    CoreKmers.KmersFacts(s, 3, false);
  }

  /** The cut into codons, the fail-fast test, the draw loop, and the
      replacement of one codon in the codon array. */
  method Mutate(ops: Operators, s: string, tries: seq<nat>, pick: nat) returns (r: Result<string>)
    requires MutateDrawsFit(ops, s, tries, pick)
    ensures r == MutateSpec(ops, s, tries, pick)
  {
    var cut := CoreKmers.Kmers(s, Some(3), Options(Some(false)));
    CutIntoCodons(s);
    if cut.Err? {
      return Err(cut.failure);
    }
    var codons := cut.value;
    var without := ops.codonsWithoutSynonyms;
    if forall j :: 0 <= j < |codons| ==> codons[j] in without {
      return Ok(s);
    }
    ghost var hit := FirstHit(codons, without, tries);
    var t := 0;
    var idx := tries[t];
    var codon := codons[idx];
    while codon in without
      invariant t <= hit && idx == tries[t] && codon == codons[idx]
      decreases hit - t
    {
      t := t + 1;
      idx := tries[t];
      codon := codons[idx];
    }
    assert idx == Drawn(ops, s, tries, pick);
    var synonyms := Get(ops.synonymousCodons, codon);
    if synonyms.None? {
      return Err(TypeError("Cannot read properties of undefined (reading 'filter')"));
    }
    var choices := OtherThan(synonyms.value, codon);
    var replacement := if choices == [] then "" else choices[pick];
    codons := codons[idx := replacement];
    return Ok(Join(codons));
  }

  /** A length that is not a multiple of 3 makes the non-overlapping
      `kmers` throw; when every codon lacks synonyms the sequence comes
      back unchanged; a drawn codon missing from the synonym table throws a
      TypeError. */
  lemma MutateErrors(ops: Operators, s: string, tries: seq<nat>, pick: nat)
    requires MutateDrawsFit(ops, s, tries, pick)
    ensures |s| % 3 != 0 ==> MutateSpec(ops, s, tries, pick).Err? && MutateSpec(ops, s, tries, pick).failure.Thrown?
    ensures |s| % 3 == 0 && AllWithoutSynonyms(CodonsOfSeq(s), ops.codonsWithoutSynonyms) ==>
              MutateSpec(ops, s, tries, pick) == Ok(s)
    ensures |s| % 3 == 0 && !AllWithoutSynonyms(CodonsOfSeq(s), ops.codonsWithoutSynonyms) ==>
              (MutateSpec(ops, s, tries, pick).Err? <==>
                 CodonsOfSeq(s)[Drawn(ops, s, tries, pick)] !in Keys(ops.synonymousCodons))
  {
  }

  /** Replacing one codon of a codon list by another triplet changes the
      joined string in that codon's three letters only. */
  lemma JoinReplace(codons: seq<string>, idx: nat, c: string)
    requires forall j :: 0 <= j < |codons| ==> |codons[j]| == 3
    requires idx < |codons| && |c| == 3
    ensures |Join(codons[idx := c])| == 3 * |codons|
    ensures forall j :: 0 <= j < |codons| ==>
              Join(codons[idx := c])[3 * j..3 * j + 3] == if j == idx then c else codons[j]
  {
    var v := codons[idx := c];
    assert forall j :: 0 <= j < |v| ==> |v[j]| == 3;
    JoinLength(v, 3);
    forall j | 0 <= j < |codons| ensures Join(v)[3 * j..3 * j + 3] == if j == idx then c else codons[j] {
      JoinTriplets(v, j);
      assert v[j] == if j == idx then c else codons[j];
    }
  }

  /** Replacing one codon of a codon list by nothing shortens the join by
      that codon. */
  lemma JoinDrop(codons: seq<string>, idx: nat)
    requires forall j :: 0 <= j < |codons| ==> |codons[j]| == 3
    requires idx < |codons|
    ensures |Join(codons[idx := ""])| == 3 * |codons| - 3
  {
    var v := codons[idx := ""];
    var a, b := codons[..idx], codons[idx + 1..];
    assert v == a + [""] + b;
    assert codons == a + [codons[idx]] + b;
    JoinConcat(a + [""], b);
    JoinConcat(a, [""]);
    JoinConcat(a + [codons[idx]], b);
    JoinConcat(a, [codons[idx]]);
    assert Join([""]) == "" + Join([]);
    assert Join([codons[idx]]) == codons[idx] + Join([]);
    JoinLength(codons, 3);
  }

  /** The codons of a string of whole codons are its triplets, and join
      back to it. */
  lemma CodonsOfSeqFacts(s: string)
    requires |s| % 3 == 0
    ensures Join(CodonsOfSeq(s)) == s
    ensures forall j :: 0 <= j < |CodonsOfSeq(s)| ==> |CodonsOfSeq(s)[j]| == 3 && CodonsOfSeq(s)[j] == s[3 * j..3 * j + 3]
  {
    CodonsAreChunks(s);
    JoinCodons(s);
  }

  /** The substitution of a codon that has a synonym other than itself
      replaces exactly that codon, by one of those synonyms. */
  lemma SubstituteOne(syn: Dict<string, seq<string>>, codons: seq<string>, idx: nat, pick: nat)
    requires forall j :: 0 <= j < |codons| ==> |codons[j]| == 3
    requires idx < |codons| && PickFits(syn, codons[idx], pick)
    requires Get(syn, codons[idx]).Some? && OtherThan(Get(syn, codons[idx]).value, codons[idx]) != []
    requires forall d :: d in Get(syn, codons[idx]).value ==> |d| == 3
    ensures Substitute(syn, codons, idx, pick).Ok?
    ensures var r := Substitute(syn, codons, idx, pick).value;
            |r| == 3 * |codons|
            && r[3 * idx..3 * idx + 3] != codons[idx]
            && r[3 * idx..3 * idx + 3] in Get(syn, codons[idx]).value
            && forall j :: 0 <= j < |codons| && j != idx ==> r[3 * j..3 * j + 3] == codons[j]
  {
    var c := Replacement(OtherThan(Get(syn, codons[idx]).value, codons[idx]), pick);
    assert c in OtherThan(Get(syn, codons[idx]).value, codons[idx]);
    JoinReplace(codons, idx, c);
  }

  /** Otherwise, when the drawn codon has a synonym other than itself,
      `mutate` keeps the length, replaces exactly that codon, which has
      synonyms, by one of its synonyms different from it, and leaves every
      other codon as it was. */
  lemma MutateOneCodon(ops: Operators, s: string, tries: seq<nat>, pick: nat)
    requires MutateDrawsFit(ops, s, tries, pick)
    requires |s| % 3 == 0 && !AllWithoutSynonyms(CodonsOfSeq(s), ops.codonsWithoutSynonyms)
    requires Get(ops.synonymousCodons, CodonsOfSeq(s)[Drawn(ops, s, tries, pick)]).Some?
    requires var codon := CodonsOfSeq(s)[Drawn(ops, s, tries, pick)];
             OtherThan(Get(ops.synonymousCodons, codon).value, codon) != []
             && forall d :: d in Get(ops.synonymousCodons, codon).value ==> |d| == 3
    ensures MutateSpec(ops, s, tries, pick).Ok?
    ensures var r := MutateSpec(ops, s, tries, pick).value;
            var idx := Drawn(ops, s, tries, pick);
            var codon := CodonsOfSeq(s)[idx];
            |r| == |s|
            && codon == s[3 * idx..3 * idx + 3]
            && codon !in ops.codonsWithoutSynonyms
            && r[3 * idx..3 * idx + 3] != codon
            && r[3 * idx..3 * idx + 3] in Get(ops.synonymousCodons, codon).value
            && forall j :: 0 <= j && 3 * j + 3 <= |s| && j != idx ==> r[3 * j..3 * j + 3] == s[3 * j..3 * j + 3]
  {
    var codons := CodonsOfSeq(s);
    var idx := Drawn(ops, s, tries, pick);
    CodonsOfSeqFacts(s);
    SubstituteOne(ops.synonymousCodons, codons, idx, pick);
    assert MutateSpec(ops, s, tries, pick) == Substitute(ops.synonymousCodons, codons, idx, pick);
    var r := MutateSpec(ops, s, tries, pick).value;
    assert s[3 * idx..3 * idx + 3] == codons[idx];
    assert 3 * |codons| == |s|;
    assert r == Substitute(ops.synonymousCodons, codons, idx, pick).value;
    forall j | 0 <= j && 3 * j + 3 <= |s| && j != idx ensures r[3 * j..3 * j + 3] == s[3 * j..3 * j + 3] {
      assert j < |codons|;
      assert r[3 * j..3 * j + 3] == codons[j];
      assert codons[j] == s[3 * j..3 * j + 3];
    }
  }

  /** When the drawn codon has no synonym but itself and is missing from
      the list of codons without synonyms, the codon is dropped: the result
      is three letters shorter. */
  lemma MutateDropsCodon(ops: Operators, s: string, tries: seq<nat>, pick: nat)
    requires MutateDrawsFit(ops, s, tries, pick)
    requires |s| % 3 == 0 && !AllWithoutSynonyms(CodonsOfSeq(s), ops.codonsWithoutSynonyms)
    requires Get(ops.synonymousCodons, CodonsOfSeq(s)[Drawn(ops, s, tries, pick)]).Some?
    requires var codon := CodonsOfSeq(s)[Drawn(ops, s, tries, pick)];
             OtherThan(Get(ops.synonymousCodons, codon).value, codon) == []
    ensures MutateSpec(ops, s, tries, pick).Ok? && |MutateSpec(ops, s, tries, pick).value| == |s| - 3
  {
    CodonsOfSeqFacts(s);
    JoinDrop(CodonsOfSeq(s), Drawn(ops, s, tries, pick));
  }

  /** The synonym table agrees with a genetic code: every synonym listed
      for a codon is a triplet encoding what that codon encodes. */
  ghost predicate SynonymsAgree(t: Table, syn: Dict<string, seq<string>>) {
    forall i, d :: 0 <= i < |syn| && d in syn[i].1 ==> |d| == 3 && Get(t, d) == Get(t, syn[i].0)
  }

  /** The synonym table derived from a genetic code agrees with it. */
  lemma SynonymsOfCodeAgree(t: Table)
    requires ValidTable(t)
    ensures SynonymsAgree(t, Synonyms(t))
  {
    var syn := Synonyms(t);
    forall i, d | 0 <= i < |syn| && d in syn[i].1 ensures |d| == 3 && Get(t, d) == Get(t, syn[i].0) {
      assert Keys(syn)[i] == syn[i].0 && syn[i].0 == t[i].0;
      GetIndex(syn, i);
      SynonymsFacts(t, t[i].0);
      var j := IndexOf(Keys(t), d);
      assert Keys(t)[j] == t[j].0;
    }
  }

  /** What an agreeing synonym table lists for a codon it has. */
  lemma AgreeingSynonyms(t: Table, syn: Dict<string, seq<string>>, codon: string, d: string)
    requires SynonymsAgree(t, syn) && Get(syn, codon).Some? && d in Get(syn, codon).value
    ensures |d| == 3 && Get(t, d) == Get(t, codon)
  {
    var k := IndexOf(Keys(syn), codon);
    assert Keys(syn)[k] == syn[k].0;
  }

  /** Two strings of whole codons that differ at most in one codon, which
      encodes the same amino acid in both, translate alike. */
  lemma OneCodonTranslation(t: Table, r: string, s: string, idx: nat)
    requires |r| == |s| && |s| % 3 == 0 && 3 * idx + 3 <= |s|
    requires Get(t, r[3 * idx..3 * idx + 3]) == Get(t, s[3 * idx..3 * idx + 3])
    requires forall j :: 0 <= j && 3 * j + 3 <= |s| && j != idx ==> r[3 * j..3 * j + 3] == s[3 * j..3 * j + 3]
    ensures Translation(t, r) == Translation(t, s)
  {
    var n := |s| / 3;
    assert 3 * n == |s|;
    forall i | 0 <= i < |r| / 3 ensures Get(t, r[3 * i..3 * i + 3]) == Get(t, s[3 * i..3 * i + 3]) {
      assert 3 * i + 3 <= |s|;
    }
    TranslationByCodon(t, r, s);
  }

  /** `mutate` preserves the protein: with synonyms that agree with the
      genetic code, and a drawn codon that is in the synonym table and has
      a synonym other than itself, the mutated sequence has the original's
      length and translates codon for codon like it. */
  lemma MutateTranslation(t: Table, ops: Operators, s: string, tries: seq<nat>, pick: nat)
    requires MutateDrawsFit(ops, s, tries, pick) && SynonymsAgree(t, ops.synonymousCodons)
    requires |s| % 3 == 0
    requires !AllWithoutSynonyms(CodonsOfSeq(s), ops.codonsWithoutSynonyms) ==>
               Get(ops.synonymousCodons, CodonsOfSeq(s)[Drawn(ops, s, tries, pick)]).Some?
               && var codon := CodonsOfSeq(s)[Drawn(ops, s, tries, pick)];
                  OtherThan(Get(ops.synonymousCodons, codon).value, codon) != []
    ensures MutateSpec(ops, s, tries, pick).Ok?
    ensures |MutateSpec(ops, s, tries, pick).value| == |s|
    ensures Translation(t, MutateSpec(ops, s, tries, pick).value) == Translation(t, s)
  {
    if !AllWithoutSynonyms(CodonsOfSeq(s), ops.codonsWithoutSynonyms) {
      var idx := Drawn(ops, s, tries, pick);
      var syn := ops.synonymousCodons;
      var codon := CodonsOfSeq(s)[idx];
      forall d | d in Get(syn, codon).value ensures |d| == 3 && Get(t, d) == Get(t, codon) {
        AgreeingSynonyms(t, syn, codon, d);
      }
      MutateOneCodon(ops, s, tries, pick);
      var r := MutateSpec(ops, s, tries, pick).value;
      AgreeingSynonyms(t, syn, codon, r[3 * idx..3 * idx + 3]);
      OneCodonTranslation(t, r, s, idx);
    }
  }

  /** packages/freqgen-core/__tests__/operators_test.js:38-40: `'ATG'`,
      which has no synonym, comes back as it is. */
  lemma MutateExampleNoSynonym(codons: Dict<char, seq<string>>, syn: Dict<string, seq<string>>)
    ensures MutateDrawsFit(Operators("", 0, codons, ["ATG"], syn), "ATG", [], 0)
    ensures MutateSpec(Operators("", 0, codons, ["ATG"], syn), "ATG", [], 0) == Ok("ATG")
  {
    CodonsOfSeqFacts("ATG");
    assert "ATG"[0..3] == "ATG";
    assert CodonsOfSeq("ATG") == ["ATG"];
  }

  /** packages/freqgen-core/__tests__/operators_test.js:41-44: `'TGT'`,
      whose one other synonym is `'TGC'`, becomes `'TGC'`. */
  lemma MutateExampleOneSynonym(codons: Dict<char, seq<string>>, syn: Dict<string, seq<string>>)
    requires Get(syn, "TGT") == Some(["TGT", "TGC"])
    ensures MutateDrawsFit(Operators("", 0, codons, ["ATG"], syn), "TGT", [0], 0)
    ensures MutateSpec(Operators("", 0, codons, ["ATG"], syn), "TGT", [0], 0) == Ok("TGC")
  {
    var ops := Operators("", 0, codons, ["ATG"], syn);
    CodonsOfSeqFacts("TGT");
    assert "TGT"[0..3] == "TGT";
    assert CodonsOfSeq("TGT") == ["TGT"];
    assert [0][0] == 0 && ["TGT"][0] !in ["ATG"];
    assert TriesFit(["TGT"], ["ATG"], [0]);
    assert FirstHit(["TGT"], ["ATG"], [0]) == 0;
    assert PickFits(syn, "TGT", 0);
    assert MutateDrawsFit(ops, "TGT", [0], 0);
    assert Drawn(ops, "TGT", [0], 0) == 0;
    assert OtherThan(["TGT", "TGC"], "TGT") == ["TGC"] by {
      assert ["TGT", "TGC"][1..] == ["TGC"];
      assert ["TGC"][1..] == [];
    }
    assert Replacement(["TGC"], 0) == "TGC";
    var cs := ["TGT"];
    assert cs[0] == "TGT";
    assert cs[0 := "TGC"] == ["TGC"];
    assert Join(["TGC"]) == "TGC" + Join([]) == "TGC" + "" == "TGC";
    assert Substitute(syn, cs, 0, 0) == Ok(Join(cs[0 := "TGC"]));
    assert MutateSpec(ops, "TGT", [0], 0) == Substitute(syn, cs, 0, 0) == Ok("TGC");
  }
}
