/** The stand-alone sequence generator (seqgen.py).

    `amino_acid_seq` draws residues one at a time with `numpy.random.choice`
    and appends them; `amino_acids_to_codons` inverts a genetic code and
    draws one codon per residue; `gc_content` validates a sequence
    character by character before counting. Every draw becomes an index
    argument: the model says which indices `choice` may return (one holding
    positive weight) and nothing about how often. */
module Seqgen {
  import opened Wrappers
  import opened Dicts
  import opened Dna
  import opened GeneticCode
  import LegacyFreqgen
  import FreqgenEngine

  // ---------------------------------------------------------------------
  // numpy.random.choice(a, p=p)
  // ---------------------------------------------------------------------

  /** The weights `choice` accepts: at least one option, none negative,
      summing to one (numpy's tolerance taken as exact). */
  predicate Accepted<T(==)>(options: Dict<T, real>) {
    options != [] && (forall j :: 0 <= j < |options| ==> options[j].1 >= 0.0) && SumValues(options) == 1.0
  }

  /** A draw is an index holding positive weight, whenever `choice` gets as
      far as drawing. */
  predicate ChoiceFits<T(==)>(options: Dict<T, real>, draw: nat) {
    Accepted(options) ==> draw < |options| && options[draw].1 > 0.0
  }

  /** `choice([o for o, _ in options], p=[w for _, w in options])` when the
      draw comes out as index `draw`, with numpy's checks in numpy's order. */
  function Choice<T(==)>(options: Dict<T, real>, draw: nat): (r: Result<T>)
    requires ChoiceFits(options, draw)
    ensures r.Ok? <==> Accepted(options)
    ensures r.Err? ==> r.failure.ValueError?
    ensures r.Ok? ==> r.value == options[draw].0 && r.value in Keys(options) && options[draw].1 > 0.0
  {
    if options == [] then Err(ValueError("'a' cannot be empty unless no samples are taken"))
    else if exists j :: 0 <= j < |options| && options[j].1 < 0.0 then Err(ValueError("probabilities are not non-negative"))
    else if SumValues(options) != 1.0 then Err(ValueError("probabilities do not sum to 1"))
    else Ok(options[draw].0)
  }

  // ---------------------------------------------------------------------
  // Appending draws to a string, stopping at the first exception
  // ---------------------------------------------------------------------

  /** `sequence += piece` for each step in turn; the first step that raises
      ends the loop with its exception. */
  function Concat(steps: seq<Result<string>>): Result<string> {
    if steps == [] then Ok("")
    else
      match Concat(steps[..|steps| - 1])
      case Err(f) => Err(f)
      case Ok(s) =>
        match steps[|steps| - 1]
        case Err(f) => Err(f)
        case Ok(x) => Ok(s + x)
  }

  /** The pieces of the steps that succeeded. */
  function Pieces(steps: seq<Result<string>>): (ps: seq<string>)
    ensures |ps| == |steps|
    ensures forall i :: 0 <= i < |steps| && steps[i].Ok? ==> ps[i] == steps[i].value
  {
    seq(|steps|, i requires 0 <= i < |steps| => if steps[i].Ok? then steps[i].value else "")
  }

  /** Once a prefix has raised, the whole loop raises the same exception. */
  lemma {:induction false} ConcatErrSticky(steps: seq<Result<string>>, i: nat)
    requires i <= |steps| && Concat(steps[..i]).Err?
    ensures Concat(steps) == Concat(steps[..i])
    decreases |steps| - i
  {
    if i < |steps| {
      assert steps[..i + 1][..i] == steps[..i];
      ConcatErrSticky(steps, i + 1);
    } else {
      assert steps[..i] == steps;
    }
  }

  /** The loop succeeds exactly when every step does, and then yields the
      pieces joined in order. */
  lemma {:induction false} ConcatOk(steps: seq<Result<string>>)
    ensures Concat(steps).Ok? <==> forall i :: 0 <= i < |steps| ==> steps[i].Ok?
    ensures Concat(steps).Ok? ==> Concat(steps).value == Join(Pieces(steps))
  {
    if steps != [] {
      var init := steps[..|steps| - 1];
      ConcatOk(init);
      assert forall i :: 0 <= i < |init| ==> init[i] == steps[i];
      if Concat(steps).Ok? {
        assert Pieces(steps) == Pieces(init) + [steps[|steps| - 1].value];
        JoinConcat(Pieces(init), [steps[|steps| - 1].value]);
        assert Join([steps[|steps| - 1].value]) == steps[|steps| - 1].value + Join([]);
      }
    }
  }

  /** A failing loop fails with the exception of its first failing step. */
  lemma {:induction false} ConcatErr(steps: seq<Result<string>>) returns (i: nat)
    requires Concat(steps).Err?
    ensures i < |steps| && steps[i] == Err(Concat(steps).failure)
    ensures forall j :: 0 <= j < i ==> steps[j].Ok?
  {
    var init := steps[..|steps| - 1];
    assert forall j :: 0 <= j < |init| ==> init[j] == steps[j];
    if Concat(init).Err? {
      i := ConcatErr(init);
    } else {
      ConcatOk(init);
      i := |steps| - 1;
    }
  }

  // ---------------------------------------------------------------------
  // amino_acid_seq (seqgen.py:5-30)
  // ---------------------------------------------------------------------

  /** One draw per residue to generate, each one `choice` may return. */
  predicate SeqDrawsFit(length: int, freqs: Dict<string, real>, draws: seq<nat>) {
    |draws| == (if length > 0 then length else 0)
    && forall i :: 0 <= i < |draws| ==> ChoiceFits(freqs, draws[i])
  }

  /** `sequence += choice(amino_acids, p=frequencies)`, once per residue. */
  function ResidueSteps(freqs: Dict<string, real>, draws: seq<nat>): (steps: seq<Result<string>>)
    requires forall i :: 0 <= i < |draws| ==> ChoiceFits(freqs, draws[i])
    ensures |steps| == |draws|
  {
    seq(|draws|, i requires 0 <= i < |draws| => Choice(freqs, draws[i]))
  }

  /** What `amino_acid_seq(length, frequencies)` returns or raises:
      unpacking the items of an empty dictionary raises before any draw. */
  function AminoAcidSeqSpec(length: int, freqs: Dict<string, real>, draws: seq<nat>): Result<string>
    requires SeqDrawsFit(length, freqs, draws)
  {
    if length <= 0 then Err(ValueError("Length must be a positive integer."))
    else if freqs == [] then Err(ValueError("not enough values to unpack (expected 2, got 0)"))
    else Concat(ResidueSteps(freqs, draws))
  }

  /** The generating loop. */
  method AminoAcidSeq(length: int, freqs: Dict<string, real>, draws: seq<nat>) returns (r: Result<string>)
    requires SeqDrawsFit(length, freqs, draws)
    ensures r == AminoAcidSeqSpec(length, freqs, draws)
  {
    if length <= 0 {
      return Err(ValueError("Length must be a positive integer."));
    }
    if freqs == [] {
      return Err(ValueError("not enough values to unpack (expected 2, got 0)"));
    }
    ghost var steps := ResidueSteps(freqs, draws);
    var sequence := "";
    var i := 0;
    while i < length
      invariant 0 <= i <= length
      invariant Concat(steps[..i]) == Ok(sequence)
    {
      var c := Choice(freqs, draws[i]);
      assert steps[..i + 1][..i] == steps[..i];
      if c.Err? {
        ConcatErrSticky(steps, i + 1);
        return Err(c.failure);
      }
      sequence := sequence + c.value;
      i := i + 1;
    }
    assert steps[..i] == steps;
    return Ok(sequence);
  }

  /** `amino_acid_seq` raises ValueError unless the length is positive and
      the frequencies are acceptable weights; otherwise it returns the drawn
      keys joined, and with one-letter keys that is `length` letters, each a
      key of positive frequency. */
  lemma AminoAcidSeqFacts(length: int, freqs: Dict<string, real>, draws: seq<nat>)
    requires SeqDrawsFit(length, freqs, draws)
    ensures var r := AminoAcidSeqSpec(length, freqs, draws);
      && (r.Ok? <==> length > 0 && Accepted(freqs))
      && (r.Err? ==> r.failure.ValueError?)
      && (r.Ok? ==> r.value == Join(seq(length, i requires 0 <= i < length => freqs[draws[i]].0)))
      && (r.Ok? && (forall j :: 0 <= j < |freqs| ==> |freqs[j].0| == 1) ==>
            |r.value| == length
            && forall i :: 0 <= i < length ==> [r.value[i]] == freqs[draws[i]].0 && freqs[draws[i]].1 > 0.0)
  {
    if length > 0 && freqs != [] {
      var steps := ResidueSteps(freqs, draws);
      ConcatOk(steps);
      if !Accepted(freqs) {
        assert steps[0].Err?;
      } else {
        var ps := Pieces(steps);
        assert ps == seq(length, i requires 0 <= i < length => freqs[draws[i]].0);
        if forall j :: 0 <= j < |freqs| ==> |freqs[j].0| == 1 {
          JoinLength(ps, 1);
          forall i | 0 <= i < length ensures [Join(ps)[i]] == ps[i] {
            JoinPiece(ps, i);
          }
        }
      }
      if Concat(steps).Err? {
        var i := ConcatErr(steps);
      }
    }
  }

  /** With one-letter pieces, the `i`-th letter of the join is the `i`-th
      piece. */
  lemma {:induction false} JoinPiece(ps: seq<string>, i: nat)
    requires forall j :: 0 <= j < |ps| ==> |ps[j]| == 1
    requires i < |ps|
    ensures |Join(ps)| == |ps| && [Join(ps)[i]] == ps[i]
  {
    JoinLength(ps, 1);
    assert Join(ps) == ps[0] + Join(ps[1..]);
    if i > 0 {
      JoinPiece(ps[1..], i - 1);
    }
  }

  /** `amino_acid_seq(5, {"A": 1})` is "AAAAA"; a length of 0 or -1 and
      frequencies summing to 0.5 raise ValueError. */
  lemma AminoAcidSeqExample()
    ensures AminoAcidSeqSpec(5, [("A", 1.0)], [0, 0, 0, 0, 0]) == Ok("AAAAA")
    ensures AminoAcidSeqSpec(0, [("A", 1.0)], []).Err?
    ensures AminoAcidSeqSpec(-1, [("A", 1.0)], []).Err?
    ensures AminoAcidSeqSpec(1, [("A", 0.5)], [0]) == Err(ValueError("probabilities do not sum to 1"))
  {
    var freqs := [("A", 1.0)];
    assert SumValues(freqs) == 1.0 by {
      assert Values(freqs) == [1.0];
    }
    assert SumValues([("A", 0.5)]) == 0.5 by {
      assert Values([("A", 0.5)]) == [0.5];
    }
    AminoAcidSeqFacts(5, freqs, [0, 0, 0, 0, 0]);
    var r := AminoAcidSeqSpec(5, freqs, [0, 0, 0, 0, 0]).value;
    assert forall i :: 0 <= i < 5 ==> [r[i]] == "A";
    assert r == "AAAAA";
    var bad := ResidueSteps([("A", 0.5)], [0]);
    assert bad == [Err(ValueError("probabilities do not sum to 1"))];
    assert bad[..0] == [];
  }

  // ---------------------------------------------------------------------
  // amino_acids_to_codons (seqgen.py:32-56)
  // ---------------------------------------------------------------------

  /** The pairs `(codon, codon_frequencies[codon])` for a residue's codons. */
  function Options(freqs: Dict<string, real>, codons: seq<string>): (o: Dict<string, real>)
    requires forall j :: 0 <= j < |codons| ==> codons[j] in Keys(freqs)
    ensures Keys(o) == codons
  {
    seq(|codons|, j requires 0 <= j < |codons| => (codons[j], Get(freqs, codons[j]).value))
  }

  predicate HasFrequencies(freqs: Dict<string, real>, codons: seq<string>) {
    forall j :: 0 <= j < |codons| ==> codons[j] in Keys(freqs)
  }

  /** The position of the first codon without a frequency: the key the
      list comprehension of seqgen.py:54 looks up and misses. */
  function FirstMissing(freqs: Dict<string, real>, codons: seq<string>): (j: nat)
    requires !HasFrequencies(freqs, codons)
    ensures j < |codons| && codons[j] !in Keys(freqs)
    ensures HasFrequencies(freqs, codons[..j])
  {
    if codons[0] !in Keys(freqs) then 0
    else
      var j := 1 + FirstMissing(freqs, codons[1..]);
      assert forall i :: 1 <= i < j ==> codons[..j][i] == codons[1..][..j - 1][i - 1];
      j
  }

  /** A position whose codon is the first one missing is `FirstMissing`. */
  lemma FirstMissingUnique(freqs: Dict<string, real>, codons: seq<string>, j: nat)
    requires j < |codons| && codons[j] !in Keys(freqs) && HasFrequencies(freqs, codons[..j])
    ensures FirstMissing(freqs, codons) == j
  {
  }

  /** A draw `choice` may return for this residue, whenever it gets that far. */
  predicate CodonDrawFits(inv: Dict<char, seq<string>>, freqs: Dict<string, real>, aa: char, draw: nat) {
    aa in Keys(inv) && HasFrequencies(freqs, Get(inv, aa).value) ==>
      ChoiceFits(Options(freqs, Get(inv, aa).value), draw)
  }

  /** One turn of the loop: the plain dictionary lookup raises KeyError for
      an unknown residue, the weight list raises KeyError for the first
      codon with no frequency, each carrying the missing key, and then
      `choice` draws. */
  function CodonStep(inv: Dict<char, seq<string>>, freqs: Dict<string, real>, aa: char, draw: nat): (r: Result<string>)
    requires CodonDrawFits(inv, freqs, aa, draw)
  {
    if aa !in Keys(inv) then Err(KeyError([aa]))
    else
      var codons := Get(inv, aa).value;
      if !HasFrequencies(freqs, codons) then Err(KeyError(codons[FirstMissing(freqs, codons)]))
      else Choice(Options(freqs, codons), draw)
  }

  predicate CodonDrawsFit(inv: Dict<char, seq<string>>, freqs: Dict<string, real>, aas: string, draws: seq<nat>) {
    |draws| == |aas| && forall i :: 0 <= i < |aas| ==> CodonDrawFits(inv, freqs, aas[i], draws[i])
  }

  function CodonSteps(inv: Dict<char, seq<string>>, freqs: Dict<string, real>, aas: string, draws: seq<nat>)
    : (steps: seq<Result<string>>)
    requires CodonDrawsFit(inv, freqs, aas, draws)
    ensures |steps| == |aas|
  {
    seq(|aas|, i requires 0 <= i < |aas| => CodonStep(inv, freqs, aas[i], draws[i]))
  }

  /** What `amino_acids_to_codons(amino_acids, codon_frequencies)` returns
      or raises for the genetic code `t`. */
  function AminoAcidsToCodonsSpec(t: Table, freqs: Dict<string, real>, aas: string, draws: seq<nat>): Result<string>
    requires CodonDrawsFit(Invert(t), freqs, aas, draws)
  {
    Concat(CodonSteps(Invert(t), freqs, aas, draws))
  }

  /** Builds the translation table, then draws a codon per residue. */
  method AminoAcidsToCodons(t: Table, freqs: Dict<string, real>, aas: string, draws: seq<nat>) returns (r: Result<string>)
    requires CodonDrawsFit(Invert(t), freqs, aas, draws)
    ensures r == AminoAcidsToCodonsSpec(t, freqs, aas, draws)
  {
    var table := InvertTable(t);
    ghost var steps := CodonSteps(table, freqs, aas, draws);
    var sequence := "";
    var i := 0;
    while i < |aas|
      invariant 0 <= i <= |aas|
      invariant Concat(steps[..i]) == Ok(sequence)
    {
      assert steps[..i + 1][..i] == steps[..i];
      var aa := aas[i];
      if aa !in Keys(table) {
        ConcatErrSticky(steps, i + 1);
        return Err(KeyError([aa]));
      }
      var codons := Get(table, aa).value;
      var j := 0;
      while j < |codons|
        invariant j <= |codons|
        invariant HasFrequencies(freqs, codons[..j])
      {
        if codons[j] !in Keys(freqs) {
          FirstMissingUnique(freqs, codons, j);
          ConcatErrSticky(steps, i + 1);
          return Err(KeyError(codons[j]));
        }
        j := j + 1;
      }
      assert codons[..j] == codons;
      var c := Choice(Options(freqs, codons), draws[i]);
      if c.Err? {
        ConcatErrSticky(steps, i + 1);
        return Err(c.failure);
      }
      sequence := sequence + c.value;
      i := i + 1;
    }
    assert steps[..i] == steps;
    return Ok(sequence);
  }

  /** A codon drawn for a residue encodes it, is a DNA triplet and has
      positive frequency. */
  lemma CodonStepFacts(t: Table, freqs: Dict<string, real>, aa: char, draw: nat)
    requires ValidTable(t) && CodonDrawFits(Invert(t), freqs, aa, draw)
    ensures var r := CodonStep(Invert(t), freqs, aa, draw);
      && (aa !in Values(t) ==> r == Err(KeyError([aa])))
      && (aa in Values(t) && r.Err? && r.failure.KeyError? ==>
            exists j :: 0 <= j < |CodonsOf(t, aa)| && r.failure.why == CodonsOf(t, aa)[j] && CodonsOf(t, aa)[j] !in Keys(freqs))
      && (r.Ok? ==> |r.value| == 3 && IsDna(r.value) && Get(t, r.value) == Some(aa)
                    && Get(freqs, r.value).Some? && Get(freqs, r.value).value > 0.0)
  {
    InvertFacts(t);
    var r := CodonStep(Invert(t), freqs, aa, draw);
    if r.Ok? {
      var c := r.value;
      var codons := Get(Invert(t), aa).value;
      assert codons == CodonsOf(t, aa);
      assert c == codons[draw];
      CodonsOfMember(t, aa, c);
      var m := IndexOf(Keys(t), c);
      assert t[m].0 == c;
    }
  }

  /** `amino_acids_to_codons` succeeds exactly when every residue's turn
      does; it then emits one codon per residue, three bases each, that
      translates back to the residues codon by codon. Otherwise it raises
      the exception of the first residue that fails: KeyError for an
      unknown residue or a codon without a frequency, ValueError for
      weights `choice` refuses. */
  lemma {:induction false} AminoAcidsToCodonsFacts(t: Table, freqs: Dict<string, real>, aas: string, draws: seq<nat>)
    requires ValidTable(t) && CodonDrawsFit(Invert(t), freqs, aas, draws)
    ensures AminoAcidsToCodonsSpec(t, freqs, aas, draws).Ok? ==>
              forall i :: 0 <= i < |aas| ==> CodonSteps(Invert(t), freqs, aas, draws)[i].Ok?
    ensures (forall i :: 0 <= i < |aas| ==> CodonSteps(Invert(t), freqs, aas, draws)[i].Ok?) ==>
              AminoAcidsToCodonsSpec(t, freqs, aas, draws).Ok?
    ensures var r := AminoAcidsToCodonsSpec(t, freqs, aas, draws);
      r.Err? ==> exists i :: 0 <= i < |aas| && CodonSteps(Invert(t), freqs, aas, draws)[i] == Err(r.failure)
                             && forall j :: 0 <= j < i ==> CodonSteps(Invert(t), freqs, aas, draws)[j].Ok?
    ensures var r := AminoAcidsToCodonsSpec(t, freqs, aas, draws);
      r.Err? ==> r.failure.KeyError? || r.failure.ValueError?
    ensures var r := AminoAcidsToCodonsSpec(t, freqs, aas, draws);
      r.Ok? ==> |r.value| == 3 * |aas| && IsDna(r.value)
                && forall i :: 0 <= i < |aas| ==> Translation(t, r.value)[i] == Some(aas[i])
  {
    var steps := CodonSteps(Invert(t), freqs, aas, draws);
    ConcatOk(steps);
    var r := Concat(steps);
    if r.Err? {
      var i := ConcatErr(steps);
    } else {
      var v := Pieces(steps);
      forall j | 0 <= j < |v| ensures |v[j]| == 3 && IsDna(v[j]) && Get(t, v[j]) == Some(aas[j]) {
        CodonStepFacts(t, freqs, aas[j], draws[j]);
      }
      FreqgenEngine.JoinedCodons(t, v, aas);
    }
  }

  /** An unknown residue raises KeyError as soon as it is reached. */
  lemma UnknownResidueRaises(t: Table, freqs: Dict<string, real>, aas: string, draws: seq<nat>, i: nat)
    requires ValidTable(t) && CodonDrawsFit(Invert(t), freqs, aas, draws)
    requires i < |aas| && aas[i] !in Values(t)
    requires forall j :: 0 <= j < i ==> CodonStep(Invert(t), freqs, aas[j], draws[j]).Ok?
    ensures AminoAcidsToCodonsSpec(t, freqs, aas, draws) == Err(KeyError([aas[i]]))
  {
    var steps := CodonSteps(Invert(t), freqs, aas, draws);
    CodonStepFacts(t, freqs, aas[i], draws[i]);
    assert steps[i] == Err(KeyError([aas[i]]));
    var pre, pre1 := steps[..i], steps[..i + 1];
    forall j | 0 <= j < |pre| ensures pre[j].Ok? {
      assert pre[j] == steps[j];
    }
    ConcatOk(pre);
    assert pre1[..|pre1| - 1] == pre && pre1[|pre1| - 1] == steps[i];
    assert Concat(pre1) == Err(KeyError([aas[i]]));
    ConcatErrSticky(steps, i + 1);
  }

  // ---------------------------------------------------------------------
  // gc_content (seqgen.py:58-73)
  // ---------------------------------------------------------------------

  /** The validation loop, then `(seq.count("G") + seq.count("C")) /
      len(seq)`: the same function as freqgen.py's `gc_content`. */
  method GcContent(s: string) returns (r: Result<real>)
    ensures r == LegacyFreqgen.GcContent(s)
  {
    var i := 0;
    while i < |s|
      invariant i <= |s|
      invariant IsDna(s[..i])
    {
      if !IsBase(s[i]) {
        return Err(ValueError("Invalid character in sequence."));
      }
      i := i + 1;
    }
    assert s[..i] == s;
    if |s| == 0 {
      return Err(ZeroDivisionError);
    }
    CountCharPair(s, 'G', 'C');
    return Ok((CountChar(s, 'G') + CountChar(s, 'C')) as real / |s| as real);
  }
}
