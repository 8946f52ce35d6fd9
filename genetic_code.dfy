/** Genetic codes and the tables derived from them.

    A genetic code is an insertion-ordered dictionary from codon to
    amino-acid letter. The repository builds three things from it:
    the table with stop codons mapped to '*' (freqgen/freqgen.py:17-20),
    the inverse amino acid -> codons, filled by appending each codon to its
    amino acid's list in table order (freqgen/freqgen.py:24-26,
    freqgen.py:125-128, seqgen.py:45-48, freqgen/generate.py:32-35), and the
    synonym lists codon -> all codons of the same amino acid
    (freqgen/freqgen.py:31, freqgen/generate.py:39). The tables themselves
    come from Biopython and CAI and are parameters here. */
module GeneticCode {
  import opened Wrappers
  import opened Dicts
  import opened Dna

  type Table = Dict<string, char>

  /** A table as the data sources provide it: a dictionary (distinct keys)
      of DNA triplets. */
  ghost predicate ValidTable(t: Table) {
    DistinctKeys(t) && forall i :: 0 <= i < |t| ==> |t[i].0| == 3 && IsDna(t[i].0)
  }

  // ---------------------------------------------------------------------
  // Stop codons
  // ---------------------------------------------------------------------

  /** `for codon in stop_codons: table[codon] = "*"`. */
  function WithStops(forward: Table, stops: seq<string>): Table
    decreases |stops|
  {
    if stops == [] then forward else WithStops(Put(forward, stops[0], '*'), stops[1..])
  }

  /** The loop of freqgen/freqgen.py:17-20, on a fresh table rather than on
      Biopython's own `forward_table`. */
  method BuildTable(forward: Table, stops: seq<string>) returns (t: Table)
    ensures t == WithStops(forward, stops)
  {
    t := forward;
    var i := 0;
    while i < |stops|
      invariant i <= |stops|
      invariant WithStops(t, stops[i..]) == WithStops(forward, stops)
    {
      assert stops[i..][1..] == stops[i + 1..];
      t := Put(t, stops[i], '*');
      i := i + 1;
    }
  }

  /** Every stop codon maps to '*', every other codon keeps its amino acid,
      and the result is still a dictionary. */
  lemma {:induction false} WithStopsFacts(forward: Table, stops: seq<string>)
    ensures forall c :: Get(WithStops(forward, stops), c) == (if c in stops then Some('*') else Get(forward, c))
    ensures DistinctKeys(forward) ==> DistinctKeys(WithStops(forward, stops))
    ensures forall c :: c in Keys(WithStops(forward, stops)) <==> c in Keys(forward) || c in stops
    decreases |stops|
  {
    if stops != [] {
      var f := Put(forward, stops[0], '*');
      PutFacts(forward, stops[0], '*');
      WithStopsFacts(f, stops[1..]);
      assert forall c :: c in stops <==> c == stops[0] || c in stops[1..];
      forall c ensures c in Keys(f) <==> c in Keys(forward) || c == stops[0] {
        assert Get(f, c).Some? <==> c in Keys(f);
      }
    }
  }

  // ---------------------------------------------------------------------
  // Amino acid -> codons
  // ---------------------------------------------------------------------

  /** The codons of `t` that encode `aa`, in table order. */
  function CodonsOf(t: Table, aa: char): seq<string> {
    if t == [] then []
    else CodonsOf(t[..|t| - 1], aa) + (if t[|t| - 1].1 == aa then [t[|t| - 1].0] else [])
  }

  /** `d[value].append(key)` for every entry of `t`, in order: amino acids
      appear in order of first use. */
  function Invert(t: Table): Dict<char, seq<string>> {
    if t == [] then []
    else
      var r := Invert(t[..|t| - 1]);
      var (c, aa) := t[|t| - 1];
      Put(r, aa, GetOr(r, aa, []) + [c])
  }

  /** The inversion loop itself. */
  method InvertTable(t: Table) returns (r: Dict<char, seq<string>>)
    ensures r == Invert(t)
  {
    r := [];
    var i := 0;
    while i < |t|
      invariant i <= |t|
      invariant r == Invert(t[..i])
    {
      var (c, aa) := t[i];
      assert t[..i + 1][..i] == t[..i];
      r := Put(r, aa, GetOr(r, aa, []) + [c]);
      i := i + 1;
    }
    assert t[..|t|] == t;
  }

  /** The inverse is a dictionary. */
  lemma {:induction false} InvertDistinct(t: Table)
    ensures DistinctKeys(Invert(t))
  {
    if t != [] {
      var init := t[..|t| - 1];
      var (c, a) := t[|t| - 1];
      InvertDistinct(init);
      var r := Invert(init);
      PutFacts(r, a, GetOr(r, a, []) + [c]);
    }
  }

  /** Each amino acid's list is exactly its codons in table order. */
  lemma {:induction false} InvertGet(t: Table, aa: char)
    ensures GetOr(Invert(t), aa, []) == CodonsOf(t, aa)
  {
    if t != [] {
      var init := t[..|t| - 1];
      var (c, a) := t[|t| - 1];
      InvertGet(init, aa);
      InvertGet(init, a);
      var r := Invert(init);
      PutGetOr(r, a, GetOr(r, a, []) + [c], aa, []);
    }
  }

  /** An amino acid is a key exactly when some codon encodes it. */
  lemma {:induction false} InvertKeys(t: Table)
    ensures forall aa :: aa in Keys(Invert(t)) <==> aa in Values(t)
  {
    if t != [] {
      var init := t[..|t| - 1];
      var (c, a) := t[|t| - 1];
      InvertKeys(init);
      var r := Invert(init);
      PutFacts(r, a, GetOr(r, a, []) + [c]);
      assert Values(t) == Values(init) + [a];
    }
  }

  lemma InvertFacts(t: Table)
    ensures DistinctKeys(Invert(t))
    ensures forall aa :: GetOr(Invert(t), aa, []) == CodonsOf(t, aa)
    ensures forall aa :: aa in Keys(Invert(t)) <==> aa in Values(t)
  {
    InvertDistinct(t);
    InvertKeys(t);
    forall aa ensures GetOr(Invert(t), aa, []) == CodonsOf(t, aa) {
      InvertGet(t, aa);
    }
  }

  /** A codon is listed under `aa` exactly when the table maps it to `aa`. */
  lemma {:induction false} CodonsOfMember(t: Table, aa: char, c: string)
    requires DistinctKeys(t)
    ensures c in CodonsOf(t, aa) <==> Get(t, c) == Some(aa)
  {
    if t != [] {
      var init := t[..|t| - 1];
      DistinctKeysInit(t);
      CodonsOfMember(init, aa, c);
      var last := t[|t| - 1];
      if last.0 == c {
        GetIndex(t, |t| - 1);
        CodonsOfNotKey(init, aa, c);
      } else if c in Keys(init) {
        var j := IndexOf(Keys(init), c);
        assert IndexOf(Keys(t), c) == j;
      } else {
        CodonsOfNotKey(init, aa, c);
      }
    }
  }

  lemma {:induction false} CodonsOfNotKey(t: Table, aa: char, c: string)
    requires c !in Keys(t)
    ensures c !in CodonsOf(t, aa)
  {
    if t != [] {
      var init := t[..|t| - 1];
      assert Keys(t) == Keys(init) + [t[|t| - 1].0];
      CodonsOfNotKey(init, aa, c);
    }
  }

  /** No codon is listed twice under one amino acid. */
  lemma {:induction false} CodonsOfDistinct(t: Table, aa: char)
    requires DistinctKeys(t)
    ensures Distinct(CodonsOf(t, aa))
  {
    if t != [] {
      var init := t[..|t| - 1];
      DistinctKeysInit(t);
      CodonsOfDistinct(init, aa);
      var last := t[|t| - 1];
      if last.1 == aa {
        CodonsOfNotKey(init, aa, last.0);
        var l := CodonsOf(init, aa);
        assert CodonsOf(t, aa) == l + [last.0];
        forall i, j | 0 <= i < j < |l| + 1 ensures (l + [last.0])[i] != (l + [last.0])[j] {
          if j == |l| {
            assert (l + [last.0])[i] in l;
          }
        }
      }
    }
  }

  /** The inverse of a dictionary lists every codon under exactly one amino
      acid, namely its own, and under it exactly once. */
  lemma InvertExactlyOnce(t: Table, c: string)
    requires DistinctKeys(t) && c in Keys(t)
    ensures forall aa :: c in GetOr(Invert(t), aa, []) <==> aa == Get(t, c).value
    ensures Distinct(GetOr(Invert(t), Get(t, c).value, []))
  {
    InvertFacts(t);
    forall aa ensures c in GetOr(Invert(t), aa, []) <==> aa == Get(t, c).value {
      CodonsOfMember(t, aa, c);
    }
    CodonsOfDistinct(t, Get(t, c).value);
  }

  // ---------------------------------------------------------------------
  // Synonymous codons
  // ---------------------------------------------------------------------

  /** `{codon: codons_for_aa[table[codon]] for codon in table.keys()}`. */
  function Synonyms(t: Table): (syn: Dict<string, seq<string>>)
    ensures Keys(syn) == Keys(t)
  {
    var inv := Invert(t);
    seq(|t|, i requires 0 <= i < |t| => (t[i].0, GetOr(inv, t[i].1, [])))
  }

  /** The synonyms of a codon are exactly the codons of its amino acid,
      without repetition, and include the codon itself. */
  lemma SynonymsFacts(t: Table, c: string)
    requires DistinctKeys(t) && c in Keys(t)
    ensures Get(Synonyms(t), c) == Some(CodonsOf(t, Get(t, c).value))
    ensures forall d :: d in Get(Synonyms(t), c).value <==> d in Keys(t) && Get(t, d) == Get(t, c)
    ensures c in Get(Synonyms(t), c).value
    ensures Distinct(Get(Synonyms(t), c).value)
  {
    var i := IndexOf(Keys(t), c);
    GetIndex(t, i);
    assert Keys(Synonyms(t)) == Keys(t);
    assert IndexOf(Keys(Synonyms(t)), c) == i;
    InvertFacts(t);
    var aa := Get(t, c).value;
    forall d ensures d in CodonsOf(t, aa) <==> d in Keys(t) && Get(t, d) == Get(t, c) {
      CodonsOfMember(t, aa, d);
    }
    CodonsOfMember(t, aa, c);
    CodonsOfDistinct(t, aa);
  }

  /** The synonym lists of two codons of one amino acid are the same list. */
  lemma SynonymsShared(t: Table, c: string, d: string)
    requires DistinctKeys(t) && c in Keys(t) && d in Keys(t) && Get(t, c) == Get(t, d)
    ensures Get(Synonyms(t), c) == Get(Synonyms(t), d)
  {
    SynonymsFacts(t, c);
    SynonymsFacts(t, d);
  }

  // ---------------------------------------------------------------------
  // Translation codon by codon
  // ---------------------------------------------------------------------

  /** The amino acid of every complete codon, `None` where the table has
      no entry: what `Seq(s).translate(table)` compares codon by codon. */
  function Translation(t: Table, s: string): (r: seq<Option<char>>)
    ensures |r| == |s| / 3
  {
    seq(|s| / 3, i requires 0 <= i < |s| / 3 => Get(t, s[3 * i..3 * i + 3]))
  }

  lemma TranslationConcat(t: Table, a: string, b: string)
    requires |a| % 3 == 0
    ensures Translation(t, a + b) == Translation(t, a) + Translation(t, b)
  {
    var n, m := |a| / 3, |b| / 3;
    assert 3 * n == |a| && |a + b| / 3 == n + m;
    var l, r := Translation(t, a + b), Translation(t, a) + Translation(t, b);
    forall i | 0 <= i < |l| ensures l[i] == r[i] {
      if i < n {
        SliceOfConcatLeft(a, b, 3 * i, 3 * i + 3);
      } else {
        var j := i - n;
        assert 3 * j + 3 <= |b|;
        SliceOfConcatRight(a, b, 3 * i, 3 * i + 3);
      }
    }
  }

  lemma SliceOfConcatLeft(a: string, b: string, x: nat, y: nat)
    requires x <= y <= |a|
    ensures (a + b)[x..y] == a[x..y]
  {
  }

  lemma SliceOfConcatRight(a: string, b: string, x: nat, y: nat)
    requires |a| <= x <= y <= |a| + |b|
    ensures (a + b)[x..y] == b[x - |a|..y - |a|]
  {
  }

  /** Strings of equal length whose codons agree in amino acid, one by one,
      translate alike. */
  lemma TranslationByCodon(t: Table, a: string, b: string)
    requires |a| == |b|
    requires forall i :: 0 <= i < |a| / 3 ==> Get(t, a[3 * i..3 * i + 3]) == Get(t, b[3 * i..3 * i + 3])
    ensures Translation(t, a) == Translation(t, b)
  {
  }
}
