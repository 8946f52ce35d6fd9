/** DNA strings and the ways the repository cuts them into k-mers.

    Three cuttings appear throughout: overlapping windows `s[i:i+k]`,
    non-overlapping chunks `s[i*k:i*k+k]` that drop a short remainder (the
    JavaScript `kmers` loops), and Python's `[s[i:i+3] for i in
    range(0, len(s), 3)]`, which keeps a short last piece. `AllKmers(k)` is
    `product("ATGC", repeat=k)` joined into strings, in that order. */
module Dna {
  import opened Dicts

  predicate IsBase(c: char) {
    c == 'A' || c == 'T' || c == 'G' || c == 'C'
  }

  predicate IsDna(s: string) {
    forall i :: 0 <= i < |s| ==> IsBase(s[i])
  }

  function Min(a: int, b: int): int {
    if a <= b then a else b
  }

  function Pow4(k: nat): nat {
    if k == 0 then 1 else 4 * Pow4(k - 1)
  }

  /** Number of occurrences of `c` in `s` (`s.count(c)`). */
  function CountChar(s: string, c: char): nat {
    if s == [] then 0 else (if s[0] == c then 1 else 0) + CountChar(s[1..], c)
  }

  /** `str.upper()` on ASCII text: the letters `a` to `z` become `A` to
      `Z` and every other character is kept. Python's Unicode upper-casing
      of other characters (`ß` to `SS`, `é` to `É`) is not modelled. */
  function Upper(s: string): (r: string)
    ensures |r| == |s|
  {
    seq(|s|, i requires 0 <= i < |s| =>
      if 'a' <= s[i] <= 'z' then (s[i] as int - 32) as char else s[i])
  }

  /** Upper-casing leaves DNA alone. */
  lemma UpperDna(s: string)
    requires IsDna(s)
    ensures Upper(s) == s
  {
  }

  // ---------------------------------------------------------------------
  // Cuttings
  // ---------------------------------------------------------------------

  /** Overlapping windows of length `k`, one per start position. */
  function Windows(s: string, k: nat): (r: seq<string>)
    requires k <= |s| + 1
    ensures |r| == |s| - k + 1
    ensures forall i :: 0 <= i < |r| ==> r[i] == s[i..i + k]
  {
    seq(|s| - k + 1, i requires 0 <= i < |s| - k + 1 => s[i..i + k])
  }

  /** Start of the `i`-th chunk of length `k`. */
  function Start(i: nat, k: nat): nat {
    i * k
  }

  lemma ChunkBounds(k: nat, n: nat)
    requires k >= 1
    ensures forall i: nat :: i < n / k ==> Start(i, k) + k <= n
  {
    forall i: nat | i < n / k ensures Start(i, k) + k <= n {
      assert (i + 1) * k <= (n / k) * k;
      assert (n / k) * k <= n;
    }
  }

  /** Non-overlapping chunks of length `k`; a short remainder is dropped. */
  function Chunks(s: string, k: nat): (r: seq<string>)
    requires k >= 1
    ensures |r| == |s| / k
    ensures forall i :: 0 <= i < |r| ==> Start(i, k) + k <= |s| && r[i] == s[Start(i, k)..Start(i, k) + k]
  {
    ChunkBounds(k, |s|);
    seq(|s| / k, i requires 0 <= i < |s| / k => s[Start(i, k)..Start(i, k) + k])
  }

  /** `[s[i:i + 3] for i in range(0, len(s), 3)]`: the last piece is short
      when the length is not a multiple of three. */
  function Codons(s: string): (r: seq<string>)
    ensures |r| == (|s| + 2) / 3
    ensures forall i :: 0 <= i < |r| ==> r[i] == s[3 * i..Min(3 * i + 3, |s|)]
  {
    seq((|s| + 2) / 3, i requires 0 <= i < (|s| + 2) / 3 => s[3 * i..Min(3 * i + 3, |s|)])
  }

  /** `"".join(pieces)`. */
  function Join(pieces: seq<string>): (r: string)
    ensures |pieces| == 0 ==> r == ""
  {
    if pieces == [] then "" else pieces[0] + Join(pieces[1..])
  }

  // ---------------------------------------------------------------------
  // product("ATGC", repeat=k)
  // ---------------------------------------------------------------------

  function Prefixed(b: char, ws: seq<string>): (r: seq<string>)
    ensures |r| == |ws|
    ensures forall i :: 0 <= i < |ws| ==> r[i] == [b] + ws[i]
  {
    seq(|ws|, i requires 0 <= i < |ws| => [b] + ws[i])
  }

  /** Every length-`k` string over A, T, G, C, first position slowest. */
  function AllKmers(k: nat): seq<string> {
    if k == 0 then [""]
    else
      var p := AllKmers(k - 1);
      Prefixed('A', p) + Prefixed('T', p) + Prefixed('G', p) + Prefixed('C', p)
  }

  /** `{"".join(x): 0 for x in product("ATGC", repeat=k)}`. */
  function Defaults(k: nat): (d: Dict<string, real>)
    ensures Keys(d) == AllKmers(k)
    ensures forall i :: 0 <= i < |d| ==> d[i].1 == 0.0
  {
    var ks := AllKmers(k);
    seq(|ks|, i requires 0 <= i < |ks| => (ks[i], 0.0))
  }

  lemma PrefixedMember(b: char, ws: seq<string>, w: string)
    ensures w in Prefixed(b, ws) <==> |w| >= 1 && w[0] == b && w[1..] in ws
  {
    if |w| >= 1 && w[0] == b && w[1..] in ws {
      var i := IndexOf(ws, w[1..]);
      assert Prefixed(b, ws)[i] == w;
    }
  }

  lemma {:induction false} AllKmersLength(k: nat)
    ensures |AllKmers(k)| == Pow4(k)
  {
    if k > 0 {
      AllKmersLength(k - 1);
    }
  }

  lemma DnaCons(w: string)
    requires |w| >= 1
    ensures IsDna(w) <==> IsBase(w[0]) && IsDna(w[1..])
  {
    if IsBase(w[0]) && IsDna(w[1..]) {
      forall i | 0 <= i < |w| ensures IsBase(w[i]) {
        if i > 0 {
          assert w[i] == w[1..][i - 1];
        }
      }
    }
  }

  lemma {:induction false} InAllKmers(k: nat, w: string)
    ensures w in AllKmers(k) <==> |w| == k && IsDna(w)
  {
    if k == 0 {
      if |w| == 0 {
        assert w == "";
      }
    } else {
      var p := AllKmers(k - 1);
      var a, t, g, c := Prefixed('A', p), Prefixed('T', p), Prefixed('G', p), Prefixed('C', p);
      assert AllKmers(k) == a + t + g + c;
      assert w in AllKmers(k) <==> w in a || w in t || w in g || w in c;
      PrefixedMember('A', p, w);
      PrefixedMember('T', p, w);
      PrefixedMember('G', p, w);
      PrefixedMember('C', p, w);
      if |w| >= 1 {
        InAllKmers(k - 1, w[1..]);
        DnaCons(w);
        assert w in AllKmers(k) <==> IsBase(w[0]) && w[1..] in p;
      }
    }
  }

  /** The k-mers are exactly the DNA strings of length `k`. */
  lemma AllKmersMember(k: nat)
    ensures forall w :: w in AllKmers(k) <==> |w| == k && IsDna(w)
  {
    forall w ensures w in AllKmers(k) <==> |w| == k && IsDna(w) {
      InAllKmers(k, w);
    }
  }

  lemma DistinctConcat<T>(x: seq<T>, y: seq<T>)
    requires Distinct(x) && Distinct(y)
    requires forall e :: e in x ==> e !in y
    ensures Distinct(x + y)
  {
    var z := x + y;
    forall i, j | 0 <= i < j < |z| ensures z[i] != z[j] {
      if i < |x| && j >= |x| {
        assert z[i] in x && z[j] == y[j - |x|];
      } else if i >= |x| {
        assert z[i] == y[i - |x|] && z[j] == y[j - |x|];
      }
    }
  }

  lemma PrefixedDistinct(b: char, p: seq<string>)
    requires Distinct(p)
    ensures Distinct(Prefixed(b, p))
  {
    var r := Prefixed(b, p);
    forall i, j | 0 <= i < j < |r| ensures r[i] != r[j] {
      assert r[i][1..] == p[i] && r[j][1..] == p[j];
    }
  }

  /** No k-mer is listed twice. */
  lemma {:induction false} AllKmersDistinct(k: nat)
    ensures Distinct(AllKmers(k))
  {
    if k > 0 {
      AllKmersDistinct(k - 1);
      var p := AllKmers(k - 1);
      var a, t, g, c := Prefixed('A', p), Prefixed('T', p), Prefixed('G', p), Prefixed('C', p);
      PrefixedDistinct('A', p);
      PrefixedDistinct('T', p);
      PrefixedDistinct('G', p);
      PrefixedDistinct('C', p);
      forall e ensures e in a ==> e[0] == 'A' {
        PrefixedMember('A', p, e);
      }
      forall e ensures e in t ==> e[0] == 'T' {
        PrefixedMember('T', p, e);
      }
      forall e ensures e in g ==> e[0] == 'G' {
        PrefixedMember('G', p, e);
      }
      forall e ensures e in c ==> e[0] == 'C' {
        PrefixedMember('C', p, e);
      }
      DistinctConcat(a, t);
      DistinctConcat(a + t, g);
      DistinctConcat(a + t + g, c);
    }
  }

  lemma DefaultsFacts(k: nat)
    ensures DistinctKeys(Defaults(k))
    ensures forall w :: w in Keys(Defaults(k)) <==> |w| == k && IsDna(w)
    ensures SumValues(Defaults(k)) == 0.0
  {
    AllKmersDistinct(k);
    AllKmersMember(k);
    SumRealsZero(Values(Defaults(k)));
  }

  // ---------------------------------------------------------------------
  // Properties of the cuttings
  // ---------------------------------------------------------------------

  /** When the length is a multiple of three Python's codon split and the
      chunking agree, and no piece is short. */
  lemma CodonsAreChunks(s: string)
    requires |s| % 3 == 0
    ensures Codons(s) == Chunks(s, 3)
    ensures forall i :: 0 <= i < |Codons(s)| ==> |Codons(s)[i]| == 3
  {
  }

  /** `Join` is the inverse of the codon split. */
  lemma {:induction false} JoinCodons(s: string)
    ensures Join(Codons(s)) == s
    decreases |s|
  {
    if s != [] {
      var c := Codons(s);
      var rest := s[Min(3, |s|)..];
      JoinCodons(rest);
      if |s| <= 3 {
        assert |c| == 1 && c[0] == s[0..|s|];
        assert s[0..|s|] == s && rest == [];
        assert c[1..] == [] == Codons(rest);
      } else {
        assert |c[1..]| == |Codons(rest)|;
        forall i | 0 <= i < |c| - 1 ensures c[1..][i] == Codons(rest)[i] {
          assert c[i + 1] == s[3 * i + 3..Min(3 * i + 6, |s|)];
        }
        assert c[1..] == Codons(rest);
      }
      assert c[0] + rest == s;
    }
  }

  lemma {:induction false} JoinConcat(a: seq<string>, b: seq<string>)
    ensures Join(a + b) == Join(a) + Join(b)
  {
    if a != [] {
      JoinConcat(a[1..], b);
      assert (a + b)[1..] == a[1..] + b;
    } else {
      assert a + b == b;
    }
  }

  /** A string whose triplets are DNA is DNA. */
  lemma DnaFromTriplets(s: string)
    requires |s| % 3 == 0
    requires forall i :: 0 <= i < |s| / 3 ==> IsDna(s[3 * i..3 * i + 3])
    ensures IsDna(s)
  {
    forall m | 0 <= m < |s| ensures IsBase(s[m]) {
      var i := m / 3;
      assert s[m] == s[3 * i..3 * i + 3][m - 3 * i];
    }
  }
  /** Joined triplets: the i-th triplet of the join is the i-th piece. */
  lemma {:induction false} JoinTriplets(pieces: seq<string>, i: nat)
    requires forall j :: 0 <= j < |pieces| ==> |pieces[j]| == 3
    requires i < |pieces|
    ensures |Join(pieces)| == 3 * |pieces|
    ensures Join(pieces)[3 * i..3 * i + 3] == pieces[i]
    decreases |pieces|
  {
    JoinLength(pieces, 3);
    var rest := pieces[1..];
    assert Join(pieces) == pieces[0] + Join(rest);
    if i == 0 {
      assert (pieces[0] + Join(rest))[0..3] == pieces[0];
    } else {
      JoinTriplets(rest, i - 1);
      assert (pieces[0] + Join(rest))[3 * i..3 * i + 3] == Join(rest)[3 * (i - 1)..3 * (i - 1) + 3];
    }
  }

  lemma {:induction false} JoinLength(pieces: seq<string>, n: nat)
    requires forall i :: 0 <= i < |pieces| ==> |pieces[i]| == n
    ensures |Join(pieces)| == n * |pieces|
  {
    if pieces != [] {
      JoinLength(pieces[1..], n);
    }
  }

  /** Windows of a DNA string are DNA k-mers. */
  lemma WindowsAreKmers(s: string, k: nat)
    requires IsDna(s) && k <= |s| + 1
    ensures forall w :: w in Windows(s, k) ==> w in AllKmers(k)
  {
    AllKmersMember(k);
    var ws := Windows(s, k);
    forall i | 0 <= i < |ws| ensures IsDna(ws[i]) {
      forall j | 0 <= j < k ensures IsBase(ws[i][j]) {
        assert ws[i][j] == s[i + j];
      }
    }
  }

  lemma {:induction false} CountCharConcat(a: string, b: string, c: char)
    ensures CountChar(a + b, c) == CountChar(a, c) + CountChar(b, c)
  {
    if a == [] {
      assert a + b == b;
    } else {
      assert (a + b)[1..] == a[1..] + b;
      CountCharConcat(a[1..], b, c);
    }
  }

  lemma {:induction false} CountCharBound(s: string, c: char)
    ensures CountChar(s, c) <= |s|
  {
    if s != [] {
      CountCharBound(s[1..], c);
    }
  }

  /** Letters of different kinds are counted separately. */
  lemma {:induction false} CountCharPair(s: string, c: char, d: char)
    requires c != d
    ensures CountChar(s, c) + CountChar(s, d) <= |s|
  {
    if s != [] {
      CountCharPair(s[1..], c, d);
    }
  }
}
