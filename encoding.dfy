/** The optimiser's bit-vector encoding of DNA (freqgen/generate.py).

    Each base becomes two bits: T = 00, C = 01, A = 10, G = 11. Decoding
    reads the vector two bits at a time; an odd trailing bit is left in the
    output as the digit '0' or '1'. The encoder works through numpy string
    arrays, so the digits '0' to '3' are also accepted and encode as
    themselves. A character that is neither one of the four bases nor a
    digit makes `astype(int)` raise ValueError. The digits '4' to '9' pass
    that step, and `np.binary_repr(x, width=2)` then rejects their value
    with ValueError, as numpy 2 does. An empty vector cannot be decoded:
    numpy builds a float array for it, into which the letter "T" cannot be
    written. */
module Encoding {
  import opened Wrappers
  import opened Dna

  type Bit = b: int | 0 <= b <= 1

  /** The integer numpy holds for a character after the four replacements. */
  function Value(c: char): Option<nat> {
    match c
    case 'T' => Some(0)
    case 'C' => Some(1)
    case 'A' => Some(2)
    case 'G' => Some(3)
    case '0' => Some(0)
    case '1' => Some(1)
    case '2' => Some(2)
    case '3' => Some(3)
    case _ => None
  }

  predicate Encodable(s: string) {
    forall i :: 0 <= i < |s| ==> Value(s[i]).Some?
  }

  /** Bit `j` (0 = high, 1 = low) of the two-bit code of `c`. */
  function BitOf(c: char, j: nat): Bit
    requires Value(c).Some? && j < 2
  {
    var v := Value(c).value;
    assert v < 4;
    if j == 0 then v / 2 else v % 2
  }

  /** `dna_to_vector` on an encodable string. */
  function Encode(s: string): (v: seq<Bit>)
    requires Encodable(s)
    ensures |v| == 2 * |s|
  {
    seq(2 * |s|, j requires 0 <= j < 2 * |s| => BitOf(s[j / 2], j % 2))
  }

  /** A character `astype(int)` can convert: a base after the four
      replacements, or a decimal digit. */
  predicate IntLike(c: char) {
    Value(c).Some? || '0' <= c <= '9'
  }

  /** `dna_to_vector(seq)`: `astype(int)` fails first, on any character it
      cannot convert; otherwise `binary_repr` fails on the first value that
      needs more than two bits. */
  function DnaToVector(s: string): (r: Result<seq<Bit>>)
    ensures r.Ok? <==> Encodable(s)
    ensures r.Ok? ==> |r.value| == 2 * |s|
    ensures (exists i :: 0 <= i < |s| && !IntLike(s[i])) ==>
              r == Err(ValueError("invalid literal for int() with base 10"))
    ensures (forall i :: 0 <= i < |s| ==> IntLike(s[i])) && !Encodable(s) ==>
              r == Err(ValueError("Insufficient bit width provided."))
  {
    if exists i :: 0 <= i < |s| && !IntLike(s[i]) then Err(ValueError("invalid literal for int() with base 10"))
    else if !Encodable(s) then Err(ValueError("Insufficient bit width provided."))
    else Ok(Encode(s))
  }

  function Letter(hi: Bit, lo: Bit): char {
    "TCAG"[2 * hi + lo]
  }

  /** The `i`-th two-bit piece, decoded; a lone trailing bit stays a digit. */
  function DecodeAt(v: seq<Bit>, i: nat): char
    requires 2 * i < |v|
  {
    if 2 * i + 1 < |v| then Letter(v[2 * i], v[2 * i + 1])
    else if v[2 * i] == 0 then '0' else '1'
  }

  /** The string `vector_to_dna` builds, read two bits at a time. */
  function Decode(v: seq<Bit>): (s: string)
    ensures |s| == (|v| + 1) / 2
    ensures forall i :: 0 <= i < |s| ==> s[i] == DecodeAt(v, i)
  {
    seq((|v| + 1) / 2, i requires 0 <= i < (|v| + 1) / 2 => DecodeAt(v, i))
  }

  /** `vector_to_dna(vector)`: the empty vector raises ValueError; any
      other vector decodes, one character per two bits. */
  function VectorToDna(v: seq<Bit>): (r: Result<string>)
    ensures r.Err? <==> v == []
    ensures r.Err? ==> r.failure.ValueError?
    ensures r.Ok? ==> |r.value| == (|v| + 1) / 2 && forall i :: 0 <= i < |r.value| ==> r.value[i] == DecodeAt(v, i)
  {
    if v == [] then Err(ValueError("could not convert string to float: 'T'")) else Ok(Decode(v))
  }

  lemma LetterBits(hi: Bit, lo: Bit)
    ensures IsBase(Letter(hi, lo))
    ensures Value(Letter(hi, lo)).Some?
    ensures BitOf(Letter(hi, lo), 0) == hi && BitOf(Letter(hi, lo), 1) == lo
  {
    if hi == 0 && lo == 0 {
      assert Letter(hi, lo) == 'T';
    } else if hi == 0 {
      assert Letter(hi, lo) == 'C';
    } else if lo == 0 {
      assert Letter(hi, lo) == 'A';
    } else {
      assert Letter(hi, lo) == 'G';
    }
  }

  lemma DnaEncodable(s: string)
    requires IsDna(s)
    ensures Encodable(s)
  {
  }

  /** Decoding undoes encoding on every DNA string. `vector_to_dna` gives
      the string back from `dna_to_vector` on every non-empty one, and
      raises on the empty one. */
  lemma DecodeEncode(s: string)
    requires IsDna(s)
    ensures Decode(Encode(s)) == s
    ensures DnaToVector(s) == Ok(Encode(s))
    ensures s != [] ==> VectorToDna(DnaToVector(s).value) == Ok(s)
    ensures s == [] ==> VectorToDna(DnaToVector(s).value).Err?
  {
    DnaEncodable(s);
    assert forall i :: 0 <= i < |s| ==> IntLike(s[i]);
    var v := Encode(s);
    var d := Decode(v);
    forall i | 0 <= i < |s| ensures d[i] == s[i] {
      assert v[2 * i] == BitOf(s[i], 0) && v[2 * i + 1] == BitOf(s[i], 1);
    }
  }

  /** Encoding undoes decoding on every vector of even length, and the
      decoded string is DNA. */
  lemma EncodeDecode(v: seq<Bit>)
    requires |v| % 2 == 0
    ensures IsDna(Decode(v))
    ensures Encode(Decode(v)) == v
    ensures v != [] ==> VectorToDna(v).Ok? && DnaToVector(VectorToDna(v).value) == Ok(v)
  {
    var d := Decode(v);
    forall i | 0 <= i < |d| ensures IsBase(d[i]) && BitOf(d[i], 0) == v[2 * i] && BitOf(d[i], 1) == v[2 * i + 1] {
      LetterBits(v[2 * i], v[2 * i + 1]);
    }
    var e := Encode(d);
    forall j | 0 <= j < |v| ensures e[j] == v[j] {
      var i := j / 2;
      if j % 2 == 0 {
        assert j == 2 * i;
      } else {
        assert j == 2 * i + 1;
      }
    }
  }

  /** The digit quirk: "0" encodes like "T", so the round trip does not
      hold outside DNA. */
  lemma DigitsEncode()
    ensures DnaToVector("0") == Ok([0, 0])
    ensures VectorToDna([0, 0]) == Ok("T")
    ensures DnaToVector("N") == Err(ValueError("invalid literal for int() with base 10"))
    ensures DnaToVector("4") == Err(ValueError("Insufficient bit width provided."))
  {
    assert Encode("0") == [0, 0];
    assert Letter(0, 0) == 'T' && Decode([0, 0])[0] == 'T';
    assert Decode([0, 0]) == "T";
    assert !IntLike("N"[0]);
    assert IntLike("4"[0]) && !Encodable("4");
  }

  lemma EncodeConcat(a: string, b: string)
    requires Encodable(a) && Encodable(b)
    ensures Encodable(a + b)
    ensures Encode(a + b) == Encode(a) + Encode(b)
  {
    var ab := a + b;
    assert Encodable(ab) by {
      forall i | 0 <= i < |ab| ensures Value(ab[i]).Some? {
        if i >= |a| {
          assert ab[i] == b[i - |a|];
        }
      }
    }
    var l, r := Encode(ab), Encode(a) + Encode(b);
    forall j | 0 <= j < |l| ensures l[j] == r[j] {
      if j >= 2 * |a| {
        assert ab[j / 2] == b[(j - 2 * |a|) / 2];
      }
    }
  }

  /** Slicing a vector at even positions slices the decoded string. */
  lemma DecodeSlice(v: seq<Bit>, i: nat, j: nat)
    requires i <= j && 2 * j <= |v|
    ensures Decode(v)[i..j] == Decode(v[2 * i..2 * j])
  {
    var l, r := Decode(v)[i..j], Decode(v[2 * i..2 * j]);
    forall m | 0 <= m < j - i ensures l[m] == r[m] {
      assert v[2 * i..2 * j][2 * m] == v[2 * (i + m)];
      assert v[2 * i..2 * j][2 * m + 1] == v[2 * (i + m) + 1];
    }
  }

  lemma DecodeConcat(a: seq<Bit>, b: seq<Bit>)
    requires |a| % 2 == 0
    ensures Decode(a + b) == Decode(a) + Decode(b)
  {
    var h := |a| / 2;
    var l, r := Decode(a + b), Decode(a) + Decode(b);
    assert |l| == |r|;
    forall m | 0 <= m < |l| ensures l[m] == r[m] {
      if m < h {
        assert (a + b)[2 * m] == a[2 * m] && (a + b)[2 * m + 1] == a[2 * m + 1];
        assert l[m] == DecodeAt(a, m);
      } else {
        var m' := m - h;
        assert (a + b)[2 * m] == b[2 * m'];
        assert 2 * m + 1 < |a + b| ==> (a + b)[2 * m + 1] == b[2 * m' + 1];
        assert l[m] == DecodeAt(b, m');
      }
    }
  }
}
