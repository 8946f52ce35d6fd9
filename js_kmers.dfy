/** The k-mer loop shared by the three JavaScript `kmers` functions
    (packages/freqgen-core/kmers.js:13-19, packages/freqgen-core/index.js:16-22,
    index.js:10-16), which differ only in the checks made before it.

    `new Array(numKmers)` raises RangeError for a negative, infinite or NaN
    length; the loop then writes `seq.substring(i, i + k)` at index
    `Math.floor(i / spacing)` for `i = 0, spacing, 2 * spacing, ...` while
    `i < seq.length - k + 1`. `substring` clamps both ends to the string and
    swaps them when the start is the larger. */
module JsKmers {
  import opened Wrappers
  import opened Dna

  /** `x` clamped to `0..n`. */
  function Clamp(x: int, n: nat): (c: nat)
    ensures c <= n
    ensures 0 <= x <= n ==> c == x
  {
    if x < 0 then 0 else if x > n then n else x
  }

  /** `s.substring(a, b)`. */
  function Substring(s: string, a: int, b: int): (r: string)
    ensures 0 <= a <= b <= |s| ==> r == s[a..b]
    ensures 0 <= b <= a <= |s| ==> r == s[b..a]
    ensures |r| <= |s|
  {
    var x, y := Clamp(a, |s|), Clamp(b, |s|);
    if x <= y then s[x..y] else s[y..x]
  }

  /** The value of the `options` argument of the two packaged `kmers`
      functions, `{ overlap = true } = {}`: omitted, an object whose
      `overlap` property may be missing, `null`, or another primitive such
      as a positional `false`, which JavaScript boxes before reading
      `overlap` from it. */
  datatype OptionsArg = Omitted | Options(overlap: Option<bool>) | Null | Primitive

  /** The `overlap` flag the destructuring produces. */
  function OverlapOf(o: OptionsArg): (r: Result<bool>)
    ensures r.Err? <==> o.Null?
    ensures o.Primitive? || o.Omitted? ==> r == Ok(true)
  {
    match o
    case Omitted => Ok(true)
    case Options(v) => if v.Some? then Ok(v.value) else Ok(true)
    case Null => Err(TypeError("Cannot destructure 'null' as it is null."))
    case Primitive => Ok(true)
  }

  /** The loop never ends for non-overlapping cuts with a negative `k` of
      the empty string: `i` only decreases and stays below
      `0 - k + 1`. */
  predicate Terminates(s: string, k: int, overlap: bool) {
    overlap || k >= 0 || |s| > 0
  }

  /** `overlap ? seq.length - k + 1 : Math.floor(seq.length / k)`. */
  function NumKmers(s: string, k: int, overlap: bool): int
    requires overlap || k >= 1
  {
    if overlap then |s| - k + 1 else |s| / k
  }

  function Spacing(k: int, overlap: bool): int {
    if overlap then 1 else k
  }

  /** The array the allocation and the loop produce. */
  function Produced(s: string, k: int, overlap: bool): Result<seq<string>>
    requires Terminates(s, k, overlap)
  {
    if !overlap && k <= 0 then Err(RangeError("Invalid array length"))
    else
      var n := NumKmers(s, k, overlap);
      var sp := Spacing(k, overlap);
      if n < 0 then Err(RangeError("Invalid array length"))
      else Ok(seq(n, j requires 0 <= j < n => Substring(s, Start(j, sp), Start(j, sp) + k)))
  }

  lemma StartNext(m: nat, k: nat)
    ensures Start(m + 1, k) == Start(m, k) + k
  {
  }

  /** `Start(a, k) <= n` bounds `a` by `n / k`. */
  lemma FloorBelow(a: nat, k: nat, n: nat)
    requires k >= 1 && Start(a, k) <= n
    ensures a <= n / k
  {
    var q := n / k;
    assert n == q * k + n % k && n % k < k;
    MulMonotone(q + 1, a, k);
    assert (q + 1) * k == q * k + k;
  }

  lemma FloorAbove(a: nat, k: nat, n: nat)
    requires k >= 1 && n < Start(a, k)
    ensures n / k < a
  {
    var q := n / k;
    assert n == q * k + n % k && n % k >= 0;
    MulMonotone(a, q, k);
  }

  lemma MulDiv(m: nat, k: nat)
    requires k >= 1
    ensures Start(m, k) / k == m
  {
    var q, r := (m * k) / k, (m * k) % k;
    assert m * k == q * k + r && 0 <= r < k;
    assert (m - q) * k == r by {
      assert (m - q) * k == m * k - q * k;
    }
    MulMonotone(1, m - q, k);
    MulMonotone(m - q, -1, k);
  }

  /** Multiplying by a natural number keeps the order. */
  lemma MulMonotone(x: int, y: int, k: nat)
    ensures x <= y ==> x * k <= y * k
  {
    if x <= y {
      assert y * k == x * k + (y - x) * k;
      assert (y - x) * k >= 0;
    }
  }

  /** A start the loop condition admits is that of an array slot: below
      the length, and found again by `Math.floor(i / spacing)`. */
  lemma SlotFits(s: string, k: int, overlap: bool, m: nat)
    requires overlap || k >= 1
    requires Start(m, Spacing(k, overlap)) < |s| - k + 1
    ensures m < NumKmers(s, k, overlap)
    ensures Start(m, Spacing(k, overlap)) / Spacing(k, overlap) == m
    ensures Start(m + 1, Spacing(k, overlap)) == Start(m, Spacing(k, overlap)) + Spacing(k, overlap)
  {
    var sp := Spacing(k, overlap);
    StartNext(m, sp);
    if !overlap {
      FloorBelow(m + 1, k, |s|);
    }
    MulDiv(m, sp);
  }

  /** Once the loop condition fails, every slot has been written. */
  lemma LoopEnd(s: string, k: int, overlap: bool, m: nat)
    requires overlap || k >= 1
    requires m <= NumKmers(s, k, overlap) && Start(m, Spacing(k, overlap)) >= |s| - k + 1
    ensures m == NumKmers(s, k, overlap)
  {
    if !overlap {
      StartNext(m, k);
      FloorAbove(m + 1, k, |s|);
    }
  }

  /** Allocation and loop. */
  method FillKmers(s: string, k: int, overlap: bool) returns (r: Result<seq<string>>)
    requires Terminates(s, k, overlap)
    ensures r == Produced(s, k, overlap)
  {
    var numKmers: int;
    if overlap {
      numKmers := |s| - k + 1;
    } else if k <= 0 {
      // Math.floor(seq.length / k) is negative, Infinity or NaN.
      return Err(RangeError("Invalid array length"));
    } else {
      numKmers := |s| / k;
    }
    if numKmers < 0 {
      return Err(RangeError("Invalid array length"));
    }
    assert numKmers == NumKmers(s, k, overlap);
    var result := new string[numKmers];
    var spacing := Spacing(k, overlap);
    var i := 0;
    ghost var m: nat := 0;
    while i < |s| - k + 1
      invariant m <= numKmers && i == Start(m, spacing)
      invariant forall j :: 0 <= j < m ==> result[j] == Substring(s, Start(j, spacing), Start(j, spacing) + k)
      decreases |s| - k + 1 - i
    {
      SlotFits(s, k, overlap, m);
      assert i / spacing == m;
      result[i / spacing] := Substring(s, i, i + k);
      i, m := i + spacing, m + 1;
    }
    LoopEnd(s, k, overlap, m);
    var produced := result[..];
    assert forall j :: 0 <= j < |produced| ==> produced[j] == result[j];
    ProducedFrom(s, k, overlap, produced);
    return Ok(produced);
  }

  /** A full array of the right pieces is what `Produced` describes. */
  lemma ProducedFrom(s: string, k: int, overlap: bool, xs: seq<string>)
    requires overlap || k >= 1
    requires |xs| == NumKmers(s, k, overlap)
    requires forall j :: 0 <= j < |xs| ==> xs[j] == Substring(s, Start(j, Spacing(k, overlap)), Start(j, Spacing(k, overlap)) + k)
    ensures Produced(s, k, overlap) == Ok(xs)
  {
    assert Produced(s, k, overlap).value == xs;
  }

  /** Overlapping cuts of any `k` from 0 to `seq.length + 1` are the
      windows `seq[i:i + k]`, one per start position. */
  lemma ProducedWindows(s: string, k: int)
    requires 0 <= k <= |s| + 1
    ensures Produced(s, k, true) == Ok(Windows(s, k))
  {
    var p := Produced(s, k, true).value;
    forall j | 0 <= j < |p| ensures p[j] == s[j..j + k] {
      assert Start(j, 1) == j;
    }
    assert p == Windows(s, k);
  }

  /** Non-overlapping cuts of a positive `k` are the chunks at multiples of
      `k`; a short remainder is dropped. */
  lemma ProducedChunks(s: string, k: int)
    requires k >= 1
    ensures Produced(s, k, false) == Ok(Chunks(s, k))
  {
    var p := Produced(s, k, false).value;
    var c := Chunks(s, k);
    assert |p| == |c|;
    forall j | 0 <= j < |p| ensures p[j] == c[j] {
      assert c[j] == s[Start(j, k)..Start(j, k) + k];
    }
    assert p == c;
  }

  /** The allocation fails for an overlapping `k` above `seq.length + 1`
      and for a non-overlapping `k` of 0 or below. */
  lemma ProducedRangeErrors(s: string, k: int, overlap: bool)
    requires Terminates(s, k, overlap)
    ensures Produced(s, k, overlap).Err? <==> (overlap && k > |s| + 1) || (!overlap && k <= 0)
    ensures Produced(s, k, overlap).Err? ==> Produced(s, k, overlap) == Err(RangeError("Invalid array length"))
  {
  }

  /** An overlapping `k` of `seq.length + 1` gives no k-mers at all, and
      a `k` of at most 0 gives `seq.length - k + 1` clamped pieces: empty
      strings for `k = 0`. */
  lemma ProducedDegenerate(s: string, k: int)
    requires k <= 0
    ensures Produced(s, |s| + 1, true) == Ok([])
    ensures Produced(s, k, true).Ok? && |Produced(s, k, true).value| == |s| - k + 1
    ensures k == 0 ==> forall j :: 0 <= j < |s| + 1 ==> Produced(s, k, true).value[j] == ""
  {
    assert Produced(s, |s| + 1, true).value == [];
    if k == 0 {
      forall j | 0 <= j < |s| + 1 ensures Produced(s, k, true).value[j] == "" {
        assert Produced(s, k, true).value[j] == Substring(s, j, j) == s[j..j];
      }
    }
  }
}
