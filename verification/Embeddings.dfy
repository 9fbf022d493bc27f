/** Cosine similarity, and the byte encoding of stored vectors. */
module Embeddings {
  import opened Reals
  import opened Wrappers

  datatype EmbeddingError = DimensionMismatch(left: nat, right: nat) | InvalidBlobLength(length: nat)

  // -------------------------------------------------------------- Cosine similarity

  function Dot(left: seq<real>, right: seq<real>): real
    requires |left| == |right|
  {
    if left == [] then 0.0
    else
      var n := |left| - 1;
      Dot(left[..n], right[..n]) + Product(left[n], right[n])
  }

  function NormSquared(v: seq<real>): (r: real)
    ensures r >= 0.0
  {
    if v == [] then 0.0 else NormSquared(v[..|v| - 1]) + Square(v[|v| - 1])
  }

  /** `sqrt` stands for an exact square root. */
  ghost predicate IsSquareRoot(sqrt: real -> real) {
    forall x :: x >= 0.0 ==> sqrt(x) >= 0.0 && Square(sqrt(x)) == x
  }

  function Cosine(sqrt: real -> real, left: seq<real>, right: seq<real>): real
    requires |left| == |right|
  {
    var length := Product(sqrt(NormSquared(left)), sqrt(NormSquared(right)));
    if NormSquared(left) == 0.0 || NormSquared(right) == 0.0 || length == 0.0 then 0.0 else Ratio(Dot(left, right), length)
  }

  method CosineSimilarity(sqrt: real -> real, left: seq<real>, right: seq<real>) returns (r: Result<real, EmbeddingError>)
    requires IsSquareRoot(sqrt)
    ensures |left| != |right| ==> r == Err(DimensionMismatch(|left|, |right|))
    ensures |left| == |right| ==> r == Ok(Cosine(sqrt, left, right)) && -1.0 <= r.value <= 1.0
  {
    if |left| != |right| {
      return Err(DimensionMismatch(|left|, |right|));
    }
    var dot, leftNorm, rightNorm := 0.0, 0.0, 0.0;
    for i := 0 to |left|
      invariant dot == Dot(left[..i], right[..i])
      invariant leftNorm == NormSquared(left[..i]) && rightNorm == NormSquared(right[..i])
      invariant Square(dot) <= Product(leftNorm, rightNorm)
    {
      assert left[..i + 1][..i] == left[..i] && right[..i + 1][..i] == right[..i];
      dot := dot + Product(left[i], right[i]);
      leftNorm := leftNorm + Square(left[i]);
      rightNorm := rightNorm + Square(right[i]);
      CauchySchwarz(left[..i + 1], right[..i + 1]);
    }
    assert left[..|left|] == left && right[..|right|] == right;
    if leftNorm == 0.0 || rightNorm == 0.0 {
      return Ok(0.0);
    }
    LengthBoundsDot(dot, leftNorm, rightNorm, sqrt(leftNorm), sqrt(rightNorm));
    r := Ok(Ratio(dot, Product(sqrt(leftNorm), sqrt(rightNorm))));
  }

  /** The squared length of t * left + right, as a polynomial in t. */
  function Blend(l: real, d: real, r: real, t: real): real {
    Product(l, Square(t)) + 2.0 * Product(d, t) + r
  }

  lemma {:induction false} BlendStep(l: real, d: real, r: real, a: real, b: real, t: real)
    ensures Blend(l + Square(a), d + Product(a, b), r + Square(b), t) == Blend(l, d, r, t) + Square(a * t + b)
  {
  }

  lemma {:induction false} BlendIsNotNegative(left: seq<real>, right: seq<real>, t: real)
    requires |left| == |right|
    ensures Blend(NormSquared(left), Dot(left, right), NormSquared(right), t) >= 0.0
  {
    if left == [] {
      assert Blend(0.0, 0.0, 0.0, t) == 0.0;
    } else {
      var n := |left| - 1;
      BlendIsNotNegative(left[..n], right[..n], t);
      BlendStep(NormSquared(left[..n]), Dot(left[..n], right[..n]), NormSquared(right[..n]), left[n], right[n], t);
    }
  }

  lemma {:induction false} DiscriminantIsNotPositive(l: real, d: real, r: real)
    requires l > 0.0 && Blend(l, d, r, -d / l) >= 0.0
    ensures Square(d) <= Product(l, r)
  {
    var t := -d / l;
    assert l * t == -d;
    assert Product(l, Square(t)) == (l * t) * t == -(d * t);
    assert r + d * t >= 0.0;
    assert Product(l, r + d * t) == Product(l, r) + d * (l * t) == Product(l, r) - Square(d);
  }

  lemma {:induction false} CauchySchwarz(left: seq<real>, right: seq<real>)
    requires |left| == |right|
    ensures Square(Dot(left, right)) <= Product(NormSquared(left), NormSquared(right))
  {
    var l, d, r := NormSquared(left), Dot(left, right), NormSquared(right);
    if l > 0.0 {
      BlendIsNotNegative(left, right, -d / l);
      DiscriminantIsNotPositive(l, d, r);
    } else if d != 0.0 {
      BlendIsNotNegative(left, right, -(r + 1.0) / (2.0 * d));
      assert false;
    }
  }

  lemma {:induction false} LengthBoundsDot(d: real, l: real, r: real, sl: real, sr: real)
    requires l > 0.0 && r > 0.0 && sl >= 0.0 && sr >= 0.0 && Square(sl) == l && Square(sr) == r
    requires Square(d) <= Product(l, r)
    ensures Product(sl, sr) > 0.0 && -1.0 <= Ratio(d, Product(sl, sr)) <= 1.0
  {
    var s := Product(sl, sr);
    assert sl != 0.0 && sr != 0.0;
    assert Square(s) == Product(l, r) by {
      assert s == sl * sr;
      assert (sl * sr) * (sl * sr) == (sl * sl) * (sr * sr);
    }
    RootIsMonotone(d, s);
    UnitRatio(d, s);
  }

  lemma {:induction false} SquareGrows(a: real, b: real)
    requires 0.0 <= b < a
    ensures Square(b) < Square(a)
  {
    assert Square(a) - Square(b) == Product(a - b, a + b);
  }

  lemma {:induction false} RootIsMonotone(d: real, s: real)
    requires s > 0.0 && Square(d) <= Square(s)
    ensures -s <= d <= s
  {
    if d > s {
      SquareGrows(d, s);
    }
    assert Square(-d) == Square(d);
    if d < -s {
      SquareGrows(-d, s);
    }
  }

  lemma {:induction false} UnitRatio(d: real, s: real)
    requires s > 0.0 && -s <= d <= s
    ensures -1.0 <= Ratio(d, s) <= 1.0
  {
    RatioSign(s - d, s);
    RatioSign(s + d, s);
    RatioAdds(s, d, s);
    RatioAdds(s, -d, s);
    RatioAdds(d, -d, s);
    SelfRatio(s);
  }

  lemma {:induction false} DotIsSymmetric(left: seq<real>, right: seq<real>)
    requires |left| == |right|
    ensures Dot(left, right) == Dot(right, left)
  {
    if left != [] {
      var n := |left| - 1;
      DotIsSymmetric(left[..n], right[..n]);
      assert Product(left[n], right[n]) == Product(right[n], left[n]);
    }
  }

  lemma {:induction false} SelfDot(v: seq<real>)
    ensures Dot(v, v) == NormSquared(v)
  {
    if v != [] {
      SelfDot(v[..|v| - 1]);
    }
  }

  /** The vector with a one at place `i` and zeros elsewhere. */
  function Unit(n: nat, i: nat): (v: seq<real>)
    ensures |v| == n
  {
    seq(n, k => if k == i then 1.0 else 0.0)
  }

  /** The product with a unit vector is the coordinate at its place. */
  lemma {:induction false} DotOfUnit(v: seq<real>, i: nat, n: nat)
    requires n <= |v|
    ensures Dot(Unit(|v|, i)[..n], v[..n]) == if i < n then v[i] else 0.0
  {
    if n > 0 {
      var u := Unit(|v|, i);
      DotOfUnit(v, i, n - 1);
      assert u[..n][..n - 1] == u[..n - 1] && v[..n][..n - 1] == v[..n - 1];
      assert Product(1.0, v[n - 1]) == v[n - 1] && Product(0.0, v[n - 1]) == 0.0;
    }
  }

  /** The product is linear in the first vector. */
  lemma {:induction false} DotIsLinear(a: seq<real>, b: seq<real>, v: seq<real>, t: real, sum: seq<real>)
    requires |a| == |b| == |v| == |sum| && forall k :: 0 <= k < |v| ==> sum[k] == Product(t, a[k]) + b[k]
    ensures Dot(sum, v) == Product(t, Dot(a, v)) + Dot(b, v)
  {
    if v != [] {
      var n := |v| - 1;
      DotIsLinear(a[..n], b[..n], v[..n], t, sum[..n]);
      TermIsLinear(t, a[n], b[n], v[n], Dot(a[..n], v[..n]));
    } else {
      assert Product(t, 0.0) == 0.0;
    }
  }

  lemma {:induction false} TermIsLinear(t: real, a: real, b: real, v: real, dot: real)
    ensures Product(Product(t, a) + b, v) == Product(t, Product(a, v)) + Product(b, v)
    ensures Product(t, dot + Product(a, v)) == Product(t, dot) + Product(t, Product(a, v))
  {
  }

  /** The cosine times the two lengths is the product of the vectors, unless one of them is zero; then it is zero. */
  lemma {:induction false} CosineExactly(sqrt: real -> real, left: seq<real>, right: seq<real>)
    requires IsSquareRoot(sqrt) && |left| == |right|
    ensures if NormSquared(left) == 0.0 || NormSquared(right) == 0.0 then Cosine(sqrt, left, right) == 0.0
            else Product(Cosine(sqrt, left, right), Product(sqrt(NormSquared(left)), sqrt(NormSquared(right)))) == Dot(left, right)
    ensures NormSquared(left) == Dot(left, left)
  {
    SelfDot(left);
    if NormSquared(left) != 0.0 && NormSquared(right) != 0.0 {
      var x, y := sqrt(NormSquared(left)), sqrt(NormSquared(right));
      assert Square(x) == NormSquared(left) && Square(y) == NormSquared(right);
      assert Product(0.0, 0.0) == 0.0;
      assert x != 0.0 && y != 0.0;
      RatioUndone(Dot(left, right), Product(x, y));
    }
  }

  lemma {:induction false} RatioUndone(d: real, s: real)
    requires s != 0.0
    ensures Product(Ratio(d, s), s) == d
  {
  }

  /** Similarity does not depend on the order of the vectors, and a vector that is not zero is fully similar to itself. */
  lemma {:induction false} CosineLaws(sqrt: real -> real, left: seq<real>, right: seq<real>)
    requires IsSquareRoot(sqrt) && |left| == |right|
    ensures Cosine(sqrt, left, right) == Cosine(sqrt, right, left)
    ensures NormSquared(left) != 0.0 ==> Cosine(sqrt, left, left) == 1.0
  {
    DotIsSymmetric(left, right);
    var x, y := sqrt(NormSquared(left)), sqrt(NormSquared(right));
    assert Product(x, y) == Product(y, x);
    if NormSquared(left) != 0.0 {
      SelfDot(left);
      assert Product(x, x) == Square(x) == NormSquared(left);
      SelfRatio(NormSquared(left));
    }
  }

  // ------------------------------------------------------------------ Stored blobs

  /** A 32-bit float by its bit pattern. */
  type Bits = x: int | 0 <= x < 0x1_0000_0000

  type Byte = x: int | 0 <= x < 0x100

  function ToLittleEndian(v: Bits): (bytes: seq<Byte>)
    ensures |bytes| == 4
  {
    var (q1, q2, q3) := (v / 0x100, v / 0x100 / 0x100, v / 0x100 / 0x100 / 0x100);
    [v % 0x100, q1 % 0x100, q2 % 0x100, q3]
  }

  function FromLittleEndian(b0: Byte, b1: Byte, b2: Byte, b3: Byte): Bits {
    b0 + 0x100 * (b1 + 0x100 * (b2 + 0x100 * b3))
  }

  function EmbeddingToBlob(values: seq<Bits>): (blob: seq<Byte>)
    ensures |blob| == 4 * |values|
  {
    if values == [] then [] else ToLittleEndian(values[0]) + EmbeddingToBlob(values[1..])
  }

  function DecodeWords(blob: seq<Byte>): (values: seq<Bits>)
    ensures |values| == |blob| / 4
  {
    if |blob| < 4 then [] else [FromLittleEndian(blob[0], blob[1], blob[2], blob[3])] + DecodeWords(blob[4..])
  }

  function DecodeEmbeddingBlob(blob: seq<Byte>): Result<seq<Bits>, EmbeddingError> {
    if |blob| % 4 != 0 then Err(InvalidBlobLength(|blob|)) else Ok(DecodeWords(blob))
  }

  lemma {:induction false} WordsRoundTrip(v: Bits, b0: Byte, b1: Byte, b2: Byte, b3: Byte)
    ensures var bytes := ToLittleEndian(v); FromLittleEndian(bytes[0], bytes[1], bytes[2], bytes[3]) == v
    ensures ToLittleEndian(FromLittleEndian(b0, b1, b2, b3)) == [b0, b1, b2, b3]
  {
    var q1, q2 := v / 0x100, v / 0x100 / 0x100;
    assert v == 0x100 * q1 + v % 0x100 && q1 == 0x100 * q2 + q1 % 0x100;
    var r2 := b2 + 0x100 * b3;
    var r1 := b1 + 0x100 * r2;
    LowByte(b0, r1);
    LowByte(b1, r2);
    LowByte(b2, b3);
  }

  lemma {:induction false} LowByte(b: Byte, rest: nat)
    ensures (b + 0x100 * rest) % 0x100 == b && (b + 0x100 * rest) / 0x100 == rest
  {
  }

  /** The bytes of each value in turn, the lowest first. */
  lemma {:induction false} BytesInOrder(values: seq<Bits>, i: nat)
    requires i < |values|
    ensures var blob := EmbeddingToBlob(values);
            values[i] as int == blob[4 * i] as int + 0x100 * (blob[4 * i + 1] as int) + 0x1_0000 * (blob[4 * i + 2] as int)
                                + 0x100_0000 * (blob[4 * i + 3] as int)
  {
    var blob := EmbeddingToBlob(values);
    if i == 0 {
      WordsRoundTrip(values[0], 0, 0, 0, 0);
      assert blob[..4] == ToLittleEndian(values[0]);
      assert blob[0] == blob[..4][0] && blob[1] == blob[..4][1] && blob[2] == blob[..4][2] && blob[3] == blob[..4][3];
    } else {
      BytesInOrder(values[1..], i - 1);
      assert blob[4..] == EmbeddingToBlob(values[1..]);
      var j := 4 * (i - 1);
      assert blob[4 + j] == blob[4..][j] && blob[5 + j] == blob[4..][j + 1] && blob[6 + j] == blob[4..][j + 2] && blob[7 + j] == blob[4..][j + 3];
    }
  }

  lemma {:induction false} DecodeUndoesEncode(values: seq<Bits>)
    ensures DecodeEmbeddingBlob(EmbeddingToBlob(values)) == Ok(values)
  {
    if values != [] {
      DecodeUndoesEncode(values[1..]);
      WordsRoundTrip(values[0], 0, 0, 0, 0);
      var blob, rest := EmbeddingToBlob(values), EmbeddingToBlob(values[1..]);
      assert blob[4..] == rest;
      assert DecodeWords(rest) == values[1..];
      assert DecodeWords(blob) == [values[0]] + values[1..] == values;
    }
  }

  /** Every blob that decodes is the encoding of what it decodes to. */
  lemma {:induction false} EncodeUndoesDecode(blob: seq<Byte>)
    requires DecodeEmbeddingBlob(blob).Ok?
    ensures EmbeddingToBlob(DecodeEmbeddingBlob(blob).value) == blob
  {
    if blob != [] {
      EncodeUndoesDecode(blob[4..]);
      WordsRoundTrip(0, blob[0], blob[1], blob[2], blob[3]);
      var word, words := FromLittleEndian(blob[0], blob[1], blob[2], blob[3]), DecodeWords(blob[4..]);
      assert DecodeWords(blob) == [word] + words;
      assert ([word] + words)[1..] == words;
      assert blob == [blob[0], blob[1], blob[2], blob[3]] + blob[4..];
    }
  }
}
