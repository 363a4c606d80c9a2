/**
 * The arithmetic of the cosine-similarity associator: the dot product of two view
 * vectors, a vector's "module" (its Euclidean norm) and the cosine similarity
 * dot(a, b) / (|a| * |b|).
 *
 * Square roots are not computed: the module is the non-negative real whose square is
 * the vector's sum of squares, obtained from a `sqrt` that is only required to be a
 * square root (`IsSquareRoot`). No floating point is modelled.
 */
module CosineSimilarity {

  /** Sum of a[i] * b[i] over the indexes 0 .. |a| - 1 of two vectors of equal length. */
  function DotProduct(a: seq<int>, b: seq<int>): int
    requires |a| == |b|
  {
    if a == [] then 0 else a[0] * b[0] + DotProduct(a[1..], b[1..])
  }

  /** Sum of v[i] * v[i]: the square of the vector's module. */
  function SumOfSquares(v: seq<int>): (s: int)
    ensures 0 <= s
    ensures s == 0 <==> forall i :: 0 <= i < |v| ==> v[i] == 0
  {
    if v == [] then 0
    else
      assert v[0] * v[0] >= 0;
      assert forall i :: 1 <= i < |v| ==> v[i] == v[1..][i - 1];
      v[0] * v[0] + SumOfSquares(v[1..])
  }

  /** Every entry is a view count, so none is negative. */
  predicate NonNegative(v: seq<int>)
  {
    forall i :: 0 <= i < |v| ==> 0 <= v[i]
  }

  /** `sqrt` maps every non-negative real to its non-negative square root. */
  ghost predicate IsSquareRoot(sqrt: real -> real)
  {
    forall x: real :: 0.0 <= x ==> 0.0 <= sqrt(x) && sqrt(x) * sqrt(x) == x
  }

  /** The module (Euclidean norm) of `v`: the non-negative real whose square is the sum of squares. */
  function VectorModule(v: seq<int>, sqrt: real -> real): (m: real)
    requires IsSquareRoot(sqrt)
    ensures 0.0 <= m && m * m == SumOfSquares(v) as real
    ensures m == 0.0 <==> forall i :: 0 <= i < |v| ==> v[i] == 0
  {
    var m := sqrt(SumOfSquares(v) as real);
    SquareMonotone(m, 0.0);
    m
  }

  /**
   * The cosine similarity of two non-zero vectors of equal length: a coefficient in
   * [-1, 1] whose square is dot(a, b)^2 / (|a|^2 * |b|^2), with the sign of the dot
   * product; in [0, 1] for view counts.
   */
  function Cosine(a: seq<int>, b: seq<int>, sqrt: real -> real): (r: real)
    requires |a| == |b| && IsSquareRoot(sqrt)
    requires SumOfSquares(a) > 0 && SumOfSquares(b) > 0
    ensures -1.0 <= r <= 1.0
    ensures r * r * (SumOfSquares(a) * SumOfSquares(b)) as real == (DotProduct(a, b) * DotProduct(a, b)) as real
    ensures 0.0 <= r <==> 0 <= DotProduct(a, b)
    ensures NonNegative(a) && NonNegative(b) ==> 0.0 <= r <= 1.0
  {
    var ma, mb := VectorModule(a, sqrt), VectorModule(b, sqrt);
    var d, sa, sb := DotProduct(a, b), SumOfSquares(a), SumOfSquares(b);
    assert 0.0 <= ma && ma * ma == sa as real && 0.0 <= mb && mb * mb == sb as real;
    NonNegativeDotProduct(a, b);
    CauchySchwarz(a, b);
    QuotientBounds(d, sa, sb, ma, mb);
    d as real / (ma * mb)
  }

  // ---------------------------------------------------------------------------
  // Real-arithmetic helpers
  // ---------------------------------------------------------------------------

  /** Multiplying by a positive real keeps a strict inequality. */
  lemma MulStrictMonotone(x: real, y: real, z: real)
    requires x < y && 0.0 < z
    ensures x * z < y * z
  {
  }

  /** x^2 - y^2 = (x - y)(x + y). */
  lemma DifferenceOfSquares(x: real, y: real)
    ensures x * x - y * y == (x - y) * (x + y)
  {
  }

  /** For non-negative reals, comparing squares compares the reals. */
  lemma SquareMonotone(x: real, y: real)
    requires 0.0 <= x && 0.0 <= y
    ensures x <= y <==> x * x <= y * y
  {
    DifferenceOfSquares(x, y);
    if x < y {
      MulStrictMonotone(0.0, y - x, x + y);
      assert (y - x) * (x + y) == -((x - y) * (x + y));
    } else if y < x {
      MulStrictMonotone(0.0, x - y, x + y);
    }
  }

  /** `m` lies between `lo` and `hi` once its square does. */
  lemma BoundBySquares(m: real, lo: real, hi: real)
    requires 0.0 <= m && 0.0 <= lo && 0.0 <= hi
    requires lo * lo <= m * m <= hi * hi
    ensures lo <= m <= hi
  {
    SquareMonotone(lo, m);
    SquareMonotone(m, hi);
  }

  /** Two non-negative reals with the same square are equal: the module is unique. */
  lemma SquareRootUnique(m1: real, m2: real)
    requires 0.0 <= m1 && 0.0 <= m2 && m1 * m1 == m2 * m2
    ensures m1 == m2
  {
    SquareMonotone(m1, m2);
    SquareMonotone(m2, m1);
  }

  /** The product of two module values squares to the product of the squares. */
  lemma ProductOfSquares(ma: real, mb: real, sa: real, sb: real)
    requires ma * ma == sa && mb * mb == sb
    ensures (ma * mb) * (ma * mb) == sa * sb
  {
    calc {
      (ma * mb) * (ma * mb);
      (ma * ma) * (mb * mb);
    }
  }

  /** A quotient times its denominator, squared. */
  lemma QuotientSquared(d: real, p: real)
    requires p != 0.0
    ensures (d / p) * (d / p) * (p * p) == d * d
  {
    var r := d / p;
    assert r * p == d;
    calc {
      r * r * (p * p);
      (r * p) * (r * p);
    }
  }

  /** Properties of d / (ma * mb) when ma^2 = sa, mb^2 = sb and d^2 <= sa * sb. */
  lemma QuotientBounds(d: int, sa: int, sb: int, ma: real, mb: real)
    requires 0 < sa && 0 < sb && 0.0 <= ma && 0.0 <= mb
    requires ma * ma == sa as real && mb * mb == sb as real
    requires d * d <= sa * sb
    ensures 0.0 < ma * mb
    ensures var r := d as real / (ma * mb);
      -1.0 <= r <= 1.0 && r * r * (sa * sb) as real == (d * d) as real && (0.0 <= r <==> 0 <= d)
  {
    SquareMonotone(ma, 0.0);
    SquareMonotone(mb, 0.0);
    var p := ma * mb;
    MulStrictMonotone(0.0, ma, mb);
    ProductOfSquares(ma, mb, sa as real, sb as real);
    assert (sa as real) * (sb as real) == (sa * sb) as real;
    var r := d as real / p;
    QuotientSquared(d as real, p);
    assert (d as real) * (d as real) == (d * d) as real;
    assert r * r * (p * p) == (d * d) as real;
    var pp := p * p;
    assert 0.0 < pp by { MulStrictMonotone(0.0, p, p); }
    var ar := if r < 0.0 then -r else r;
    var q, dd := ar * ar, (d * d) as real;
    assert q == r * r;
    assert q * pp == dd;
    assert dd <= pp;
    assert q <= 1.0 by {
      if 1.0 < q {
        MulStrictMonotone(1.0, q, pp);
      }
    }
    SquareMonotone(ar, 1.0);
    assert 0.0 <= r <==> 0 <= d by {
      if 0 <= d {
        assert 0.0 <= d as real / p;
      } else {
        assert d as real / p < 0.0;
      }
    }
  }

  // ---------------------------------------------------------------------------
  // Properties of the dot product and the sum of squares
  // ---------------------------------------------------------------------------

  /** The dot product does not depend on the order of its arguments. */
  lemma {:induction false} DotProductSymmetric(a: seq<int>, b: seq<int>)
    requires |a| == |b|
    ensures DotProduct(a, b) == DotProduct(b, a)
  {
    if a != [] {
      DotProductSymmetric(a[1..], b[1..]);
    }
  }

  /** The sum of squares is the dot product of a vector with itself. */
  lemma {:induction false} SumOfSquaresIsSelfDot(v: seq<int>)
    ensures SumOfSquares(v) == DotProduct(v, v)
  {
    if v != [] {
      SumOfSquaresIsSelfDot(v[1..]);
    }
  }

  /** The dot product of two vectors of view counts is not negative. */
  lemma {:induction false} NonNegativeDotProduct(a: seq<int>, b: seq<int>)
    requires |a| == |b|
    ensures NonNegative(a) && NonNegative(b) ==> 0 <= DotProduct(a, b)
  {
    if a != [] && NonNegative(a) && NonNegative(b) {
      assert NonNegative(a[1..]) && NonNegative(b[1..]);
      NonNegativeDotProduct(a[1..], b[1..]);
      assert 0 <= a[0] * b[0];
    }
  }

  /** The quadratic form x^2 |b|^2 - 2xy dot(a, b) + y^2 |a|^2, from its three sums. */
  function Mixed(x: int, y: int, sb: int, d: int, sa: int): int
  {
    x * x * sb - 2 * x * y * d + y * y * sa
  }

  /** The quadratic form is additive in its three sums. */
  lemma MixedAdditive(x: int, y: int, sb1: int, d1: int, sa1: int, sb2: int, d2: int, sa2: int)
    ensures Mixed(x, y, sb1 + sb2, d1 + d2, sa1 + sa2) == Mixed(x, y, sb1, d1, sa1) + Mixed(x, y, sb2, d2, sa2)
  {
  }

  /** On one coordinate, the quadratic form is the square (x b0 - y a0)^2. */
  lemma MixedOfOneCoordinate(x: int, y: int, a0: int, b0: int)
    ensures Mixed(x, y, b0 * b0, a0 * b0, a0 * a0) == (x * b0 - y * a0) * (x * b0 - y * a0)
  {
  }

  /**
   * For all integers x and y, x^2 |b|^2 - 2xy dot(a, b) + y^2 |a|^2 is the sum of the
   * squares (x b[i] - y a[i])^2, hence not negative.
   */
  lemma {:induction false} MixedSquaresNonNegative(a: seq<int>, b: seq<int>, x: int, y: int)
    requires |a| == |b|
    ensures 0 <= Mixed(x, y, SumOfSquares(b), DotProduct(a, b), SumOfSquares(a))
  {
    if a != [] {
      MixedSquaresNonNegative(a[1..], b[1..], x, y);
      MixedOfOneCoordinate(x, y, a[0], b[0]);
      var e := x * b[0] - y * a[0];
      assert 0 <= e * e;
      MixedAdditive(x, y, b[0] * b[0], a[0] * b[0], a[0] * a[0],
                    SumOfSquares(b[1..]), DotProduct(a[1..], b[1..]), SumOfSquares(a[1..]));
    }
  }

  /** Taking x = |a|^2 and y = dot(a, b) turns the quadratic form into |a|^2 (|a|^2 |b|^2 - dot^2). */
  lemma MixedAtCauchySchwarzPoint(sa: int, sb: int, d: int)
    ensures Mixed(sa, d, sb, d, sa) == sa * (sa * sb - d * d)
  {
  }

  /** Multiplying by a positive integer keeps a strict inequality. */
  lemma MulStrictMonotoneInt(x: int, y: int, k: int)
    requires x < y && 0 < k
    ensures x * k < y * k
  {
  }

  /** A positive factor with a non-negative product leaves a non-negative cofactor. */
  lemma PositiveFactor(k: int, z: int)
    requires 0 < k && 0 <= k * z
    ensures 0 <= z
  {
    if z < 0 {
      MulStrictMonotoneInt(z, 0, k);
    }
  }

  /** Cauchy-Schwarz: dot(a, b)^2 <= |a|^2 |b|^2. */
  lemma CauchySchwarz(a: seq<int>, b: seq<int>)
    requires |a| == |b|
    ensures DotProduct(a, b) * DotProduct(a, b) <= SumOfSquares(a) * SumOfSquares(b)
  {
    var d, sa, sb := DotProduct(a, b), SumOfSquares(a), SumOfSquares(b);
    if sa == 0 {
      ZeroVectorDot(a, b);
    } else {
      MixedSquaresNonNegative(a, b, sa, d);
      MixedAtCauchySchwarzPoint(sa, sb, d);
      PositiveFactor(sa, sa * sb - d * d);
    }
  }

  /** A vector whose entries are all zero has a zero dot product with any vector. */
  lemma {:induction false} ZeroVectorDot(a: seq<int>, b: seq<int>)
    requires |a| == |b| && SumOfSquares(a) == 0
    ensures DotProduct(a, b) == 0
  {
    if a != [] {
      assert a[0] == 0;
      ZeroVectorDot(a[1..], b[1..]);
    }
  }

  // ---------------------------------------------------------------------------
  // Properties of the cosine similarity
  // ---------------------------------------------------------------------------

  /** The similarity of two vectors does not depend on their order. */
  lemma CosineSymmetric(a: seq<int>, b: seq<int>, sqrt: real -> real)
    requires |a| == |b| && IsSquareRoot(sqrt)
    requires SumOfSquares(a) > 0 && SumOfSquares(b) > 0
    ensures Cosine(a, b, sqrt) == Cosine(b, a, sqrt)
  {
    DotProductSymmetric(a, b);
    var ma, mb := VectorModule(a, sqrt), VectorModule(b, sqrt);
    assert ma * mb == mb * ma;
  }

  /** A non-zero vector is fully similar to itself. */
  lemma CosineWithItself(a: seq<int>, sqrt: real -> real)
    requires IsSquareRoot(sqrt) && SumOfSquares(a) > 0
    ensures Cosine(a, a, sqrt) == 1.0
  {
    SumOfSquaresIsSelfDot(a);
    var m := VectorModule(a, sqrt);
    assert m * m == DotProduct(a, a) as real;
    assert m * m != 0.0;
  }

  // ---------------------------------------------------------------------------
  // The tested vectors
  // ---------------------------------------------------------------------------

  const TestVector1: seq<int> := [1, 5, 67, 14]
  const TestVector2: seq<int> := [7, 71, 154, 9]

  /** The dot product of the two tested vectors is exactly 10806. */
  lemma DotProductOfTestVectors()
    ensures DotProduct(TestVector1, TestVector2) == 10806
  {
  }

  /** The sums of squares of the tested vectors are 4711 and 28887. */
  lemma SumOfSquaresOfTestVectors()
    ensures SumOfSquares(TestVector1) == 4711
    ensures SumOfSquares(TestVector2) == 28887
  {
  }

  /** The module of [1, 5, 67, 14] is within 0.0001 of 68.6367. */
  lemma ModuleOfTestVector(sqrt: real -> real)
    requires IsSquareRoot(sqrt)
    ensures 68.6367 - 0.0001 <= VectorModule(TestVector1, sqrt) <= 68.6367 + 0.0001
  {
    SumOfSquaresOfTestVectors();
    var m := VectorModule(TestVector1, sqrt);
    assert m * m == 4711.0;
    BoundBySquares(m, 68.6366, 68.6368);
  }

  /** The cosine similarity of the two tested vectors is within 0.0001 of 0.9263. */
  lemma CosineOfTestVectors(sqrt: real -> real)
    requires IsSquareRoot(sqrt)
    ensures SumOfSquares(TestVector1) > 0 && SumOfSquares(TestVector2) > 0
    ensures 0.9263 - 0.0001 <= Cosine(TestVector1, TestVector2, sqrt) <= 0.9263 + 0.0001
  {
    SumOfSquaresOfTestVectors();
    DotProductOfTestVectors();
    var r := Cosine(TestVector1, TestVector2, sqrt);
    assert 0.0 <= r;
    assert r * r * 136086657.0 == 116769636.0;
    assert 0.9262 * 0.9262 <= r * r <= 0.9264 * 0.9264 by {
      var s := r * r;
      assert s * 136086657.0 == 116769636.0;
      assert 0.9262 * 0.9262 * 136086657.0 <= 116769636.0 <= 0.9264 * 0.9264 * 136086657.0;
    }
    BoundBySquares(r, 0.9262, 0.9264);
  }
}
