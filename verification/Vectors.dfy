/** Vector distances (src/vector.rs) on parsed vectors, over exact reals. The square root is a parameter: any function
    that inverts squaring on the non-negative numbers. */
module Vectors {
  import opened Reals
  import opened Wrappers

  type Vector = seq<real>

  ghost predicate SquareRoot(sqrt: real -> real) {
    forall x :: x >= 0.0 ==> sqrt(x) >= 0.0 && sqrt(x) * sqrt(x) == x
  }

  // ----- The code -----

  function Dot(a: Vector, b: Vector): real
    requires |a| == |b|
  {
    if a == [] then 0.0 else a[0] * b[0] + Dot(a[1..], b[1..])
  }

  function Clamp(x: real): real {
    if x < -1.0 then -1.0 else if x > 1.0 then 1.0 else x
  }

  const DIMENSIONS: string := "vector dimension mismatch"
  const ZERO_VECTOR: string := "cannot compute cosine distance for zero vector"

  function Similarity(dot: real, normA: real, normB: real): real
    requires normA != 0.0 && normB != 0.0
  {
    ProductIsNotZero(normA, normB, normA * normB);
    dot / (normA * normB)
  }

  /** The distance from the two squared lengths and the inner product. */
  function DistanceOf(saa: real, sab: real, sbb: real, sqrt: real -> real): Result<real> {
    var normA, normB := sqrt(saa), sqrt(sbb);
    if normA == 0.0 || normB == 0.0 then Err(ZERO_VECTOR)
    else Ok(1.0 - Clamp(Similarity(sab, normA, normB)))
  }

  function CosineDistance(a: Vector, b: Vector, sqrt: real -> real): Result<real> {
    if |a| != |b| then Err(DIMENSIONS) else DistanceOf(Dot(a, a), Dot(a, b), Dot(b, b), sqrt)
  }

  function Minus(a: Vector, b: Vector): (d: Vector)
    requires |a| == |b|
    ensures |d| == |a| && forall i :: 0 <= i < |a| ==> d[i] == a[i] - b[i]
  {
    seq(|a|, i requires 0 <= i < |a| => a[i] - b[i])
  }

  function L2Distance(a: Vector, b: Vector, sqrt: real -> real): Result<real> {
    if |a| != |b| then Err(DIMENSIONS) else Ok(sqrt(Dot(Minus(a, b), Minus(a, b))))
  }

  // ----- Products of reals -----

  lemma ProductIsNotZero(x: real, y: real, product: real)
    requires x != 0.0 && y != 0.0 && product == x * y
    ensures product != 0.0
  {
    if x > 0.0 && y > 0.0 {
      ProductIsPositive(x, y, product);
    } else if x > 0.0 {
      ProductIsPositive(x, -y, -product);
    } else if y > 0.0 {
      ProductIsPositive(-x, y, -product);
    } else {
      ProductIsPositive(-x, -y, product);
    }
  }

  lemma ProductIsNotNegative(x: real, y: real)
    requires x >= 0.0 && y >= 0.0
    ensures x * y >= 0.0
  {
  }

  /** Squaring is monotone on the non-negative numbers. */
  lemma SquaresCompare(x: real, y: real)
    requires x >= 0.0 && y >= 0.0 && x * x <= y * y
    ensures x <= y
  {
    if x > y {
      var d := x - y;
      assert x * x == (y + d) * (y + d);
      assert (y + d) * (y + d) == y * y + 2.0 * (y * d) + d * d;
      ProductIsNotNegative(y, d);
      ProductIsPositive(d, d, d * d);
    }
  }

  lemma SquaresDetermine(x: real, y: real)
    requires x >= 0.0 && y >= 0.0 && x * x == y * y
    ensures x == y
  {
    SquaresCompare(x, y);
    SquaresCompare(y, x);
  }

  lemma Quotient(x: real, y: real)
    requires y != 0.0
    ensures x / y * y == x
  {
  }

  lemma SquareOfProduct(x: real, y: real)
    ensures (x * y) * (x * y) == (x * x) * (y * y)
  {
    assert (x * y) * (x * y) == x * (y * (x * y));
    assert y * (x * y) == x * (y * y);
  }

  // ----- Algebra of the dot product -----

  lemma {:induction false} DotOfZero(a: Vector, b: Vector)
    requires |a| == |b| && forall i :: 0 <= i < |b| ==> b[i] == 0.0
    ensures Dot(a, b) == 0.0
  {
    if a != [] {
      DotOfZero(a[1..], b[1..]);
    }
  }

  /** Against a vector with one coordinate, each coordinate counts once. */
  lemma {:induction false} DotOfCoordinate(a: Vector, b: Vector, k: nat)
    requires k < |a| == |b| && forall i :: 0 <= i < |b| && i != k ==> b[i] == 0.0
    ensures Dot(a, b) == a[k] * b[k]
  {
    if k == 0 {
      DotOfZero(a[1..], b[1..]);
    } else {
      DotOfCoordinate(a[1..], b[1..], k - 1);
    }
  }

  /** Moving one coordinate by d moves a vector by the absolute value of d. */
  lemma OneCoordinateMoved(a: Vector, k: nat, d: real, sqrt: real -> real)
    requires k < |a| && SquareRoot(sqrt)
    ensures L2Distance(a, a[k := a[k] + d], sqrt) == Ok(if d < 0.0 then -d else d)
  {
    var b := a[k := a[k] + d];
    var u := Minus(a, b);
    DotOfCoordinate(u, u, k);
    var length := if d < 0.0 then -d else d;
    assert u[k] == -d && u[k] * u[k] == length * length;
    SquaresDetermine(sqrt(Dot(u, u)), length);
  }

  lemma {:induction false} DotIsSymmetric(a: Vector, b: Vector)
    requires |a| == |b|
    ensures Dot(a, b) == Dot(b, a)
  {
    if a != [] {
      DotIsSymmetric(a[1..], b[1..]);
    }
  }

  lemma {:induction false} SquaresSum(a: Vector)
    ensures Dot(a, a) >= 0.0
    ensures Dot(a, a) == 0.0 <==> forall i :: 0 <= i < |a| ==> a[i] == 0.0
  {
    if a != [] {
      SquaresSum(a[1..]);
      ZeroSquare(a[0]);
      assert forall i :: 1 <= i < |a| ==> a[i] == a[1..][i - 1];
    }
  }

  function Scale(t: real, a: Vector): (c: Vector)
    ensures |c| == |a| && forall i :: 0 <= i < |a| ==> c[i] == t * a[i]
  {
    seq(|a|, i requires 0 <= i < |a| => t * a[i])
  }

  lemma ScaleTail(t: real, a: Vector)
    requires a != []
    ensures Scale(t, a)[1..] == Scale(t, a[1..])
  {
    forall i | 0 <= i < |a| - 1
      ensures Scale(t, a)[1..][i] == Scale(t, a[1..])[i]
    {
      assert a[1..][i] == a[i + 1];
    }
  }

  lemma ScaledTerm(t: real, x: real, y: real, rest: real)
    ensures t * x * y + t * rest == t * (x * y + rest)
  {
  }

  lemma {:induction false} DotOfScaled(t: real, a: Vector, b: Vector)
    requires |a| == |b|
    ensures Dot(Scale(t, a), b) == t * Dot(a, b)
  {
    if a != [] {
      ScaleTail(t, a);
      DotOfScaled(t, a[1..], b[1..]);
      ScaledTerm(t, a[0], b[0], Dot(a[1..], b[1..]));
    }
  }

  function Plus(a: Vector, b: Vector): (c: Vector)
    requires |a| == |b|
    ensures |c| == |a| && forall i :: 0 <= i < |a| ==> c[i] == a[i] + b[i]
  {
    seq(|a|, i requires 0 <= i < |a| => a[i] + b[i])
  }

  lemma PlusTail(a: Vector, b: Vector)
    requires |a| == |b| && a != []
    ensures Plus(a, b)[1..] == Plus(a[1..], b[1..])
  {
    forall i | 0 <= i < |a| - 1
      ensures Plus(a, b)[1..][i] == Plus(a[1..], b[1..])[i]
    {
      assert a[1..][i] == a[i + 1] && b[1..][i] == b[i + 1];
    }
  }

  lemma SquareOfTerm(x: real, y: real)
    ensures (x + y) * (x + y) == x * x + 2.0 * (x * y) + y * y
  {
  }

  /** The square of a sum of vectors. */
  lemma {:induction false} SquareOfSum(a: Vector, b: Vector)
    requires |a| == |b|
    ensures Dot(Plus(a, b), Plus(a, b)) == Dot(a, a) + 2.0 * Dot(a, b) + Dot(b, b)
  {
    if a != [] {
      PlusTail(a, b);
      SquareOfSum(a[1..], b[1..]);
      SquareOfTerm(a[0], b[0]);
    }
  }

  // ----- Cauchy and Schwarz -----

  /** One more coordinate. */
  lemma OneMoreCoordinate(saa: real, sab: real, sbb: real, x: real, y: real)
    requires Schwarz(saa, sab, sbb)
    ensures Schwarz(x * x + saa, x * y + sab, y * y + sbb)
  {
    var p, q := saa * (y * y), sbb * (x * x);
    ZeroSquare(x);
    ZeroSquare(y);
    ProductIsNotNegative(saa, y * y);
    ProductIsNotNegative(sbb, x * x);
    CrossTerm(saa, sab, sbb, x * y, p, q);
    assert (x * y + sab) * (x * y + sab) == (x * y) * (x * y) + 2.0 * (sab * (x * y)) + sab * sab;
    assert (x * x + saa) * (y * y + sbb) == (x * x) * (y * y) + q + p + saa * sbb;
    SquareOfProduct(x, y);
  }

  /** Twice the mixed product is at most p + q, because its square is at most (p + q) squared. */
  lemma CrossTerm(saa: real, sab: real, sbb: real, xy: real, p: real, q: real)
    requires saa >= 0.0 && sbb >= 0.0 && sab * sab <= saa * sbb
    requires p >= 0.0 && q >= 0.0 && p * q == (saa * sbb) * (xy * xy)
    ensures 2.0 * (sab * xy) <= p + q
  {
    var m := sab * xy;
    SquareOfProduct(sab, xy);
    ZeroSquare(xy);
    var gap := saa * sbb - sab * sab;
    ProductIsNotNegative(gap, xy * xy);
    assert gap * (xy * xy) == p * q - m * m;
    ZeroSquare(p - q);
    assert (p - q) * (p - q) == (p + q) * (p + q) - 4.0 * (p * q);
    if m > 0.0 {
      assert (2.0 * m) * (2.0 * m) == 4.0 * (m * m);
      SquaresCompare(2.0 * m, p + q);
    }
  }

  predicate Schwarz(saa: real, sab: real, sbb: real) {
    saa >= 0.0 && sbb >= 0.0 && sab * sab <= saa * sbb
  }

  lemma {:induction false} CauchySchwarz(a: Vector, b: Vector)
    requires |a| == |b|
    ensures Schwarz(Dot(a, a), Dot(a, b), Dot(b, b))
  {
    if a != [] {
      CauchySchwarz(a[1..], b[1..]);
      OneMoreCoordinate(Dot(a[1..], a[1..]), Dot(a[1..], b[1..]), Dot(b[1..], b[1..]), a[0], b[0]);
    }
  }

  // ----- Cosine distance -----

  ghost predicate NonZero(a: Vector) {
    exists i :: 0 <= i < |a| && a[i] != 0.0
  }

  lemma NonZeroIff(a: Vector)
    ensures Dot(a, a) >= 0.0 && (NonZero(a) <==> Dot(a, a) > 0.0)
  {
    SquaresSum(a);
  }

  lemma NormIsPositiveIff(saa: real, sqrt: real -> real)
    requires SquareRoot(sqrt) && saa >= 0.0
    ensures sqrt(saa) >= 0.0 && sqrt(saa) * sqrt(saa) == saa && (sqrt(saa) > 0.0 <==> saa > 0.0)
  {
    ZeroSquare(sqrt(saa));
  }

  lemma DotIsWithinNorms(saa: real, sab: real, sbb: real, n: real, m: real)
    requires n >= 0.0 && m >= 0.0 && n * n == saa && m * m == sbb && sab * sab <= saa * sbb
    ensures -(n * m) <= sab <= n * m
  {
    SquareOfProduct(n, m);
    ProductIsNotNegative(n, m);
    assert sab * sab == (-sab) * (-sab);
    if sab >= 0.0 {
      SquaresCompare(sab, n * m);
    } else {
      SquaresCompare(-sab, n * m);
    }
  }

  lemma QuotientIsWithin(d: real, p: real)
    requires p > 0.0 && -p <= d <= p
    ensures -1.0 <= d / p <= 1.0
  {
    Quotient(d, p);
    var q := d / p;
    if q > 1.0 {
      ProductIsPositive(q - 1.0, p, (q - 1.0) * p);
    } else if q < -1.0 {
      ProductIsPositive(-q - 1.0, p, (-q - 1.0) * p);
    }
  }

  lemma SimilarityIsWithin(saa: real, sab: real, sbb: real, n: real, m: real)
    requires n > 0.0 && m > 0.0 && n * n == saa && m * m == sbb && sab * sab <= saa * sbb
    ensures -1.0 <= Similarity(sab, n, m) <= 1.0
  {
    ProductIsPositive(n, m, n * m);
    DotIsWithinNorms(saa, sab, sbb, n, m);
    QuotientIsWithin(sab, n * m);
  }

  lemma DistanceIsExact(saa: real, sab: real, sbb: real, sqrt: real -> real)
    requires SquareRoot(sqrt) && Schwarz(saa, sab, sbb)
    ensures DistanceOf(saa, sab, sbb, sqrt).Ok? <==> saa > 0.0 && sbb > 0.0
    ensures saa > 0.0 && sbb > 0.0 ==>
              && sqrt(saa) > 0.0 && sqrt(sbb) > 0.0
              && DistanceOf(saa, sab, sbb, sqrt) == Ok(1.0 - Similarity(sab, sqrt(saa), sqrt(sbb)))
              && 0.0 <= DistanceOf(saa, sab, sbb, sqrt).value <= 2.0
  {
    NormIsPositiveIff(saa, sqrt);
    NormIsPositiveIff(sbb, sqrt);
    if saa > 0.0 && sbb > 0.0 {
      SimilarityIsWithin(saa, sab, sbb, sqrt(saa), sqrt(sbb));
    }
  }

  /** The clamp never acts: the distance is one minus the exact cosine and lies between 0 and 2. Only zero vectors and
      vectors of different dimensions have none. */
  lemma CosineIsExact(a: Vector, b: Vector, sqrt: real -> real)
    requires SquareRoot(sqrt)
    ensures CosineDistance(a, b, sqrt).Ok? <==> |a| == |b| && NonZero(a) && NonZero(b)
    ensures |a| == |b| && NonZero(a) && NonZero(b) ==>
              && sqrt(Dot(a, a)) > 0.0 && sqrt(Dot(b, b)) > 0.0
              && CosineDistance(a, b, sqrt) == Ok(1.0 - Similarity(Dot(a, b), sqrt(Dot(a, a)), sqrt(Dot(b, b))))
              && 0.0 <= CosineDistance(a, b, sqrt).value <= 2.0
  {
    if |a| == |b| {
      NonZeroIff(a);
      NonZeroIff(b);
      CauchySchwarz(a, b);
      DistanceIsExact(Dot(a, a), Dot(a, b), Dot(b, b), sqrt);
    }
  }

  /** Neither distance is defined between vectors of different dimensions. */
  lemma DimensionsMustAgree(a: Vector, b: Vector, sqrt: real -> real)
    ensures |a| != |b| <==> L2Distance(a, b, sqrt) == Err(DIMENSIONS)
    ensures |a| != |b| ==> CosineDistance(a, b, sqrt) == Err(DIMENSIONS)
  {
  }

  // ----- Scaling -----

  lemma ScaledRoot(t: real, saa: real, sqrt: real -> real)
    requires SquareRoot(sqrt) && t > 0.0 && saa >= 0.0
    ensures t * (t * saa) >= 0.0 && sqrt(t * (t * saa)) == t * sqrt(saa)
  {
    ProductIsNotNegative(t, saa);
    ProductIsNotNegative(t, t * saa);
    var n := sqrt(saa);
    ProductIsNotNegative(t, n);
    assert (t * n) * (t * n) == t * (t * (n * n));
    SquaresDetermine(sqrt(t * (t * saa)), t * n);
  }

  lemma CancelFactor(t: real, d: real, p: real)
    requires t > 0.0 && p > 0.0
    ensures t * p != 0.0 && (t * d) / (t * p) == d / p
  {
    ProductIsPositive(t, p, t * p);
    Quotient(d, p);
    var q := d / p;
    assert t * d == q * (t * p);
    assert q * (t * p) / (t * p) == q;
  }

  lemma SimilarityOfScaled(t: real, d: real, n: real, m: real)
    requires t > 0.0 && n > 0.0 && m > 0.0
    ensures t * n > 0.0 && Similarity(t * d, t * n, m) == Similarity(d, n, m)
  {
    ProductIsPositive(t, n, t * n);
    ProductIsPositive(n, m, n * m);
    CancelFactor(t, d, n * m);
    assert t * n * m == t * (n * m);
  }

  lemma ScaledDistance(t: real, saa: real, sab: real, sbb: real, taa: real, tab: real, sqrt: real -> real)
    requires SquareRoot(sqrt) && t > 0.0 && saa >= 0.0 && sbb >= 0.0
    requires taa == t * (t * saa) && tab == t * sab
    ensures DistanceOf(taa, tab, sbb, sqrt) == DistanceOf(saa, sab, sbb, sqrt)
  {
    ScaledRoot(t, saa, sqrt);
    NormIsPositiveIff(saa, sqrt);
    NormIsPositiveIff(sbb, sqrt);
    var n, m, u := sqrt(saa), sqrt(sbb), sqrt(taa);
    assert u == t * n;
    if n > 0.0 && m > 0.0 {
      SimilarityOfScaled(t, sab, n, m);
      assert Similarity(tab, u, m) == Similarity(sab, n, m);
    } else if n == 0.0 {
      assert u == 0.0;
    }
  }

  lemma DotsOfScaled(t: real, a: Vector)
    ensures Dot(Scale(t, a), Scale(t, a)) == t * (t * Dot(a, a))
  {
    DotOfScaled(t, a, Scale(t, a));
    DotIsSymmetric(a, Scale(t, a));
    DotOfScaled(t, a, a);
  }

  /** Scaling a vector by a positive factor leaves its cosine distances unchanged. */
  lemma ScalingKeepsCosine(t: real, a: Vector, b: Vector, sqrt: real -> real)
    requires SquareRoot(sqrt) && t > 0.0
    ensures CosineDistance(Scale(t, a), b, sqrt) == CosineDistance(a, b, sqrt)
  {
    if |a| == |b| {
      SquaresSum(a);
      SquaresSum(b);
      DotsOfScaled(t, a);
      DotOfScaled(t, a, b);
      var c := Scale(t, a);
      ScaledDistance(t, Dot(a, a), Dot(a, b), Dot(b, b), Dot(c, c), Dot(c, b), sqrt);
    }
  }

  // ----- Distance zero -----

  lemma ZeroDistanceIff(saa: real, sab: real, sbb: real, sqrt: real -> real)
    requires SquareRoot(sqrt) && saa > 0.0 && sbb > 0.0 && Schwarz(saa, sab, sbb)
    ensures DistanceOf(saa, sab, sbb, sqrt) == Ok(0.0) <==> sab > 0.0 && sab * sab == saa * sbb
  {
    DistanceIsExact(saa, sab, sbb, sqrt);
    NormIsPositiveIff(saa, sqrt);
    NormIsPositiveIff(sbb, sqrt);
    var n, m := sqrt(saa), sqrt(sbb);
    var p := n * m;
    ProductIsPositive(n, m, p);
    SquareOfProduct(n, m);
    Quotient(sab, p);
    assert Similarity(sab, n, m) == sab / p;
    if sab > 0.0 && sab * sab == saa * sbb {
      SquaresDetermine(sab, p);
    }
  }

  /** The discriminant argument at its minimum. */
  lemma Discriminant(saa: real, sab: real, sbb: real, t: real)
    requires saa > 0.0 && sab * sab == saa * sbb && t * saa == -sab
    ensures t * (t * saa) + 2.0 * (t * sab) + sbb == 0.0
  {
    var least := t * (t * saa) + 2.0 * (t * sab) + sbb;
    assert t * (t * saa) == -(t * sab);
    assert saa * (t * sab) == (t * saa) * sab;
    assert saa * least == saa * (t * sab) + saa * sbb;
    if least != 0.0 {
      ProductIsNotZero(saa, least, saa * least);
    }
  }

  lemma OppositeVectors(t: real, a: Vector, b: Vector)
    requires |a| == |b| && t * (t * Dot(a, a)) + 2.0 * (t * Dot(a, b)) + Dot(b, b) == 0.0
    ensures forall i :: 0 <= i < |a| ==> b[i] == -(t * a[i])
  {
    var c := Scale(t, a);
    SquareOfSum(c, b);
    DotsOfScaled(t, a);
    DotOfScaled(t, a, b);
    SquaresSum(Plus(c, b));
    forall i | 0 <= i < |a|
      ensures b[i] == -(t * a[i])
    {
      assert Plus(c, b)[i] == 0.0;
    }
  }

  lemma FactorOf(saa: real, sab: real) returns (t: real)
    requires saa > 0.0 && sab > 0.0
    ensures t > 0.0 && -t * saa == -sab
  {
    t := sab / saa;
    Quotient(sab, saa);
    if t <= 0.0 {
      ProductIsNotNegative(-t, saa);
    }
  }

  /** Equality in Cauchy-Schwarz. */
  lemma Parallel(a: Vector, b: Vector) returns (t: real)
    requires |a| == |b| && Dot(a, a) > 0.0 && Dot(a, b) > 0.0
    requires Dot(a, b) * Dot(a, b) == Dot(a, a) * Dot(b, b)
    ensures t > 0.0 && b == Scale(t, a)
  {
    t := FactorOf(Dot(a, a), Dot(a, b));
    Discriminant(Dot(a, a), Dot(a, b), Dot(b, b), -t);
    OppositeVectors(-t, a, b);
    forall i | 0 <= i < |a|
      ensures b[i] == t * a[i]
    {
      assert -(-t * a[i]) == t * a[i];
    }
  }

  lemma ScaledSquares(t: real, saa: real, sab: real, sbb: real)
    requires t > 0.0 && saa > 0.0 && sab == t * saa && sbb == t * (t * saa)
    ensures sab > 0.0 && sab * sab == saa * sbb
  {
    ProductIsPositive(t, saa, sab);
  }

  lemma ScaledIsParallel(t: real, a: Vector)
    requires t > 0.0 && Dot(a, a) > 0.0
    ensures var b := Scale(t, a); Dot(a, b) > 0.0 && Dot(a, b) * Dot(a, b) == Dot(a, a) * Dot(b, b)
  {
    var b := Scale(t, a);
    DotsOfScaled(t, a);
    DotIsSymmetric(a, b);
    DotOfScaled(t, a, a);
    ScaledSquares(t, Dot(a, a), Dot(a, b), Dot(b, b));
  }

  /** The distance is 0 exactly between vectors of the same direction. */
  lemma {:induction false} ZeroCosineIff(a: Vector, b: Vector, sqrt: real -> real)
    requires SquareRoot(sqrt) && |a| == |b| && NonZero(a) && NonZero(b)
    ensures CosineDistance(a, b, sqrt) == Ok(0.0) <==> exists t :: t > 0.0 && b == Scale(t, a)
  {
    NonZeroIff(a);
    NonZeroIff(b);
    CauchySchwarz(a, b);
    ZeroDistanceIff(Dot(a, a), Dot(a, b), Dot(b, b), sqrt);
    if CosineDistance(a, b, sqrt) == Ok(0.0) {
      var t := Parallel(a, b);
    } else if t :| t > 0.0 && b == Scale(t, a) {
      ScaledIsParallel(t, a);
    }
  }

  // ----- Euclidean distance -----

  lemma RootOfSum(suu: real, suv: real, svv: real, sww: real, sqrt: real -> real)
    requires SquareRoot(sqrt) && Schwarz(suu, suv, svv) && sww >= 0.0 && sww == suu + 2.0 * suv + svv
    ensures sqrt(sww) <= sqrt(suu) + sqrt(svv)
  {
    var n, m := sqrt(suu), sqrt(svv);
    DotIsWithinNorms(suu, suv, svv, n, m);
    SquareOfTerm(n, m);
    SquaresCompare(sqrt(sww), n + m);
  }

  /** The distance of two vectors is never longer than the way over a third. */
  lemma TriangleInequality(a: Vector, b: Vector, c: Vector, sqrt: real -> real)
    requires SquareRoot(sqrt) && |a| == |b| == |c|
    ensures L2Distance(a, c, sqrt).value <= L2Distance(a, b, sqrt).value + L2Distance(b, c, sqrt).value
  {
    var u, v := Minus(a, b), Minus(b, c);
    assert Minus(a, c) == Plus(u, v);
    LengthOfSum(u, v, sqrt);
  }

  lemma LengthOfSum(u: Vector, v: Vector, sqrt: real -> real)
    requires SquareRoot(sqrt) && |u| == |v|
    ensures sqrt(Dot(Plus(u, v), Plus(u, v))) <= sqrt(Dot(u, u)) + sqrt(Dot(v, v))
  {
    SquaresSum(Plus(u, v));
    SquareOfSum(u, v);
    CauchySchwarz(u, v);
    RootOfSum(Dot(u, u), Dot(u, v), Dot(v, v), Dot(Plus(u, v), Plus(u, v)), sqrt);
  }

  lemma {:induction false} DotOfNegated(a: Vector, b: Vector)
    requires |a| == |b| && forall i :: 0 <= i < |a| ==> b[i] == -a[i]
    ensures Dot(b, b) == Dot(a, a)
  {
    if a != [] {
      DotOfNegated(a[1..], b[1..]);
      assert b[0] * b[0] == a[0] * a[0];
    }
  }

  /** It is not negative, zero exactly between equal vectors, and the same in both directions. */
  lemma DistanceIsMetric(a: Vector, b: Vector, sqrt: real -> real)
    requires SquareRoot(sqrt) && |a| == |b|
    ensures L2Distance(a, b, sqrt).value >= 0.0
    ensures L2Distance(a, b, sqrt).value == 0.0 <==> a == b
    ensures L2Distance(a, b, sqrt) == L2Distance(b, a, sqrt)
  {
    var u := Minus(a, b);
    SquaresSum(u);
    NormIsPositiveIff(Dot(u, u), sqrt);
    if a != b {
      var i :| 0 <= i < |a| && a[i] != b[i];
      assert u[i] != 0.0;
    }
    DotOfNegated(u, Minus(b, a));
  }
}
