/** Real-valued vectors: the dot product, squared Euclidean distance, and the
    square root, which is taken as a parameter `sqrt` because `Math.sqrt` is a
    library function. Where a proof needs it, `SqrtLaw(sqrt)` states what a
    square root is. */
module Vectors {

  type Point = seq<real>

  /** `sqrt` returns the non-negative root of every non-negative real. */
  ghost predicate SqrtLaw(sqrt: real -> real) {
    forall x :: 0.0 <= x ==> 0.0 <= sqrt(x) && Mul(sqrt(x), sqrt(x)) == x
  }

  /** Real multiplication, named so that proofs can treat products as terms. */
  function Mul(x: real, y: real): real {
    x * y
  }

  /** `a.reduce((sum, val, i) => sum + val * b[i], 0)` for equal lengths. */
  function Dot(a: Point, b: Point): real
    requires |a| == |b|
  {
    if a == [] then 0.0 else Mul(a[0], b[0]) + Dot(a[1..], b[1..])
  }

  /** `a.reduce((sum, val, i) => sum + Math.pow(val - b[i], 2), 0)` */
  function SqDist(a: Point, b: Point): (r: real)
    requires |a| == |b|
    ensures r >= 0.0
  {
    if a == [] then 0.0 else Mul(a[0] - b[0], a[0] - b[0]) + SqDist(a[1..], b[1..])
  }

  /** `distance(a, b)`: the Euclidean distance. */
  function Distance(sqrt: real -> real, a: Point, b: Point): real
    requires |a| == |b|
  {
    sqrt(SqDist(a, b))
  }

  lemma {:induction false} DotSymmetric(a: Point, b: Point)
    requires |a| == |b|
    ensures Dot(a, b) == Dot(b, a)
  {
    if a != [] {
      DotSymmetric(a[1..], b[1..]);
    }
  }

  /** A vector's dot product with itself is zero exactly for the zero vector. */
  lemma {:induction false} DotSelf(a: Point)
    ensures Dot(a, a) >= 0.0
    ensures Dot(a, a) == 0.0 <==> forall i :: 0 <= i < |a| ==> a[i] == 0.0
  {
    if a != [] {
      var t := a[1..];
      DotSelf(t);
      SquarePositive(a[0]);
      assert Dot(a, a) == Mul(a[0], a[0]) + Dot(t, t);
      assert forall i :: 0 <= i < |t| ==> t[i] == a[i + 1];
      if a[0] != 0.0 {
        assert Dot(a, a) > 0.0;
      } else if Dot(t, t) != 0.0 {
        var j :| 0 <= j < |t| && t[j] != 0.0;
        assert a[j + 1] != 0.0;
      } else {
        assert forall i :: 1 <= i < |a| ==> a[i] == t[i - 1];
      }
    }
  }

  /** A product of two numbers of the same strict sign is positive. */
  lemma MulPositive(x: real, y: real)
    requires (x > 0.0 && y > 0.0) || (x < 0.0 && y < 0.0)
    ensures Mul(x, y) > 0.0
  {
    if x < 0.0 {
      assert Mul(x, y) == (-x) * (-y);
    }
  }

  lemma SquarePositive(x: real)
    ensures Mul(x, x) >= 0.0
    ensures x != 0.0 ==> Mul(x, x) > 0.0
  {
    if x != 0.0 {
      MulPositive(x, x);
    }
  }

  lemma {:induction false} SqDistSelf(a: Point)
    ensures SqDist(a, a) == 0.0
  {
    if a != [] {
      SqDistSelf(a[1..]);
    }
  }

  /** Multiplying by a non-negative number keeps order; by a positive one, strict order. */
  /** Two different points of one dimension are at a positive squared
      distance. */
  lemma {:induction false} SqDistPositive(a: Point, b: Point)
    requires |a| == |b| && a != b
    ensures SqDist(a, b) > 0.0
  {
    if a[0] != b[0] {
      SquarePositive(a[0] - b[0]);
    } else {
      assert a[1..] != b[1..] by {
        assert a == [a[0]] + a[1..] && b == [b[0]] + b[1..];
      }
      SqDistPositive(a[1..], b[1..]);
      SquarePositive(a[0] - b[0]);
    }
  }

  lemma MulMonotone(c: real, x: real, y: real)
    requires 0.0 <= c && x <= y
    ensures Mul(c, x) <= Mul(c, y)
    ensures 0.0 < c && x < y ==> Mul(c, x) < Mul(c, y)
  {
    assert Mul(c, y) - Mul(c, x) == c * (y - x);
    if 0.0 < c && x < y {
      MulPositive(c, y - x);
    }
  }

  /** For a square root, comparing distances is comparing squared distances. */
  lemma SqrtMonotone(sqrt: real -> real, x: real, y: real)
    requires SqrtLaw(sqrt)
    requires 0.0 <= x && 0.0 <= y
    ensures sqrt(x) < sqrt(y) <==> x < y
  {
    var sx, sy := sqrt(x), sqrt(y);
    assert 0.0 <= sx && Mul(sx, sx) == x;
    assert 0.0 <= sy && Mul(sy, sy) == y;
    if sx < sy {
      MulMonotone(sx, sx, sy);
      MulMonotone(sy, sx, sy);
      assert Mul(sx, sy) == Mul(sy, sx);
    } else {
      MulMonotone(sy, sy, sx);
      MulMonotone(sx, sy, sx);
      assert Mul(sx, sy) == Mul(sy, sx);
    }
  }

  /** `Math.sqrt(a.reduce((sum, val) => sum + val * val, 0))` */
  function Magnitude(sqrt: real -> real, a: Point): real {
    sqrt(Dot(a, a))
  }

  /** `cosineSimilarity(a, b)`; the product of magnitudes must not be zero
      (a zero product gives NaN or an infinity in floating point). */
  function Cosine(sqrt: real -> real, a: Point, b: Point): real
    requires |a| == |b|
    requires Mul(Magnitude(sqrt, a), Magnitude(sqrt, b)) != 0.0
  {
    Dot(a, b) / Mul(Magnitude(sqrt, a), Magnitude(sqrt, b))
  }

  /** Under a square root, the product of magnitudes of non-zero vectors is
      positive, so the cosine is defined. */
  lemma MagnitudesPositive(sqrt: real -> real, a: Point, b: Point)
    requires SqrtLaw(sqrt)
    requires exists i :: 0 <= i < |a| && a[i] != 0.0
    requires exists i :: 0 <= i < |b| && b[i] != 0.0
    ensures Mul(Magnitude(sqrt, a), Magnitude(sqrt, b)) > 0.0
  {
    DotSelf(a);
    DotSelf(b);
    var ma, mb := Magnitude(sqrt, a), Magnitude(sqrt, b);
    assert Mul(ma, ma) == Dot(a, a) > 0.0;
    assert Mul(mb, mb) == Dot(b, b) > 0.0;
    assert ma != 0.0 && mb != 0.0;
    MulPositive(ma, mb);
  }

  lemma CosineSymmetric(sqrt: real -> real, a: Point, b: Point)
    requires |a| == |b|
    requires Mul(Magnitude(sqrt, a), Magnitude(sqrt, b)) != 0.0
    ensures Mul(Magnitude(sqrt, b), Magnitude(sqrt, a)) != 0.0
    ensures Cosine(sqrt, a, b) == Cosine(sqrt, b, a)
  {
    DotSymmetric(a, b);
  }

  /** A non-zero vector has cosine 1 with itself. */
  lemma CosineSelf(sqrt: real -> real, a: Point)
    requires SqrtLaw(sqrt)
    requires exists i :: 0 <= i < |a| && a[i] != 0.0
    ensures Mul(Magnitude(sqrt, a), Magnitude(sqrt, a)) != 0.0
    ensures Cosine(sqrt, a, a) == 1.0
  {
    MagnitudesPositive(sqrt, a, a);
    DotSelf(a);
    var m, d := Magnitude(sqrt, a), Dot(a, a);
    assert Mul(m, m) == d && d > 0.0;
    assert Cosine(sqrt, a, a) == d / d;
    DivSelf(d);
  }

  lemma DivSelf(x: real)
    requires x != 0.0
    ensures x / x == 1.0
  {
  }
}
