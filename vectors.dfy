/** Three-component vectors (src/vec3.rs), over the reals.
    The same type serves as point, direction and unclamped colour. */
module Vectors {

  datatype Vec3 = Vec3(x: real, y: real, z: real)

  /** `Vec3::new`; the getters `x()`, `y()`, `z()` are the datatype's destructors. */
  function New(x: real, y: real, z: real): (v: Vec3)
    ensures v.x == x && v.y == y && v.z == z
  {
    Vec3(x, y, z)
  }

  function Zero(): Vec3 { Vec3(0.0, 0.0, 0.0) }

  /** `f32::sqrt` is a platform intrinsic: callers pass it in, and the members whose
      guarantees depend on what it computes require that it is a square root. */
  ghost predicate IsSqrt(sqrt: real -> real)
  {
    forall x :: 0.0 <= x ==> 0.0 <= sqrt(x) && sqrt(x) * sqrt(x) == x
  }

  function LengthSquared(v: Vec3): real
  {
    (v.x * v.x) + (v.y * v.y) + (v.z * v.z)
  }

  function Length(v: Vec3, sqrt: real -> real): real
  {
    sqrt(LengthSquared(v))
  }

  function Dot(a: Vec3, b: Vec3): real
  {
    (a.x * b.x) + (a.y * b.y) + (a.z * b.z)
  }

  /** `Vec3::dot_product`, the associated-function spelling of `dot`. */
  function DotProduct(first: Vec3, other: Vec3): real
  {
    (first.x * other.x) + (first.y * other.y) + (first.z * other.z)
  }

  /** `a + b` (every owned/borrowed combination of operands computes the same). */
  function Add(a: Vec3, b: Vec3): Vec3
  {
    Vec3(a.x + b.x, a.y + b.y, a.z + b.z)
  }

  /** `a - b` */
  function Sub(a: Vec3, b: Vec3): Vec3
  {
    Vec3(a.x - b.x, a.y - b.y, a.z - b.z)
  }

  /** `s * v`, scalar on the left */
  function ScalarMul(s: real, v: Vec3): Vec3
  {
    Vec3(s * v.x, s * v.y, s * v.z)
  }

  /** `v * s`, scalar on the right */
  function MulScalar(v: Vec3, s: real): Vec3
  {
    Vec3(v.x * s, v.y * s, v.z * s)
  }

  /** `-v` */
  function Neg(v: Vec3): Vec3
  {
    Vec3(-v.x, -v.y, -v.z)
  }

  /** `s / v`: as written this is `(1 / s) * v`, not a component-wise quotient. */
  function ScalarDiv(s: real, v: Vec3): Vec3
    requires s != 0.0
  {
    ScalarMul(1.0 / s, v)
  }

  /** `v / s` = `(1 / s) * v` */
  function DivScalar(v: Vec3, s: real): Vec3
    requires s != 0.0
  {
    ScalarMul(1.0 / s, v)
  }

  /** `Vec3::unit_vector(v)` = `v.length() / v`. */
  function UnitVector(v: Vec3, sqrt: real -> real): (u: Vec3)
    requires IsSqrt(sqrt) && 0.0 < LengthSquared(v)
    ensures LengthSquared(u) == 1.0
    ensures exists k :: 0.0 < k && u == ScalarMul(k, v)
  {
    var len := Length(v, sqrt);
    var u := ScalarDiv(len, v);
    assert LengthSquared(u) == (1.0 / len) * (1.0 / len) * LengthSquared(v) by {
      LengthSquaredScale(1.0 / len, v);
    }
    assert (1.0 / len) * (1.0 / len) * (len * len) == 1.0;
    assert 0.0 < 1.0 / len && u == ScalarMul(1.0 / len, v);
    u
  }

  /** The ray tracer's `Vec3::ONE` (referenced by the source, defined nowhere in it). */
  function One(): Vec3 { Vec3(1.0, 1.0, 1.0) }

  // ---------------------------------------------------------------------------
  // Algebraic laws of the operators

  lemma LengthSquaredScale(s: real, v: Vec3)
    ensures LengthSquared(ScalarMul(s, v)) == s * s * LengthSquared(v)
  {
  }

  /** The squared length is the dot product of a vector with itself and never negative. */
  lemma LengthSquaredNonNegative(v: Vec3)
    ensures LengthSquared(v) == Dot(v, v)
    ensures 0.0 <= LengthSquared(v)
  {
  }

  /** `a + b` is component-wise; the worked example of the source's test. */
  lemma AddComponents(a: Vec3, b: Vec3)
    ensures Add(a, b) == Add(b, a)
    ensures Sub(Add(a, b), b) == a
    ensures Add(Vec3(-10.0, 0.0, 25.0), Vec3(-10.0, 0.0, 25.0)) == Vec3(-20.0, 0.0, 50.0)
  {
  }

  /** `v - v` is the zero vector, and subtraction undoes addition. */
  lemma SubSelf(a: Vec3, b: Vec3)
    ensures Sub(a, a) == Zero()
    ensures Add(Sub(a, b), b) == a
    ensures Sub(a, b) == Add(a, Neg(b))
  {
  }

  /** Scalar multiplication on the left and on the right agree. */
  lemma MulCommutes(s: real, v: Vec3)
    ensures ScalarMul(s, v) == MulScalar(v, s)
    ensures MulScalar(Vec3(-10.0, 0.0, 25.0), 2.5) == Vec3(-25.0, 0.0, 62.5)
  {
  }

  /** `dot` and `dot_product` agree; the dot product is symmetric and bilinear. */
  lemma DotLaws(a: Vec3, b: Vec3, c: Vec3, s: real)
    ensures Dot(a, b) == DotProduct(a, b) == Dot(b, a)
    ensures Dot(Add(a, b), c) == Dot(a, c) + Dot(b, c)
    ensures Dot(ScalarMul(s, a), b) == s * Dot(a, b)
    ensures Dot(a, Neg(b)) == -Dot(a, b)
    ensures Dot(Vec3(1.0, 10.0, -25.0), Vec3(12.1, -52.2, 0.0)) == -509.9
  {
  }

  /** Negation flips every component and is an involution. */
  lemma NegLaws(v: Vec3)
    ensures Neg(v) == ScalarMul(-1.0, v)
    ensures Neg(Neg(v)) == v
    ensures Add(v, Neg(v)) == Zero()
    ensures LengthSquared(Neg(v)) == LengthSquared(v)
  {
  }

  /** Both `v / s` and `s / v` evaluate to `(1/s) * v`, and dividing undoes scaling. */
  lemma DivLaws(v: Vec3, s: real)
    requires s != 0.0
    ensures DivScalar(v, s) == ScalarDiv(s, v) == ScalarMul(1.0 / s, v)
    ensures ScalarMul(s, DivScalar(v, s)) == v
  {
  }

  // ---------------------------------------------------------------------------
  // Facts about real arithmetic used by the geometric proofs

  lemma SquareNonNegative(m: real)
    ensures 0.0 <= m * m
  {
    if m < 0.0 { assert (-m) * (-m) == m * m; }
  }

  lemma ProductZero(x: real, y: real)
    requires x * y == 0.0
    ensures x == 0.0 || y == 0.0
  {
    if x != 0.0 {
      assert y == (x * y) / x;
    }
  }

  /** A square root of a square is the non-negative base. */
  lemma SqrtOfSquare(sqrt: real -> real, y: real)
    requires IsSqrt(sqrt) && 0.0 <= y
    ensures sqrt(y * y) == y
  {
    SquareNonNegative(y);
    var r := sqrt(y * y);
    assert (r - y) * (r + y) == r * r - y * y;
    ProductZero(r - y, r + y);
  }
}
