/** Ray-sphere intersection (src/sphere.rs). */
module Spheres {
  import opened Vectors
  import opened Rays
  import opened Options
  import opened Hittables

  datatype Sphere = Sphere(center: Vec3, radius: real)
  {
    /** `Hittable for Sphere::hit`: solves the ray-sphere quadratic, tries the smaller
        root and then the larger one, and on success writes `t`, `point`, `normal` and
        `front_face` into the record; the record's material is never written. On a
        miss the record is left as it was. */
    method Hit(ray: Ray, tMin: real, tMax: Bound, rec: HitRecord, sqrt: real -> real)
      returns (hit: bool)
      requires 0.0 < LengthSquared(ray.direction) && radius != 0.0
      modifies rec`t, rec`point, rec`frontFace, rec`normal
      ensures (hit, rec.Value()) == HitOutcome(this, ray, tMin, tMax, old(rec.Value()), sqrt)
      ensures hit <==> SelectRoot(this, ray, tMin, tMax, sqrt).Some?
      ensures hit ==> rec.t == SelectRoot(this, ray, tMin, tMax, sqrt).value
      ensures !hit ==> rec.Value() == old(rec.Value())
    {
      var oc := Sub(ray.origin, center);
      var a := LengthSquared(ray.direction);
      var halfB := DotProduct(oc, ray.direction);
      var c := LengthSquared(oc) - (radius * radius);
      var discriminant := (halfB * halfB) - (a * c);
      assert discriminant == Discriminant(this, ray);

      if discriminant < 0.0 {
        return false;
      }

      var sqrtd := sqrt(discriminant);

      // Find the nearest root that lies in the acceptable range.
      var root := (-halfB - sqrtd) / a;
      if root < tMin || tMax.Below(root) {
        root := (-halfB + sqrtd) / a;
        assert root == FarRoot(this, ray, sqrt);
        if root < tMin || tMax.Below(root) {
          return false;
        }
      }

      rec.t := root;
      rec.point := At(ray, rec.t);
      var outwardNormal := DivScalar(Sub(rec.point, center), radius);
      rec.SetFaceNormal(ray, outwardNormal);

      hit := true;
    }
  }

  /** `Sphere::new(center, radius)` */
  function New(center: Vec3, radius: real): (s: Sphere)
    ensures s.center == center && s.radius == radius
  {
    Sphere(center, radius)
  }

  // ---------------------------------------------------------------------------
  // The quadratic  a·t² + 2·half_b·t + c = 0  of a ray against a sphere

  function A(ray: Ray): real
  {
    LengthSquared(ray.direction)
  }

  function HalfB(s: Sphere, ray: Ray): real
  {
    DotProduct(Sub(ray.origin, s.center), ray.direction)
  }

  function C(s: Sphere, ray: Ray): real
  {
    LengthSquared(Sub(ray.origin, s.center)) - s.radius * s.radius
  }

  function Discriminant(s: Sphere, ray: Ray): real
  {
    HalfB(s, ray) * HalfB(s, ray) - A(ray) * C(s, ray)
  }

  /** The smaller root `(-half_b - sqrtd) / a` ... */
  function NearRoot(s: Sphere, ray: Ray, sqrt: real -> real): real
    requires 0.0 < A(ray)
  {
    (-HalfB(s, ray) - sqrt(Discriminant(s, ray))) / A(ray)
  }

  /** ... and the larger root `(-half_b + sqrtd) / a`. */
  function FarRoot(s: Sphere, ray: Ray, sqrt: real -> real): real
    requires 0.0 < A(ray)
  {
    (-HalfB(s, ray) + sqrt(Discriminant(s, ray))) / A(ray)
  }

  /** The root that `hit` accepts, if any. */
  function SelectRoot(s: Sphere, ray: Ray, tMin: real, tMax: Bound, sqrt: real -> real)
    : (r: Option<real>)
    requires 0.0 < A(ray)
    ensures r.Some? ==> InRange(tMin, tMax, r.value)
    ensures Discriminant(s, ray) < 0.0 ==> r == None
  {
    if Discriminant(s, ray) < 0.0 then None
    else if InRange(tMin, tMax, NearRoot(s, ray, sqrt)) then Some(NearRoot(s, ray, sqrt))
    else if InRange(tMin, tMax, FarRoot(s, ray, sqrt)) then Some(FarRoot(s, ray, sqrt))
    else None
  }

  /** The record after a successful hit at `t`: `t`, the point `ray.at(t)` and the face
      normal derived from the outward normal `(point - center) / radius`. */
  function RecordHit(rec: Record, s: Sphere, ray: Ray, t: real): (r: Record)
    requires s.radius != 0.0
    ensures r.t == t && r.point == At(ray, t) && r.material == rec.material
    ensures r.normal == DivScalar(Sub(At(ray, t), s.center), s.radius)
         || r.normal == Neg(DivScalar(Sub(At(ray, t), s.center), s.radius))
  {
    var p := At(ray, t);
    WithFaceNormal(rec.(t := t, point := p), ray, DivScalar(Sub(p, s.center), s.radius))
  }

  /** The normal written on a hit opposes the ray. */
  lemma RecordHitOpposesRay(rec: Record, s: Sphere, ray: Ray, t: real)
    requires s.radius != 0.0
    ensures Dot(ray.direction, RecordHit(rec, s, ray, t).normal) <= 0.0
  {
    FaceNormalOpposesRay(ray.direction, DivScalar(Sub(At(ray, t), s.center), s.radius));
  }

  /** What `hit` returns, and the record it leaves behind. */
  function HitOutcome(s: Sphere, ray: Ray, tMin: real, tMax: Bound, rec: Record,
                      sqrt: real -> real): (r: (bool, Record))
    requires 0.0 < A(ray) && s.radius != 0.0
    ensures !r.0 ==> r.1 == rec
    ensures r.1.material == rec.material
    ensures r.0 ==> InRange(tMin, tMax, r.1.t) && r.1.point == At(ray, r.1.t)
  {
    match SelectRoot(s, ray, tMin, tMax, sqrt)
    case None => (false, rec)
    case Some(t) => (true, RecordHit(rec, s, ray, t))
  }

  // ---------------------------------------------------------------------------
  // What the selected root means

  predicate OnSphere(s: Sphere, p: Vec3)
  {
    LengthSquared(Sub(p, s.center)) == s.radius * s.radius
  }

  /** The smaller root is taken whenever it is in range; the larger root only when the
      smaller one is not. */
  lemma SelectRootOrder(s: Sphere, ray: Ray, tMin: real, tMax: Bound, sqrt: real -> real)
    requires 0.0 < A(ray) && 0.0 <= Discriminant(s, ray)
    ensures InRange(tMin, tMax, NearRoot(s, ray, sqrt))
            ==> SelectRoot(s, ray, tMin, tMax, sqrt) == Some(NearRoot(s, ray, sqrt))
    ensures !InRange(tMin, tMax, NearRoot(s, ray, sqrt))
            ==> SelectRoot(s, ray, tMin, tMax, sqrt)
                == if InRange(tMin, tMax, FarRoot(s, ray, sqrt)) then Some(FarRoot(s, ray, sqrt))
                   else None
  {
  }

  /** Squared distance from the centre along the ray, as a polynomial in `t`. */
  lemma QuadraticAlongRay(s: Sphere, ray: Ray, t: real)
    ensures LengthSquared(Sub(At(ray, t), s.center)) - s.radius * s.radius
         == A(ray) * t * t + 2.0 * HalfB(s, ray) * t + C(s, ray)
  {
    var o := Sub(ray.origin, s.center);
    var d := ray.direction;
    var q := Sub(At(ray, t), s.center);
    assert q == Vec3(o.x + t * d.x, o.y + t * d.y, o.z + t * d.z);
    assert q.x * q.x == o.x * o.x + 2.0 * t * (o.x * d.x) + t * t * (d.x * d.x);
    assert q.y * q.y == o.y * o.y + 2.0 * t * (o.y * d.y) + t * t * (d.y * d.y);
    assert q.z * q.z == o.z * o.z + 2.0 * t * (o.z * d.z) + t * t * (d.z * d.z);
  }

  /** A quadratic with negative discriminant has no real root ... */
  lemma NoRealRoot(a: real, halfB: real, c: real, t: real)
    requires 0.0 < a && halfB * halfB - a * c < 0.0
    ensures a * t * t + 2.0 * halfB * t + c != 0.0
  {
    var m := a * t + halfB;
    var q := a * t * t + 2.0 * halfB * t + c;
    assert a * q == m * m - (halfB * halfB - a * c);
    SquareNonNegative(m);
  }

  /** ... and otherwise its roots are exactly `(-half_b ± sqrtd) / a`. */
  lemma RealRoots(a: real, halfB: real, c: real, t: real, sqrtd: real)
    requires 0.0 < a && 0.0 <= sqrtd && sqrtd * sqrtd == halfB * halfB - a * c
    ensures a * t * t + 2.0 * halfB * t + c == 0.0
            <==> (t == (-halfB - sqrtd) / a || t == (-halfB + sqrtd) / a)
  {
    var m := a * t + halfB;
    var q := a * t * t + 2.0 * halfB * t + c;
    assert a * q == (m - sqrtd) * (m + sqrtd);
    assert t == (-halfB - sqrtd) / a <==> m == -sqrtd;
    assert t == (-halfB + sqrtd) / a <==> m == sqrtd;
    if q == 0.0 {
      ProductZero(m - sqrtd, m + sqrtd);
    }
  }

  /** The ray meets the sphere at `t` exactly when `t` is one of the two roots `hit`
      computes (and there are none when the discriminant is negative). */
  lemma OnSphereIffRoot(s: Sphere, ray: Ray, t: real, sqrt: real -> real)
    requires IsSqrt(sqrt) && 0.0 < A(ray)
    ensures OnSphere(s, At(ray, t))
            <==> 0.0 <= Discriminant(s, ray)
                 && (t == NearRoot(s, ray, sqrt) || t == FarRoot(s, ray, sqrt))
  {
    var a, halfB, c, disc := A(ray), HalfB(s, ray), C(s, ray), Discriminant(s, ray);
    var q := a * t * t + 2.0 * halfB * t + c;
    QuadraticAlongRay(s, ray, t);
    assert OnSphere(s, At(ray, t)) <==> q == 0.0;
    if disc < 0.0 {
      NoRealRoot(a, halfB, c, t);
    } else {
      var sqrtd := sqrt(disc);
      assert 0.0 <= sqrtd && sqrtd * sqrtd == disc;
      RealRoots(a, halfB, c, t, sqrtd);
    }
  }

  /** `(-half_b - sqrtd) / a` is indeed the smaller root. */
  lemma RootsOrdered(s: Sphere, ray: Ray, sqrt: real -> real)
    requires IsSqrt(sqrt) && 0.0 < A(ray) && 0.0 <= Discriminant(s, ray)
    ensures NearRoot(s, ray, sqrt) <= FarRoot(s, ray, sqrt)
  {
    var sqrtd := sqrt(Discriminant(s, ray));
    assert FarRoot(s, ray, sqrt) - NearRoot(s, ray, sqrt) == 2.0 * sqrtd / A(ray);
  }

  /** `hit` finds the nearest point of the sphere along the ray within [t_min, t_max],
      and reports a miss exactly when there is no such point. */
  lemma SelectRootIsNearest(s: Sphere, ray: Ray, tMin: real, tMax: Bound, sqrt: real -> real)
    requires IsSqrt(sqrt) && 0.0 < A(ray)
    ensures SelectRoot(s, ray, tMin, tMax, sqrt).Some? ==>
              var t := SelectRoot(s, ray, tMin, tMax, sqrt).value;
              OnSphere(s, At(ray, t)) &&
              forall t' :: InRange(tMin, tMax, t') && OnSphere(s, At(ray, t')) ==> t <= t'
    ensures SelectRoot(s, ray, tMin, tMax, sqrt).None? <==>
              forall t' :: InRange(tMin, tMax, t') ==> !OnSphere(s, At(ray, t'))
  {
    var r := SelectRoot(s, ray, tMin, tMax, sqrt);
    forall t' | InRange(tMin, tMax, t') && OnSphere(s, At(ray, t'))
      ensures r.Some? && r.value <= t'
    {
      OnSphereIffRoot(s, ray, t', sqrt);
      RootsOrdered(s, ray, sqrt);
    }
    if r.Some? {
      OnSphereIffRoot(s, ray, r.value, sqrt);
    }
  }

  /** The normal stored on a hit has unit length, since the hit point lies on the
      sphere and the outward normal is `(point - center) / radius`. */
  lemma HitNormalIsUnit(s: Sphere, ray: Ray, tMin: real, tMax: Bound, rec: Record,
                        sqrt: real -> real)
    requires IsSqrt(sqrt) && 0.0 < A(ray) && s.radius != 0.0
    requires SelectRoot(s, ray, tMin, tMax, sqrt).Some?
    ensures LengthSquared(HitOutcome(s, ray, tMin, tMax, rec, sqrt).1.normal) == 1.0
  {
    var t := SelectRoot(s, ray, tMin, tMax, sqrt).value;
    SelectRootIsNearest(s, ray, tMin, tMax, sqrt);
    var d := Sub(At(ray, t), s.center);
    assert LengthSquared(d) == s.radius * s.radius;
    var k := 1.0 / s.radius;
    LengthSquaredScale(k, d);
    assert k * k * (s.radius * s.radius) == 1.0;
    NegLaws(ScalarMul(k, d));
  }

  lemma QuadraticIs(s: Sphere, ray: Ray, a: real, halfB: real, c: real)
    requires A(ray) == a && HalfB(s, ray) == halfB && C(s, ray) == c
    ensures Discriminant(s, ray) == halfB * halfB - a * c
  {
  }

  lemma NearRootIs(s: Sphere, ray: Ray, sqrt: real -> real, a: real, halfB: real,
                    discriminant: real, sqrtd: real)
    requires 0.0 < A(ray) && A(ray) == a && HalfB(s, ray) == halfB
    requires Discriminant(s, ray) == discriminant && sqrt(discriminant) == sqrtd
    ensures NearRoot(s, ray, sqrt) == (-halfB - sqrtd) / a
  {
  }

  /** For a sphere whose centre lies on a unit-length ray at distance `d` beyond the
      origin, a = 1, half_b = -d and the discriminant is the squared radius. */
  lemma SphereAheadQuadratic(s: Sphere, ray: Ray, d: real)
    requires LengthSquared(ray.direction) == 1.0
    requires s.center == Add(ray.origin, ScalarMul(d, ray.direction))
    ensures A(ray) == 1.0 && HalfB(s, ray) == -d
    ensures Discriminant(s, ray) == s.radius * s.radius
  {
    var u := ray.direction;
    var r := s.radius;
    assert Sub(ray.origin, s.center) == ScalarMul(-d, u);
    DotLaws(u, u, u, -d);
    LengthSquaredNonNegative(u);
    LengthSquaredScale(-d, u);
    assert C(s, ray) == d * d - r * r;
    QuadraticIs(s, ray, 1.0, -d, d * d - r * r);
  }

  /** With a = 1 and discriminant `r²`, the nearer root is `-half_b - r`, accepted by
      [0, ∞) when it is not negative. */
  lemma RootWithUnitA(s: Sphere, ray: Ray, sqrt: real -> real, halfB: real, r: real)
    requires A(ray) == 1.0 && HalfB(s, ray) == halfB
    requires Discriminant(s, ray) == r * r && sqrt(r * r) == r
    requires 0.0 <= r <= -halfB
    ensures SelectRoot(s, ray, 0.0, Infinity, sqrt) == Some(-halfB - r)
  {
    NearRootIs(s, ray, sqrt, 1.0, halfB, r * r, r);
    SelectRootOrder(s, ray, 0.0, Infinity, sqrt);
  }

  /** A sphere whose centre lies on a unit-length ray at distance `d` beyond the origin,
      with radius `r <= d`, is first met at distance `d - r`. */
  lemma SphereAhead(s: Sphere, ray: Ray, sqrt: real -> real, d: real)
    requires LengthSquared(ray.direction) == 1.0
    requires s.center == Add(ray.origin, ScalarMul(d, ray.direction))
    requires 0.0 < s.radius <= d
    requires sqrt(s.radius * s.radius) == s.radius
    ensures 0.0 < A(ray)
    ensures SelectRoot(s, ray, 0.0, Infinity, sqrt) == Some(d - s.radius)
  {
    SphereAheadQuadratic(s, ray, d);
    RootWithUnitA(s, ray, sqrt, -d, s.radius);
  }

  /** A unit-ray scene: a ray from the origin down the negative z axis
      meets the sphere of radius 0.5 centred at (0, 0, -1) at t = 0.5 (the only square
      root taken is that of 0.25) ... */
  lemma StraightAheadRoot(s: Sphere, ray: Ray, sqrt: real -> real)
    requires s == Sphere(Vec3(0.0, 0.0, -1.0), 0.5)
    requires ray == Ray(Zero(), Vec3(0.0, 0.0, -1.0))
    requires sqrt(0.25) == 0.5
    ensures 0.0 < A(ray) && s.radius != 0.0
    ensures SelectRoot(s, ray, 0.0, Infinity, sqrt) == Some(0.5)
  {
    SphereAhead(s, ray, sqrt, 1.0);
  }

  /** The record written at `t` when the ray reaches `p` there, the outward normal at
      `p` is `n` and the ray runs against `n`. */
  lemma RecordHitAgainst(rec: Record, s: Sphere, ray: Ray, t: real, p: Vec3, n: Vec3)
    requires s.radius != 0.0
    requires At(ray, t) == p && DivScalar(Sub(p, s.center), s.radius) == n
    requires Dot(ray.direction, n) < 0.0
    ensures RecordHit(rec, s, ray, t) == rec.(t := t, point := p, frontFace := true, normal := n)
  {
  }

  lemma StraightAheadPoint(s: Sphere, ray: Ray)
    requires s == Sphere(Vec3(0.0, 0.0, -1.0), 0.5)
    requires ray == Ray(Zero(), Vec3(0.0, 0.0, -1.0))
    ensures s.radius == 0.5
    ensures At(ray, 0.5) == Vec3(0.0, 0.0, -0.5)
    ensures DivScalar(Sub(Vec3(0.0, 0.0, -0.5), s.center), s.radius) == Vec3(0.0, 0.0, 1.0)
    ensures ray.direction == Vec3(0.0, 0.0, -1.0)
  {
    assert Sub(Vec3(0.0, 0.0, -0.5), s.center) == Vec3(0.0, 0.0, 0.5);
  }

  lemma RecordAtHalf(rec: Record, s: Sphere, ray: Ray)
    requires s.radius == 0.5 && ray.direction == Vec3(0.0, 0.0, -1.0)
    requires At(ray, 0.5) == Vec3(0.0, 0.0, -0.5)
    requires DivScalar(Sub(Vec3(0.0, 0.0, -0.5), s.center), s.radius) == Vec3(0.0, 0.0, 1.0)
    ensures RecordHit(rec, s, ray, 0.5)
         == rec.(t := 0.5, point := Vec3(0.0, 0.0, -0.5), frontFace := true,
                 normal := Vec3(0.0, 0.0, 1.0))
  {
    assert Dot(Vec3(0.0, 0.0, -1.0), Vec3(0.0, 0.0, 1.0)) == -1.0;
    RecordHitAgainst(rec, s, ray, 0.5, Vec3(0.0, 0.0, -0.5), Vec3(0.0, 0.0, 1.0));
  }

  /** ... and writes the point (0, 0, -0.5), the front face and the normal (0, 0, 1). */
  lemma StraightAheadRecord(s: Sphere, ray: Ray, rec: Record)
    requires s == Sphere(Vec3(0.0, 0.0, -1.0), 0.5)
    requires ray == Ray(Zero(), Vec3(0.0, 0.0, -1.0))
    ensures RecordHit(rec, s, ray, 0.5)
         == rec.(t := 0.5, point := Vec3(0.0, 0.0, -0.5), frontFace := true,
                 normal := Vec3(0.0, 0.0, 1.0))
  {
    StraightAheadPoint(s, ray);
    RecordAtHalf(rec, s, ray);
  }

  lemma HitStraightAhead(s: Sphere, ray: Ray, rec: Record, sqrt: real -> real)
    requires s == Sphere(Vec3(0.0, 0.0, -1.0), 0.5)
    requires ray == Ray(Zero(), Vec3(0.0, 0.0, -1.0))
    requires sqrt(0.25) == 0.5
    ensures 0.0 < A(ray)
    ensures HitOutcome(s, ray, 0.0, Infinity, rec, sqrt)
         == (true, rec.(t := 0.5, point := Vec3(0.0, 0.0, -0.5), frontFace := true,
                        normal := Vec3(0.0, 0.0, 1.0)))
  {
    StraightAheadRoot(s, ray, sqrt);
    StraightAheadRecord(s, ray, rec);
  }

  /** Any square root gives that: sqrt(0.25) = 0.5. */
  lemma HitStraightAheadWithSqrt(s: Sphere, ray: Ray, rec: Record, sqrt: real -> real)
    requires s == Sphere(Vec3(0.0, 0.0, -1.0), 0.5)
    requires ray == Ray(Zero(), Vec3(0.0, 0.0, -1.0))
    requires IsSqrt(sqrt)
    ensures HitOutcome(s, ray, 0.0, Infinity, rec, sqrt).1.t == 0.5
  {
    SqrtOfSquare(sqrt, 0.5);
    HitStraightAhead(s, ray, rec, sqrt);
  }
}
