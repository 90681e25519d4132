/** `Ray::color` (src/ray.rs): the colour seen along a ray is the shaded normal of the
    first surface the world reports, or else the sky gradient. */
module Shading {
  import opened Vectors
  import opened Rays
  import opened Colors
  import opened Hittables
  import opened HittableLists

  /** The two ends of the sky gradient: white for a ray straight down (blend factor 0),
      light blue for a ray straight up (blend factor 1). */
  function White(): Color { Color(1.0, 1.0, 1.0) }
  function Sky(): Color { Color(0.5, 0.7, 1.0) }

  /** `0.5 * (unit_direction.y() + 1.0)` */
  function BlendFactor(direction: Vec3, sqrt: real -> real): real
    requires IsSqrt(sqrt) && 0.0 < LengthSquared(direction)
  {
    0.5 * (UnitVector(direction, sqrt).y + 1.0)
  }

  /** The sky gradient behind the scene. */
  function Background(direction: Vec3, sqrt: real -> real): Color
    requires IsSqrt(sqrt) && 0.0 < LengthSquared(direction)
  {
    Lerp(White(), Sky(), BlendFactor(direction, sqrt))
  }

  /** `0.5 * Color::from_vec3(normal + Vec3::ONE)` */
  function NormalColor(normal: Vec3): Color
  {
    Scale(0.5, FromVec3(Add(normal, One())))
  }

  /** `Ray::color`: a fresh default record, one search of the world over `[0, +inf]`. */
  method RayColor(ray: Ray, world: HittableList, sqrt: real -> real) returns (c: Color)
    requires IsSqrt(sqrt) && 0.0 < LengthSquared(ray.direction)
    requires forall i :: 0 <= i < |world.objects| ==> WellFormed(world.objects[i])
    ensures var (hit, rec) :=
              MembersHit(world.objects, ray, 0.0, Infinity, DefaultRecord(), sqrt);
            c == if hit then NormalColor(rec.normal) else Background(ray.direction, sqrt)
  {
    var hitRecord := new HitRecord();
    var hit := world.Hit(ray, 0.0, Infinity, hitRecord, sqrt);
    if hit {
      return NormalColor(hitRecord.normal);
    }
    var startColor := Colors.New(1.0, 1.0, 1.0);
    var endColor := Colors.New(0.5, 0.7, 1.0);
    var unitDirection := UnitVector(ray.direction, sqrt);
    var t := 0.5 * (unitDirection.y + 1.0);
    c := Lerp(startColor, endColor, t);
  }

  // ---------------------------------------------------------------------------
  // Properties of the shading

  predicate InUnitRange(x: real) { 0.0 <= x <= 1.0 }

  predicate IsDisplayable(c: Color)
  {
    InUnitRange(c.r) && InUnitRange(c.g) && InUnitRange(c.b)
  }

  /** A coordinate of a unit vector lies in `[-1, 1]`. */
  lemma UnitCoordinate(y: real, rest: real)
    requires 0.0 <= rest && y * y + rest == 1.0
    ensures -1.0 <= y <= 1.0
  {
  }

  /** The blend factor runs from 0 (straight down) to 1 (straight up). */
  lemma BlendFactorInUnitRange(direction: Vec3, sqrt: real -> real)
    requires IsSqrt(sqrt) && 0.0 < LengthSquared(direction)
    ensures InUnitRange(BlendFactor(direction, sqrt))
  {
    var u := UnitVector(direction, sqrt);
    SquareNonNegative(u.x);
    SquareNonNegative(u.z);
    UnitCoordinate(u.y, u.x * u.x + u.z * u.z);
  }

  /** A number whose square is 1 is 1 or -1. */
  lemma UnitSquare(q: real)
    requires q * q == 1.0
    ensures q == 1.0 || q == -1.0
  {
    assert (q - 1.0) * (q + 1.0) == 0.0;
    ProductZero(q - 1.0, q + 1.0);
  }

  /** A vertical ray blends all the way: up gives 1, down gives 0. */
  lemma BlendFactorVertical(direction: Vec3, sqrt: real -> real)
    requires IsSqrt(sqrt) && direction.x == 0.0 && direction.z == 0.0 && direction.y != 0.0
    ensures 0.0 < LengthSquared(direction)
    ensures BlendFactor(direction, sqrt) == if direction.y > 0.0 then 1.0 else 0.0
  {
    SquareNonNegative(direction.y);
    if direction.y * direction.y == 0.0 {
      ProductZero(direction.y, direction.y);
    }
    var u := UnitVector(direction, sqrt);
    var k :| 0.0 < k && u == ScalarMul(k, direction);
    assert u.x == 0.0 && u.z == 0.0;
    assert u.y * u.y == 1.0;
    UnitSquare(u.y);
    if direction.y > 0.0 {
      assert u.y > 0.0;
    } else {
      assert u.y < 0.0;
    }
  }

  /** The sky stays between its two end colours: white at the bottom of the gradient,
      light blue at the top. */
  lemma BackgroundBetweenEndpoints(direction: Vec3, sqrt: real -> real)
    requires IsSqrt(sqrt) && 0.0 < LengthSquared(direction)
    ensures var c := Background(direction, sqrt);
            0.5 <= c.r <= 1.0 && 0.7 <= c.g <= 1.0 && c.b == 1.0
    ensures IsDisplayable(Background(direction, sqrt))
  {
    BlendFactorInUnitRange(direction, sqrt);
  }

  /** Each component of a unit normal maps to a channel in `[0, 1]`. */
  lemma NormalColorDisplayable(normal: Vec3)
    requires LengthSquared(normal) == 1.0
    ensures IsDisplayable(NormalColor(normal))
  {
    SquareNonNegative(normal.x);
    SquareNonNegative(normal.y);
    SquareNonNegative(normal.z);
    UnitCoordinate(normal.x, normal.y * normal.y + normal.z * normal.z);
    UnitCoordinate(normal.y, normal.x * normal.x + normal.z * normal.z);
    UnitCoordinate(normal.z, normal.x * normal.x + normal.y * normal.y);
  }

  /** Whatever the world holds, the colour of a ray is displayable, so no channel is
      clamped when it is written out. */
  lemma RayColorDisplayable(ray: Ray, objects: seq<Object>, sqrt: real -> real)
    requires IsSqrt(sqrt) && 0.0 < LengthSquared(ray.direction)
    requires forall i :: 0 <= i < |objects| ==> WellFormed(objects[i])
    ensures var (hit, rec) := MembersHit(objects, ray, 0.0, Infinity, DefaultRecord(), sqrt);
            IsDisplayable(if hit then NormalColor(rec.normal) else Background(ray.direction, sqrt))
  {
    var (hit, rec) := MembersHit(objects, ray, 0.0, Infinity, DefaultRecord(), sqrt);
    if hit {
      MembersHitNormalIsUnit(objects, ray, 0.0, Infinity, DefaultRecord(), sqrt);
      NormalColorDisplayable(rec.normal);
    } else {
      BackgroundBetweenEndpoints(ray.direction, sqrt);
    }
  }
}
