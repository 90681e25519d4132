/** The `scatter` rules of the two materials (`Material for Lambertian` and
    `Material for Metal` in src/material.rs). The `&mut attenuation` and `&mut scattered`
    out-parameters are written unconditionally, so they are out-parameters here too.
    The random vectors, `near_zero` and `reflect` are defined nowhere in the crate's
    src/ files; callers supply them. */
module Scattering {
  import opened Vectors
  import opened Rays
  import opened Colors
  import opened Materials
  import opened Hittables

  /** What `reflect(v, n)` is taken to mean when a property depends on it: the mirror
      image of `v` in the plane orthogonal to `n`. */
  ghost predicate IsReflection(reflect: (Vec3, Vec3) -> Vec3)
  {
    forall v, n :: reflect(v, n) == Sub(v, ScalarMul(2.0 * Dot(v, n), n))
  }

  // ---------------------------------------------------------------------------
  // Lambertian

  /** The diffuse direction: `normal + sample`, unless that sum is near zero, in which
      case the normal itself. The fallback is what keeps the direction away from zero:
      the result is near zero only when the normal itself is. */
  function LambertianDirection(normal: Vec3, sample: Vec3, nearZero: Vec3 -> bool): (d: Vec3)
    ensures !nearZero(Add(normal, sample)) ==> d == Add(normal, sample)
    ensures nearZero(Add(normal, sample)) ==> d == normal
    ensures nearZero(d) ==> nearZero(normal)
  {
    if nearZero(Add(normal, sample)) then normal else Add(normal, sample)
  }

  /** `Lambertian::scatter`, with `random_unit_vector()` passed in as `sample`. */
  method LambertianScatter(albedo: Color, rec: Record, sample: Vec3, nearZero: Vec3 -> bool)
    returns (scatters: bool, attenuation: Color, scattered: Ray)
    ensures scatters
    ensures attenuation == albedo
    ensures scattered == Ray(rec.point, LambertianDirection(rec.normal, sample, nearZero))
  {
    var scatterDirection := Add(rec.normal, sample);
    if nearZero(scatterDirection) {
      scatterDirection := rec.normal;
    }
    scattered := Rays.New(rec.point, scatterDirection);
    attenuation := albedo;
    scatters := true;
  }

  // ---------------------------------------------------------------------------
  // Metal

  /** The reflected direction, perturbed by `fuzz` times the sample. */
  function MetalDirection(direction: Vec3, normal: Vec3, fuzz: real, sample: Vec3,
                          reflect: (Vec3, Vec3) -> Vec3, sqrt: real -> real): Vec3
    requires IsSqrt(sqrt) && 0.0 < LengthSquared(direction)
  {
    Add(reflect(UnitVector(direction, sqrt), normal), ScalarMul(fuzz, sample))
  }

  /** `Metal::scatter`, with `random_in_unit_sphere()` passed in as `sample`: the ray and
      the attenuation are written in every case, and the result says whether the
      scattered ray leaves on the normal's side of the surface. */
  method MetalScatter(albedo: Color, fuzz: real, ray: Ray, rec: Record, sample: Vec3,
                      reflect: (Vec3, Vec3) -> Vec3, sqrt: real -> real)
    returns (scatters: bool, attenuation: Color, scattered: Ray)
    requires IsSqrt(sqrt) && 0.0 < LengthSquared(ray.direction)
    ensures attenuation == albedo
    ensures scattered
         == Ray(rec.point, MetalDirection(ray.direction, rec.normal, fuzz, sample, reflect, sqrt))
    ensures scatters <==> Dot(scattered.direction, rec.normal) > 0.0
    ensures fuzz == 0.0
            ==> scattered.direction == reflect(UnitVector(ray.direction, sqrt), rec.normal)
  {
    var reflected := reflect(UnitVector(ray.direction, sqrt), rec.normal);
    scattered := Rays.New(rec.point, Add(reflected, ScalarMul(fuzz, sample)));
    attenuation := albedo;
    scatters := Dot(scattered.direction, rec.normal) > 0.0;
  }

  /** Reflection in a unit normal flips the component along the normal. */
  lemma ReflectionFlipsNormalComponent(reflect: (Vec3, Vec3) -> Vec3, v: Vec3, n: Vec3)
    requires IsReflection(reflect) && LengthSquared(n) == 1.0
    ensures Dot(reflect(v, n), n) == -Dot(v, n)
  {
    var k := 2.0 * Dot(v, n);
    assert reflect(v, n) == Sub(v, ScalarMul(k, n));
    LengthSquaredNonNegative(n);
    DotLaws(v, n, n, k);
    DotLaws(ScalarMul(k, n), n, n, k);
    DotLaws(n, n, n, k);
    SubSelf(v, ScalarMul(k, n));
    DotLaws(v, Neg(ScalarMul(k, n)), n, 0.0);
    NegLaws(ScalarMul(k, n));
    DotLaws(ScalarMul(k, n), n, n, -1.0);
    assert Dot(Neg(ScalarMul(k, n)), n) == -(k * Dot(n, n));
  }

  /** Without fuzz a true mirror scatters exactly the rays that arrive against the
      (unit) normal: with the normal that `set_face_normal` stores, every ray but one
      grazing the surface. */
  lemma MetalWithoutFuzzScattersIncoming(direction: Vec3, normal: Vec3, sample: Vec3,
                                         reflect: (Vec3, Vec3) -> Vec3, sqrt: real -> real)
    requires IsSqrt(sqrt) && IsReflection(reflect)
    requires 0.0 < LengthSquared(direction) && LengthSquared(normal) == 1.0
    ensures Dot(MetalDirection(direction, normal, 0.0, sample, reflect, sqrt), normal) > 0.0
            <==> Dot(direction, normal) < 0.0
  {
    var u := UnitVector(direction, sqrt);
    var k :| 0.0 < k && u == ScalarMul(k, direction);
    assert MetalDirection(direction, normal, 0.0, sample, reflect, sqrt) == reflect(u, normal);
    ReflectionFlipsNormalComponent(reflect, u, normal);
    DotLaws(direction, normal, normal, k);
    assert Dot(u, normal) == k * Dot(direction, normal);
    if Dot(direction, normal) < 0.0 {
      assert k * Dot(direction, normal) < 0.0;
    } else {
      assert k * Dot(direction, normal) >= 0.0;
    }
  }

  // ---------------------------------------------------------------------------
  // Dispatch

  /** `Material::scatter` through the trait object: the material's own rule. */
  method Scatter(m: Material, ray: Ray, rec: Record, unitSample: Vec3, sphereSample: Vec3,
                 nearZero: Vec3 -> bool, reflect: (Vec3, Vec3) -> Vec3, sqrt: real -> real)
    returns (scatters: bool, attenuation: Color, scattered: Ray)
    requires m.Metal? ==> IsSqrt(sqrt) && 0.0 < LengthSquared(ray.direction)
    ensures attenuation == m.albedo
    ensures scattered.origin == rec.point
    ensures m.Lambertian? ==> scatters
    ensures m.Lambertian? ==>
              scattered.direction == LambertianDirection(rec.normal, unitSample, nearZero)
    ensures m.Metal? ==>
              scattered.direction
              == MetalDirection(ray.direction, rec.normal, m.fuzz, sphereSample, reflect, sqrt)
    ensures m.Metal? ==> (scatters <==> Dot(scattered.direction, rec.normal) > 0.0)
  {
    match m
    case Lambertian(albedo) =>
      scatters, attenuation, scattered := LambertianScatter(albedo, rec, unitSample, nearZero);
    case Metal(albedo, fuzz) =>
      scatters, attenuation, scattered :=
        MetalScatter(albedo, fuzz, ray, rec, sphereSample, reflect, sqrt);
  }
}
