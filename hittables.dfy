/** The hit record that an intersection fills in, and the search interval shared by
    every `Hittable` (src/hittable.rs). Spheres are in module Spheres, the list of
    objects in module HittableLists. */
module Hittables {
  import opened Vectors
  import opened Rays
  import opened Options
  import opened Materials

  /** The upper end of the search interval: a number, or `f32::INFINITY`. */
  datatype Bound = Finite(value: real) | Infinity
  {
    /** `t_max < root` */
    predicate Below(root: real)
    {
      Finite? && value < root
    }
  }

  /** A root is accepted unless `root < t_min || t_max < root`: both ends are inclusive. */
  predicate InRange(tMin: real, tMax: Bound, root: real)
  {
    !(root < tMin || tMax.Below(root))
  }

  lemma InRangeMeans(tMin: real, tMax: Bound, root: real)
    ensures InRange(tMin, tMax, root) <==> tMin <= root && (tMax.Finite? ==> root <= tMax.value)
  {
  }

  /** The value held by a `HitRecord`. */
  datatype Record = Record(point: Vec3, normal: Vec3, t: real, frontFace: bool,
                           material: Option<Material>)

  /** `HitRecord::default()` */
  function DefaultRecord(): Record
  {
    Record(Vec3(0.0, 0.0, 0.0), Vec3(0.0, 0.0, 0.0), 0.0, false, None)
  }

  /** The decision of `set_face_normal`: the ray meets the front face exactly when it runs
      against the outward normal, and the stored normal always opposes the ray. */
  function FaceNormal(direction: Vec3, outward: Vec3): (r: (bool, Vec3))
    ensures r.0 <==> Dot(direction, outward) < 0.0
    ensures r.1 == (if r.0 then outward else Neg(outward))
  {
    var frontFace := DotProduct(direction, outward) < 0.0;
    DotLaws(direction, outward, outward, 0.0);
    (frontFace, if frontFace then outward else Neg(outward))
  }

  /** The oriented normal never points along the ray, and has the outward normal's length. */
  lemma FaceNormalOpposesRay(direction: Vec3, outward: Vec3)
    ensures Dot(direction, FaceNormal(direction, outward).1) <= 0.0
    ensures LengthSquared(FaceNormal(direction, outward).1) == LengthSquared(outward)
  {
    DotLaws(direction, outward, outward, 0.0);
    NegLaws(outward);
  }

  /** The record after `set_face_normal`: only `front_face` and `normal` change. */
  function WithFaceNormal(rec: Record, ray: Ray, outward: Vec3): (r: Record)
    ensures r.point == rec.point && r.t == rec.t && r.material == rec.material
    ensures (r.frontFace, r.normal) == FaceNormal(ray.direction, outward)
  {
    var (frontFace, normal) := FaceNormal(ray.direction, outward);
    rec.(frontFace := frontFace, normal := normal)
  }

  class HitRecord {
    var point: Vec3
    var normal: Vec3
    var t: real
    var frontFace: bool
    var material: Option<Material>

    function Value(): Record
      reads this
    {
      Record(point, normal, t, frontFace, material)
    }

    /** `HitRecord::default()` */
    constructor ()
      ensures Value() == DefaultRecord()
    {
      point, normal, t, frontFace, material :=
        Vec3(0.0, 0.0, 0.0), Vec3(0.0, 0.0, 0.0), 0.0, false, None;
    }

    /** `set_face_normal(ray, outward_normal)` */
    method SetFaceNormal(ray: Ray, outward: Vec3)
      modifies this`frontFace, this`normal
      ensures Value() == WithFaceNormal(old(Value()), ray, outward)
      ensures normal == (if frontFace then outward else Neg(outward))
    {
      frontFace := DotProduct(ray.direction, outward) < 0.0;
      normal := if frontFace then outward else Neg(outward);
    }
  }
}
