/** The list of objects a ray is traced against (`HittableList` in src/hittable.rs).
    A list member is a sphere or, since a list is itself `Hittable`, another list. */
module HittableLists {
  import opened Vectors
  import opened Rays
  import opened Hittables
  import opened Spheres
  import opened Options

  /** The `Hittable` implementations of the ray tracer, as a closed set. */
  datatype Object = SphereObject(sphere: Sphere) | ListObject(members: seq<Object>)

  /** Every sphere inside has a non-zero radius (`hit` divides by it). */
  predicate WellFormed(o: Object)
    decreases o
  {
    match o
    case SphereObject(s) => s.radius != 0.0
    case ListObject(ms) => forall i :: 0 <= i < |ms| ==> WellFormed(ms[i])
  }

  // ---------------------------------------------------------------------------
  // What `hit` computes

  /** `Hittable::hit` of one object: its result and the record it leaves behind. */
  function ObjectHit(o: Object, ray: Ray, tMin: real, tMax: Bound, rec: Record,
                     sqrt: real -> real): (r: (bool, Record))
    requires WellFormed(o) && 0.0 < A(ray)
    ensures r.1.material == rec.material
    ensures r.0 ==> InRange(tMin, tMax, r.1.t)
    decreases o
  {
    match o
    case SphereObject(s) => HitOutcome(s, ray, tMin, tMax, rec, sqrt)
    case ListObject(ms) => MembersHit(ms, ray, tMin, tMax, rec, sqrt)
  }

  /** `self.0.iter().any(|object| object.hit(ray, t_min, t_max, hit_records))`: the
      members are tried in order with the same interval and the same record, and the
      search stops at the first member that reports a hit. */
  function MembersHit(ms: seq<Object>, ray: Ray, tMin: real, tMax: Bound, rec: Record,
                      sqrt: real -> real): (r: (bool, Record))
    requires forall i :: 0 <= i < |ms| ==> WellFormed(ms[i])
    requires 0.0 < A(ray)
    ensures r.1.material == rec.material
    ensures r.0 ==> InRange(tMin, tMax, r.1.t)
    ensures |ms| == 0 ==> r == (false, rec)
    decreases ms
  {
    if |ms| == 0 then (false, rec)
    else
      var (hit, rec') := ObjectHit(ms[0], ray, tMin, tMax, rec, sqrt);
      if hit then (true, rec') else MembersHit(ms[1..], ray, tMin, tMax, rec', sqrt)
  }

  /** The position of the first member that hits when tried on its own, or `|ms|`. */
  function FirstHit(ms: seq<Object>, ray: Ray, tMin: real, tMax: Bound, rec: Record,
                    sqrt: real -> real): (k: nat)
    requires forall i :: 0 <= i < |ms| ==> WellFormed(ms[i])
    requires 0.0 < A(ray)
    ensures k <= |ms|
    ensures k < |ms| ==> ObjectHit(ms[k], ray, tMin, tMax, rec, sqrt).0
    ensures forall j :: 0 <= j < k ==> !ObjectHit(ms[j], ray, tMin, tMax, rec, sqrt).0
    decreases ms
  {
    if |ms| == 0 then 0
    else if ObjectHit(ms[0], ray, tMin, tMax, rec, sqrt).0 then 0
    else 1 + FirstHit(ms[1..], ray, tMin, tMax, rec, sqrt)
  }

  // ---------------------------------------------------------------------------
  // The same search, as the source runs it: one mutable record threaded through

  /** `hit` on one object, writing into `rec`. */
  method HitObject(o: Object, ray: Ray, tMin: real, tMax: Bound, rec: HitRecord,
                   sqrt: real -> real) returns (hit: bool)
    requires WellFormed(o) && 0.0 < LengthSquared(ray.direction)
    modifies rec`t, rec`point, rec`frontFace, rec`normal
    ensures (hit, rec.Value()) == ObjectHit(o, ray, tMin, tMax, old(rec.Value()), sqrt)
    decreases o, 1
  {
    match o
    case SphereObject(s) =>
      hit := s.Hit(ray, tMin, tMax, rec, sqrt);
    case ListObject(ms) =>
      hit := HitMembers(ms, ray, tMin, tMax, rec, sqrt);
  }

  /** The short-circuiting `any` loop over the members. */
  method HitMembers(ms: seq<Object>, ray: Ray, tMin: real, tMax: Bound, rec: HitRecord,
                    sqrt: real -> real) returns (hit: bool)
    requires forall i :: 0 <= i < |ms| ==> WellFormed(ms[i])
    requires 0.0 < LengthSquared(ray.direction)
    modifies rec`t, rec`point, rec`frontFace, rec`normal
    ensures (hit, rec.Value()) == MembersHit(ms, ray, tMin, tMax, old(rec.Value()), sqrt)
    decreases ms, 0
  {
    ghost var start := rec.Value();
    hit := false;
    var i := 0;
    while i < |ms| && !hit
      invariant 0 <= i <= |ms|
      invariant MembersHit(ms, ray, tMin, tMax, start, sqrt)
             == if hit then (true, rec.Value())
                else MembersHit(ms[i..], ray, tMin, tMax, rec.Value(), sqrt)
      decreases |ms| - i
    {
      assert ms[i..][0] == ms[i] && ms[i..][1..] == ms[i + 1..];
      hit := HitObject(ms[i], ray, tMin, tMax, rec, sqrt);
      i := i + 1;
    }
  }

  /** `HittableList`: an ordered collection of objects, grown by `add`. */
  class HittableList {
    var objects: seq<Object>

    /** `HittableList::default()` */
    constructor ()
      ensures objects == []
    {
      objects := [];
    }

    /** `add` pushes the object at the end. */
    method Add(o: Object)
      modifies this
      ensures objects == old(objects) + [o]
    {
      objects := objects + [o];
    }

    /** `Hittable for HittableList::hit` */
    method Hit(ray: Ray, tMin: real, tMax: Bound, rec: HitRecord, sqrt: real -> real)
      returns (hit: bool)
      requires forall i :: 0 <= i < |objects| ==> WellFormed(objects[i])
      requires 0.0 < LengthSquared(ray.direction)
      modifies rec`t, rec`point, rec`frontFace, rec`normal
      ensures (hit, rec.Value()) == MembersHit(objects, ray, tMin, tMax, old(rec.Value()), sqrt)
    {
      hit := HitMembers(objects, ray, tMin, tMax, rec, sqrt);
    }
  }

  // ---------------------------------------------------------------------------
  // Properties of the search

  /** An object that reports no hit leaves the record as it found it. */
  lemma {:induction false} ObjectMissKeepsRecord(o: Object, ray: Ray, tMin: real, tMax: Bound,
                                                 rec: Record, sqrt: real -> real)
    requires WellFormed(o) && 0.0 < A(ray)
    ensures !ObjectHit(o, ray, tMin, tMax, rec, sqrt).0
            ==> ObjectHit(o, ray, tMin, tMax, rec, sqrt).1 == rec
    decreases o
  {
    match o
    case SphereObject(s) =>
    case ListObject(ms) =>
      MembersMissKeepsRecord(ms, ray, tMin, tMax, rec, sqrt);
  }

  lemma {:induction false} MembersMissKeepsRecord(ms: seq<Object>, ray: Ray, tMin: real,
                                                  tMax: Bound, rec: Record, sqrt: real -> real)
    requires forall i :: 0 <= i < |ms| ==> WellFormed(ms[i])
    requires 0.0 < A(ray)
    ensures !MembersHit(ms, ray, tMin, tMax, rec, sqrt).0
            ==> MembersHit(ms, ray, tMin, tMax, rec, sqrt).1 == rec
    decreases ms
  {
    if |ms| > 0 {
      ObjectMissKeepsRecord(ms[0], ray, tMin, tMax, rec, sqrt);
      MembersMissKeepsRecord(ms[1..], ray, tMin, tMax, rec, sqrt);
    }
  }

  /** Every hit, however deeply the hitting sphere is nested, stores a unit normal. */
  lemma {:induction false} ObjectHitNormalIsUnit(o: Object, ray: Ray, tMin: real, tMax: Bound,
                                                 rec: Record, sqrt: real -> real)
    requires IsSqrt(sqrt) && WellFormed(o) && 0.0 < A(ray)
    ensures ObjectHit(o, ray, tMin, tMax, rec, sqrt).0
            ==> LengthSquared(ObjectHit(o, ray, tMin, tMax, rec, sqrt).1.normal) == 1.0
    decreases o
  {
    match o
    case SphereObject(s) =>
      if SelectRoot(s, ray, tMin, tMax, sqrt).Some? {
        HitNormalIsUnit(s, ray, tMin, tMax, rec, sqrt);
      }
    case ListObject(ms) =>
      MembersHitNormalIsUnit(ms, ray, tMin, tMax, rec, sqrt);
  }

  lemma {:induction false} MembersHitNormalIsUnit(ms: seq<Object>, ray: Ray, tMin: real,
                                                  tMax: Bound, rec: Record, sqrt: real -> real)
    requires IsSqrt(sqrt) && 0.0 < A(ray)
    requires forall i :: 0 <= i < |ms| ==> WellFormed(ms[i])
    ensures MembersHit(ms, ray, tMin, tMax, rec, sqrt).0
            ==> LengthSquared(MembersHit(ms, ray, tMin, tMax, rec, sqrt).1.normal) == 1.0
    decreases ms
  {
    if |ms| > 0 {
      ObjectHitNormalIsUnit(ms[0], ray, tMin, tMax, rec, sqrt);
      var rec' := ObjectHit(ms[0], ray, tMin, tMax, rec, sqrt).1;
      MembersHitNormalIsUnit(ms[1..], ray, tMin, tMax, rec', sqrt);
    }
  }

  /** The list reports exactly what its first hitting member reports, and a miss when no
      member hits: the result is decided by insertion order, not by distance. */
  lemma {:induction false} MembersHitIsFirstHit(ms: seq<Object>, ray: Ray, tMin: real,
                                                tMax: Bound, rec: Record, sqrt: real -> real)
    requires forall i :: 0 <= i < |ms| ==> WellFormed(ms[i])
    requires 0.0 < A(ray)
    ensures var k := FirstHit(ms, ray, tMin, tMax, rec, sqrt);
            MembersHit(ms, ray, tMin, tMax, rec, sqrt)
            == if k < |ms| then ObjectHit(ms[k], ray, tMin, tMax, rec, sqrt) else (false, rec)
    decreases ms
  {
    if |ms| > 0 {
      ObjectMissKeepsRecord(ms[0], ray, tMin, tMax, rec, sqrt);
      if !ObjectHit(ms[0], ray, tMin, tMax, rec, sqrt).0 {
        MembersHitIsFirstHit(ms[1..], ray, tMin, tMax, rec, sqrt);
      }
    }
  }

  /** The list hits exactly when some member hits; an empty list never does. */
  lemma MembersHitIffSomeMemberHits(ms: seq<Object>, ray: Ray, tMin: real, tMax: Bound,
                                    rec: Record, sqrt: real -> real)
    requires forall i :: 0 <= i < |ms| ==> WellFormed(ms[i])
    requires 0.0 < A(ray)
    ensures MembersHit(ms, ray, tMin, tMax, rec, sqrt).0
            <==> exists i :: 0 <= i < |ms| && ObjectHit(ms[i], ray, tMin, tMax, rec, sqrt).0
    ensures MembersHit([], ray, tMin, tMax, rec, sqrt) == (false, rec)
  {
    MembersHitIsFirstHit(ms, ray, tMin, tMax, rec, sqrt);
  }

  /** A list whose first member hits reports that member's hit, whatever follows. */
  lemma FirstMemberDecides(ms: seq<Object>, ray: Ray, tMin: real, tMax: Bound, rec: Record,
                           sqrt: real -> real)
    requires forall i :: 0 <= i < |ms| ==> WellFormed(ms[i])
    requires 0.0 < A(ray) && 0 < |ms| && ObjectHit(ms[0], ray, tMin, tMax, rec, sqrt).0
    ensures MembersHit(ms, ray, tMin, tMax, rec, sqrt) == ObjectHit(ms[0], ray, tMin, tMax, rec, sqrt)
  {
  }

  lemma FarSphereRoot(s: Sphere, ray: Ray, sqrt: real -> real)
    requires s == Sphere(Vec3(0.0, 0.0, -3.0), 0.5)
    requires ray == Ray(Zero(), Vec3(0.0, 0.0, -1.0))
    requires sqrt(0.25) == 0.5
    ensures 0.0 < A(ray) && s.radius != 0.0
    ensures SelectRoot(s, ray, 0.0, Infinity, sqrt) == Some(2.5)
  {
    assert Add(ray.origin, ScalarMul(3.0, ray.direction)) == Vec3(0.0, 0.0, -3.0);
    SphereAhead(s, ray, sqrt, 3.0);
  }

  lemma TwoSpheresRoots(far: Sphere, near: Sphere, ray: Ray, sqrt: real -> real)
    requires far == Sphere(Vec3(0.0, 0.0, -3.0), 0.5)
    requires near == Sphere(Vec3(0.0, 0.0, -1.0), 0.5)
    requires ray == Ray(Zero(), Vec3(0.0, 0.0, -1.0))
    requires sqrt(0.25) == 0.5
    ensures 0.0 < A(ray) && far.radius != 0.0 && near.radius != 0.0
    ensures SelectRoot(far, ray, 0.0, Infinity, sqrt) == Some(2.5)
    ensures SelectRoot(near, ray, 0.0, Infinity, sqrt) == Some(0.5)
  {
    FarSphereRoot(far, ray, sqrt);
    StraightAheadRoot(near, ray, sqrt);
  }

  /** Two spheres both hit at the nearer root: listed in that order, the list reports
      the first sphere's root, whatever the second's. */
  lemma FirstOfTwoSpheres(first: Sphere, second: Sphere, ray: Ray, rec: Record,
                          sqrt: real -> real, t1: real, t2: real)
    requires 0.0 < A(ray) && first.radius != 0.0 && second.radius != 0.0
    requires SelectRoot(first, ray, 0.0, Infinity, sqrt) == Some(t1)
    requires SelectRoot(second, ray, 0.0, Infinity, sqrt) == Some(t2)
    ensures MembersHit([SphereObject(first), SphereObject(second)], ray, 0.0, Infinity, rec, sqrt)
            == (true, RecordHit(rec, first, ray, t1))
    ensures ObjectHit(SphereObject(second), ray, 0.0, Infinity, rec, sqrt)
            == (true, RecordHit(rec, second, ray, t2))
  {
    FirstMemberDecides([SphereObject(first), SphereObject(second)], ray, 0.0, Infinity, rec, sqrt);
  }

  /** The list does not find the nearest surface: with the sphere at distance 2.5 added
      before the one at distance 0.5, a ray down the negative z axis reports t = 2.5,
      although the second member alone would report t = 0.5. */
  lemma FirstHitNotNearest(far: Sphere, near: Sphere, ray: Ray, rec: Record, sqrt: real -> real)
    requires far == Sphere(Vec3(0.0, 0.0, -3.0), 0.5)
    requires near == Sphere(Vec3(0.0, 0.0, -1.0), 0.5)
    requires ray == Ray(Zero(), Vec3(0.0, 0.0, -1.0))
    requires sqrt(0.25) == 0.5
    ensures 0.0 < A(ray)
    ensures MembersHit([SphereObject(far), SphereObject(near)], ray, 0.0, Infinity, rec, sqrt)
            .1.t == 2.5
    ensures ObjectHit(SphereObject(near), ray, 0.0, Infinity, rec, sqrt).1.t == 0.5
  {
    TwoSpheresRoots(far, near, ray, sqrt);
    FirstOfTwoSpheres(far, near, ray, rec, sqrt, 2.5, 0.5);
  }
}
