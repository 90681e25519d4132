/** Rays: an origin and a direction that need not be normalised (src/ray.rs). */
module Rays {
  import opened Vectors

  datatype Ray = Ray(origin: Vec3, direction: Vec3)

  /** `Ray::new`; the getters `origin()` and `direction()` are the destructors. */
  function New(origin: Vec3, direction: Vec3): (r: Ray)
    ensures r.origin == origin && r.direction == direction
  {
    Ray(origin, direction)
  }

  /** `at(t)`: the point at parameter `t` along the ray. */
  function At(ray: Ray, t: real): (p: Vec3)
    ensures Sub(p, ray.origin) == ScalarMul(t, ray.direction)
  {
    Add(ray.origin, ScalarMul(t, ray.direction))
  }

  lemma AtZero(ray: Ray)
    ensures At(ray, 0.0) == ray.origin
  {
  }

  /** Points along a ray move linearly with the parameter. */
  lemma AtLinear(ray: Ray, s: real, t: real)
    ensures Sub(At(ray, t), At(ray, s)) == ScalarMul(t - s, ray.direction)
  {
  }
}
