# A verified model of a small Rust ray tracer

This project models the geometric core of a small ray tracer written in Rust. It covers:

- the `Vec3` algebra;
- rays and `Ray::at`;
- the ray–sphere intersection, which writes into a `&mut HitRecord`;
- orienting the face normal;
- the ordered list of hittable objects;
- the two material scatter rules;
- the camera and viewport;
- the background-or-normal colour of a ray;
- the small helpers (`clamp`, `AspectRatio`, and quantising a colour channel to an integer).

`f32` is modelled as mathematical `real`. Square root is a function parameter `sqrt`. Properties that depend on it require `IsSqrt(sqrt)`: `sqrt(x)` is non-negative and squares back to `x` for every `x >= 0`.

Modules follow the source files:

| module | file | source |
|---|---|---|
| `Vectors` | vectors.dfy | src/vec3.rs |
| `Rays` | rays.dfy | src/ray.rs (`new`, `at`) |
| `Shading` | shading.dfy | src/ray.rs (`color`) |
| `Hittables` | hittables.dfy | src/hittable.rs (`HitRecord`, `set_face_normal`) |
| `HittableLists` | hittable_lists.dfy | src/hittable.rs (`HittableList`) |
| `Spheres` | spheres.dfy | src/sphere.rs |
| `Materials` | materials.dfy | src/material.rs (constructors) |
| `Scattering` | scattering.dfy | src/material.rs (`scatter`) |
| `Cameras` | camera.dfy | src/camera.rs |
| `Utils` | utils.dfy | src/utils.rs |
| `Colors` | colors.dfy | src/color.rs |
| `Options` | options.dfy | Rust's `Option` |

The Rust modules import each other in a cycle (ray ↔ hittable, material ↔ hittable). The model breaks the cycle by splitting `ray.rs`, `hittable.rs` and `material.rs` into two modules each.

Code that changes state is imperative here:

- **`HitRecord` is a class.** `SetFaceNormal` updates two of its fields.
- **`Sphere.Hit` mirrors the Rust method.** It reassigns a local `root` and writes `t`, `point`, `front_face` and `normal` into the record.
- **`HittableList` is a class.** It holds a `seq` of objects, and `Add` appends to it.
- **The list's `Hit` is a loop.** It threads one record through the members.

Each method is proved against a specification function: `HitOutcome` for a sphere, and `ObjectHit`/`MembersHit` for a list. The properties are then proved about those functions.

Four behaviours of the code are worth stating outright, since a reader might expect otherwise:

- **First hit, not nearest.** The list's `hit` uses `any` with the same `t_max` for every member. It returns the first member that hits in insertion order, not the nearest one. `FirstHitNotNearest` shows a list where the two differ.
- **Inclusive range.** A root is rejected only when `root < t_min || t_max < root`, so both ends of the interval are accepted.
- **Lower bound of 0.0.** `Ray::color` searches from `t = 0.0`, not from a small positive epsilon.
- **Fuzz capped above only.** `Metal::new` caps the fuzz at 1 but keeps negative values.

## Model

| member | source | states |
|---|---|---|
| Vectors.New | src/vec3.rs:11-13 | the constructed vector holds the three given components |
| Vectors.UnitVector | src/vec3.rs:39-41 | under a true square root and for a non-zero vector, the result has squared length 1 and is a positive multiple of the input (`length / v`, i.e. `(1/length) * v`) |
| Vectors.LengthSquaredScale | src/vec3.rs:27-29 | scaling by `s` multiplies the squared length by `s*s` |
| Vectors.LengthSquaredNonNegative | src/vec3.rs:27-37 | `length_squared(v) == dot(v, v)` and is never negative |
| Vectors.AddComponents | src/vec3.rs:53-55 | addition is commutative and undone by subtraction; the test case (-10,0,25)+(-10,0,25) = (-20,0,50) |
| Vectors.SubSelf | src/vec3.rs:61-63 | `a - a` is the zero vector; `(a - b) + b == a`; `a - b == a + (-b)` |
| Vectors.MulCommutes | src/vec3.rs:70-84 | `s * v == v * s`; the test case (-10,0,25)*2.5 = (-25,0,62.5) |
| Vectors.DotLaws | src/vec3.rs:35-45 | `dot` and `dot_product` agree and are symmetric, linear in the first argument and negated by negating the second; the test case (1,10,-25)·(12.1,-52.2,0) = -509.9 |
| Vectors.NegLaws | src/vec3.rs:86-91 | negation is scaling by -1, an involution, an additive inverse, and keeps the squared length |
| Vectors.DivLaws | src/vec3.rs:94-108 | `v / s` and `s / v` both equal `(1/s) * v`, and multiplying back by `s` gives `v` |
| Vectors.SqrtOfSquare | src/vec3.rs:31-33 | under a true square root, the root of `y*y` is `y` for `y >= 0` |
| Rays.New | src/ray.rs:14-24 | the getters return exactly the origin and direction given to `Ray::new` |
| Rays.At | src/ray.rs:26-28 | `at(t) - origin == t * direction` |
| Rays.AtZero | src/ray.rs:26-28 | `at(0) == origin` |
| Rays.AtLinear | src/ray.rs:26-28 | the displacement between `at(s)` and `at(t)` is `(t - s) * direction` |
| Hittables.InRangeMeans | src/sphere.rs:34-40 | the rejection test `root < t_min \|\| t_max < root` accepts exactly `t_min <= root <= t_max`, with no upper limit when `t_max` is infinite |
| Hittables.FaceNormal | src/hittable.rs:19-26 | `front_face` holds exactly when `dot(direction, outward) < 0`; the normal is `outward` on the front face and `-outward` otherwise |
| Hittables.FaceNormalOpposesRay | src/hittable.rs:19-26 | the oriented normal satisfies `dot(direction, normal) <= 0` and has the outward normal's squared length |
| Hittables.WithFaceNormal | src/hittable.rs:19-26 | only `front_face` and `normal` change; `point`, `t` and `material` are kept |
| Hittables.HitRecord.SetFaceNormal | src/hittable.rs:19-26 | the record's new value is `WithFaceNormal` of its old value, and the stored normal is `outward` or its negation, as `front_face` says |
| Hittables.HitRecord.constructor | src/hittable.rs:9-16 | `HitRecord::default()`: zero vectors, `t = 0`, not front-facing, no material |
| Spheres.New | src/sphere.rs:14-16 | the sphere keeps the given centre and radius |
| Spheres.SelectRoot | src/sphere.rs:21-40 | a selected root lies in `[t_min, t_max]`; a negative discriminant selects nothing |
| Spheres.SelectRootOrder | src/sphere.rs:34-40 | the smaller root is taken whenever it is in range; the larger is taken only when the smaller is out of range and the larger is in range |
| Spheres.RecordHit | src/sphere.rs:42-45 | the written record has the root as `t`, `point == at(t)`, the outward normal `(point - center) / radius` before orientation, and the original material |
| Spheres.RecordHitOpposesRay | src/sphere.rs:42-45 | after orientation, `dot(direction, normal) <= 0` |
| Spheres.HitOutcome | src/sphere.rs:20-48 | a miss leaves the record unchanged; a hit has `t` in range and `point == at(t)`; the material is never written |
| Spheres.Sphere.Hit | src/sphere.rs:20-48 | the method's result and new record are `HitOutcome` of the old record; it hits exactly when a root is selected, stores that root as `t`, and leaves the record unchanged on a miss |
| Spheres.QuadraticAlongRay | src/sphere.rs:21-25 | `\|at(t) - center\|² - r²` is the quadratic `a t² + 2 half_b t + c` |
| Spheres.OnSphereIffRoot | src/sphere.rs:21-37 | under a true square root, `at(t)` lies on the sphere exactly when the discriminant is non-negative and `t` is the near or the far root |
| Spheres.RootsOrdered | src/sphere.rs:31-37 | the near root `(-half_b - sqrtd)/a` is at most the far root `(-half_b + sqrtd)/a` |
| Spheres.SelectRootIsNearest | src/sphere.rs:21-40 | a selected root is a point of the sphere, and no point of the sphere in range is nearer; nothing is selected exactly when no point of the sphere along the ray lies in range |
| Spheres.HitNormalIsUnit | src/sphere.rs:42-45 | on a hit, the stored normal has squared length 1 |
| Spheres.SphereAhead | src/sphere.rs:21-40 | for a unit direction and a sphere centred at distance `d >= radius > 0` along it, the selected root over `[0, inf]` is `d - radius` |
| Spheres.StraightAheadRoot | src/sphere.rs:21-40 | centre (0,0,-1), radius 0.5, origin (0,0,0), direction (0,0,-1): the selected root is 0.5 |
| Spheres.HitStraightAhead | src/sphere.rs:20-48 | in the same scene, the hit record has `t = 0.5`, point (0,0,-0.5), front face and normal (0,0,1) |
| Spheres.HitStraightAheadWithSqrt | src/sphere.rs:20-48 | the same `t = 0.5` for any true square root |
| HittableLists.ObjectHit | src/hittable.rs:38-43 | an object's hit keeps the material and, on a hit, has `t` in range |
| HittableLists.MembersHit | src/hittable.rs:38-43 | the members are tried in order with the same interval; an empty list misses and leaves the record as it was |
| HittableLists.FirstHit | src/hittable.rs:40-42 | the index of the first member that hits on its own: every earlier member misses |
| HittableLists.HitObject | src/hittable.rs:38-43 | dispatch to a sphere or a nested list; its result and new record are `ObjectHit` of the old record |
| HittableLists.HitMembers | src/hittable.rs:40-42 | the short-circuiting loop over the members computes `MembersHit` |
| HittableLists.HittableList.constructor | src/hittable.rs:29-30 | `HittableList::default()` holds no objects |
| HittableLists.HittableList.Add | src/hittable.rs:33-35 | the object is appended at the end and the earlier members are kept in order |
| HittableLists.HittableList.Hit | src/hittable.rs:38-43 | the list's result and new record are `MembersHit` of its objects over the old record |
| HittableLists.ObjectMissKeepsRecord | src/hittable.rs:40-42 | an object that misses leaves the record unchanged |
| HittableLists.MembersMissKeepsRecord | src/hittable.rs:40-42 | when no member hits, the record is unchanged |
| HittableLists.ObjectHitNormalIsUnit | src/hittable.rs:38-43 | a hit of a (possibly nested) object stores a unit normal |
| HittableLists.MembersHitNormalIsUnit | src/hittable.rs:38-43 | a hit of a list stores a unit normal |
| HittableLists.MembersHitIsFirstHit | src/hittable.rs:40-42 | the list reports exactly what its first hitting member reports, and a miss with the record unchanged when none hits |
| HittableLists.MembersHitIffSomeMemberHits | src/hittable.rs:39-43 | the list hits exactly when some member hits; an empty list misses |
| HittableLists.FirstMemberDecides | src/hittable.rs:40-42 | if the first member hits, its record is the list's, whatever follows |
| HittableLists.FarSphereRoot | src/sphere.rs:21-40 | a sphere of radius 0.5 at (0,0,-3), seen down -z from the origin, has its selected root at 2.5 |
| HittableLists.FirstHitNotNearest | src/hittable.rs:40-42 | with a far sphere added before a near one, the list's hit has `t = 2.5`, although the near sphere alone gives `t = 0.5` |
| Materials.NewLambertian | src/material.rs:19-21 | a Lambertian material with the given albedo |
| Materials.NewMetal | src/material.rs:31-35 | the albedo is kept; the stored fuzz is `fuzz` when `fuzz < 1` and 1 otherwise, so it is at most 1; negative values are kept |
| Materials.NewMetalIdempotent | src/material.rs:31-35 | re-building a metal from its stored fuzz changes nothing |
| Scattering.LambertianDirection | src/material.rs:47-51 | the direction is `normal + sample` when that sum is not near zero and `normal` when it is; it is near zero only if the normal is |
| Scattering.LambertianScatter | src/material.rs:40-56 | always scatters; the attenuation is the albedo; the scattered ray starts at the hit point along `LambertianDirection` |
| Scattering.MetalScatter | src/material.rs:59-75 | the attenuation and the scattered ray are written in every case; the ray starts at the hit point along `reflect(unit(d), n) + fuzz * sample`; it scatters exactly when `dot(scattered.direction, normal) > 0`; with no fuzz the direction is the pure reflection |
| Scattering.ReflectionFlipsNormalComponent | src/material.rs:67 | a true mirror reflection in a unit normal negates the component along the normal |
| Scattering.MetalWithoutFuzzScattersIncoming | src/material.rs:67-74 | with no fuzz, a true mirror and a unit normal, the metal scatters exactly the rays with `dot(direction, normal) < 0` |
| Scattering.Scatter | src/material.rs:3-11 | dispatching on the material applies that material's rule: the attenuation is its albedo and the ray starts at the hit point |
| Shading.RayColor | src/ray.rs:30-43 | a fresh default record searched over `[0, +inf]`; on a hit, `0.5 * (normal + ONE)`, without the background; on a miss, the lerp from (1,1,1) to (0.5,0.7,1.0) by `0.5 * (unit.y + 1)` |
| Shading.BlendFactorInUnitRange | src/ray.rs:40-41 | the blend factor lies in `[0, 1]` |
| Shading.BlendFactorVertical | src/ray.rs:40-41 | the blend factor is 1 for a ray straight up and 0 for one straight down |
| Shading.BackgroundBetweenEndpoints | src/ray.rs:37-42 | every background channel lies between the two end colours: r in [0.5,1], g in [0.7,1], b = 1 |
| Shading.NormalColorDisplayable | src/ray.rs:34 | a unit normal is shaded to channels in `[0, 1]` |
| Shading.RayColorDisplayable | src/ray.rs:30-43 | for any world of spheres, every colour `color` returns has all channels in `[0, 1]` |
| Cameras.NewViewport | src/camera.rs:46-51 | height and focal length are kept, and `width = aspect * height` (as `width * d == n * height` for aspect `n / d`) |
| Cameras.NewCamera | src/camera.rs:13-28 | origin (0,0,0), horizontal (width,0,0), vertical (0,height,0), lower-left corner (-width/2, -height/2, -focal_length) |
| Cameras.GetRay | src/camera.rs:30-34 | the ray starts at the camera origin, and its direction minus the lower-left corner is `u * horizontal + v * vertical` |
| Cameras.GetRayThroughViewport | src/camera.rs:13-34 | for a camera from `Camera::new`, `get_ray(u, v)` aims at `((u - 1/2) width, (v - 1/2) height, -focal_length)` |
| Cameras.GetRayCorners | src/camera.rs:30-34 | (0,0) aims at the lower-left corner, (1/2,1/2) at (0,0,-focal_length), (1,1) at (width/2, height/2, -focal_length) |
| Utils.Clamp | src/utils.rs:1-10 | `min` when `x < min`, `max` when `x > max` (and not below `min`), `x` otherwise; within `[min, max]` whenever `min <= max` |
| Utils.ClampIdempotent | src/utils.rs:1-10 | clamping twice is clamping once when `min <= max` |
| Utils.ClampNotIdempotentWhenBoundsCross | src/utils.rs:1-10 | with crossed bounds, clamping again can change the result |
| Utils.AspectRatio.AsReal | src/utils.rs:16-18 | the ratio `q` satisfies `q * height == width` |
| Utils.FromPair | src/utils.rs:21-25 | the pair's components are kept in order |
| Utils.SixteenByNine | src/utils.rs:16-25 | (16, 9) gives 16/9 |
| Colors.New | src/color.rs:11-13 | the colour holds the three given channels |
| Colors.CastToUsize | src/color.rs:21-23 | the `as usize` cast: 0 for non-positive input, the integer part in range, and saturation at 2^64 - 1 |
| Colors.QuantizeUnitRange | src/color.rs:21-23 | a channel in `[0, 1]` is emitted in `[0, 255]`; 0 gives 0 and 1 gives 255 |
| Colors.QuantizeMonotone | src/color.rs:21-23 | quantisation is monotone |
| Colors.QuantizeNegative | src/color.rs:21-23 | a negative channel is emitted as 0 |
| Colors.DecimalRoundTrip | src/color.rs:17-25 | reading back the decimal digits of a number gives the number |
| Colors.FormatRoundTrip | src/color.rs:17-25 | the output is the three quantised channels in r, g, b order, each separated by one space, and can be parsed back |

## Left out

- f32 arithmetic is not modelled: no rounding, NaN or infinities. The exact product `c * 255.999` is used, and `t_max = f32::INFINITY` is the `Infinity` case of `Bound`.
- Division by zero yields infinities or NaN in f32, but the model excludes it by preconditions. The Rust code accepts every one of these inputs:
  - a non-zero ray direction for `Sphere.Hit`, the list's hit and `Ray::color`;
  - a non-zero ray direction for `MetalScatter` and the Metal case of `Scatter`. With a zero direction, Rust still writes a NaN ray and the albedo, and returns false;
  - a non-zero vector for `UnitVector`;
  - a non-zero divisor for `ScalarDiv` and `DivScalar` (`s / v` and `v / s`);
  - a non-zero radius;
  - a non-zero aspect-ratio denominator.
- `f32::sqrt` is a parameter. Properties that depend on it require `IsSqrt`. The `Sphere.Hit` method itself does not, so it holds for any square-root function.
- `Vec3::random_unit_vector` and `random_in_unit_sphere` are callers' parameters (`sample`) of the scatter rules. So are `reflect` and `near_zero`, which are called but defined nowhere in the crate's src/ files. `IsReflection` states the mirror formula where a property needs it.
- `Vec3::ONE`, `Color::from_vec3`, `Color::lerp` and `f32 * Color` are also defined nowhere in the crate's src/ files. They are given their evident meanings: `(1,1,1)`, the same three numbers, `(1-t)·a + t·b`, and scaling every channel.
- `Rc<dyn Hittable>` and `Rc<dyn Material>` are closed datatypes. `Object` is a sphere or a nested list, and `Material` is Lambertian or Metal. Reference sharing and aliasing between list members are therefore not modelled.
- `usize` is taken to be 64 bits wide.
- The `Display` formatter is not modelled beyond the text it produces.
- src/render.rs (PPM output) and src/main.rs (scene assembly) are not part of this model. They are I/O and wiring.
- Hittables.HitRecord.SetFaceNormal: its contract does not repeat `dot(direction, normal) <= 0`. That fact is proved once about `FaceNormal`, in `FaceNormalOpposesRay`. The method's new value is `WithFaceNormal` of the old one, so the fact carries over.
- Spheres.RecordHit: its contract does not repeat `dot(direction, normal) <= 0`. That is `RecordHitOpposesRay`.
