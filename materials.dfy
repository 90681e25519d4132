/** The two materials of the ray tracer and their constructors (src/material.rs).
    Their `scatter` rules are in module Scattering. */
module Materials {
  import opened Colors

  datatype Material =
    | Lambertian(albedo: Color)
    | Metal(albedo: Color, fuzz: real)

  /** `Lambertian::new` */
  function NewLambertian(albedo: Color): (m: Material)
    ensures m.Lambertian? && m.albedo == albedo
  {
    Lambertian(albedo)
  }

  /** `Metal::new`: fuzz is capped at 1; a fuzz below 1, negative ones included,
      is stored unchanged. */
  function NewMetal(albedo: Color, fuzz: real): (m: Material)
    ensures m.Metal? && m.albedo == albedo
    ensures m.fuzz <= 1.0
    ensures fuzz < 1.0 ==> m.fuzz == fuzz
    ensures 1.0 <= fuzz ==> m.fuzz == 1.0
  {
    Metal(albedo, if fuzz < 1.0 then fuzz else 1.0)
  }

  /** The cap is idempotent: rebuilding a metal from its own fuzz changes nothing. */
  lemma NewMetalIdempotent(albedo: Color, fuzz: real)
    ensures NewMetal(albedo, NewMetal(albedo, fuzz).fuzz) == NewMetal(albedo, fuzz)
  {
  }
}
