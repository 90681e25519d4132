/** Small numeric helpers (src/utils.rs). */
module Utils {

  /** `clamp(x, min, max)`: the lower bound is tested first, then the upper one. */
  function Clamp(x: real, min: real, max: real): (r: real)
    ensures x < min ==> r == min
    ensures min <= x && max < x ==> r == max
    ensures min <= x <= max ==> r == x
    ensures min <= max ==> min <= r <= max
  {
    if x < min then min
    else if x > max then max
    else x
  }

  /** Clamping twice changes nothing, provided the bounds are ordered; with
      `max < min` a value below `min` is first raised to `min` and then lowered to `max`. */
  lemma ClampIdempotent(x: real, min: real, max: real)
    requires min <= max
    ensures Clamp(Clamp(x, min, max), min, max) == Clamp(x, min, max)
  {
  }

  lemma ClampNotIdempotentWhenBoundsCross()
    ensures Clamp(Clamp(0.0, 2.0, 1.0), 2.0, 1.0) != Clamp(0.0, 2.0, 1.0)
  {
  }

  /** `AspectRatio(width, height)`, built from a pair by `From<(f32, f32)>`. */
  datatype AspectRatio = AspectRatio(width: real, height: real)
  {
    /** `as_f32`: width over height. */
    function AsReal(): (q: real)
      requires height != 0.0
      ensures q * height == width
    {
      width / height
    }
  }

  /** `From<(f32, f32)>` keeps the components in order. */
  function FromPair(value: (real, real)): (a: AspectRatio)
    ensures a.width == value.0 && a.height == value.1
  {
    AspectRatio(value.0, value.1)
  }

  lemma SixteenByNine()
    ensures FromPair((16.0, 9.0)).AsReal() == 16.0 / 9.0
  {
  }
}
