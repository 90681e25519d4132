/** RGB colours and their textual output (src/color.rs). */
module Colors {
  import opened Vectors

  datatype Color = Color(r: real, g: real, b: real)

  /** `Color::new` */
  function New(r: real, g: real, b: real): (c: Color)
    ensures c.r == r && c.g == g && c.b == b
  {
    Color(r, g, b)
  }

  /** `Color::from_vec3`, `Color::lerp` and `f32 * Color` are called by the ray tracer
      but defined nowhere in it; these are their evident meanings. */
  function FromVec3(v: Vec3): Color
  {
    Color(v.x, v.y, v.z)
  }

  function Scale(s: real, c: Color): Color
  {
    Color(s * c.r, s * c.g, s * c.b)
  }

  /** Linear interpolation: `start` at `t == 0`, `end` at `t == 1`. */
  function Lerp(start: Color, end: Color, t: real): Color
  {
    Color((1.0 - t) * start.r + t * end.r,
          (1.0 - t) * start.g + t * end.g,
          (1.0 - t) * start.b + t * end.b)
  }

  // ---------------------------------------------------------------------------
  // Channel quantisation: `(c * 255.999) as usize`

  /** The largest `usize` on a 64-bit target. */
  const UsizeMax: nat := 0xFFFF_FFFF_FFFF_FFFF

  /** Rust's float-to-integer `as` cast truncates toward zero and saturates at the
      bounds of the target type, so every negative value becomes 0. */
  function CastToUsize(x: real): (n: nat)
    ensures n <= UsizeMax
    ensures x <= 0.0 ==> n == 0
    ensures 0.0 <= x < UsizeMax as real ==> n as real <= x < n as real + 1.0
    ensures UsizeMax as real <= x ==> n == UsizeMax
  {
    if x < 0.0 then 0
    else if x >= UsizeMax as real then UsizeMax
    else x.Floor
  }

  function Quantize(c: real): nat
  {
    CastToUsize(c * 255.999)
  }

  /** A channel in [0, 1] is emitted as an integer in [0, 255], with 0 and 1 at the ends. */
  lemma QuantizeUnitRange(c: real)
    requires 0.0 <= c <= 1.0
    ensures 0 <= Quantize(c) <= 255
    ensures Quantize(0.0) == 0 && Quantize(1.0) == 255
  {
    assert (1.0 * 255.999).Floor == 255;
    assert c * 255.999 <= 255.999;
  }

  /** Quantisation is monotone. */
  lemma QuantizeMonotone(c1: real, c2: real)
    requires c1 <= c2
    ensures Quantize(c1) <= Quantize(c2)
  {
    assert c1 * 255.999 <= c2 * 255.999;
  }

  /** Negative channels are emitted as 0 (the cast saturates). */
  lemma QuantizeNegative(c: real)
    requires c < 0.0
    ensures Quantize(c) == 0
  {
    assert c * 255.999 < 0.0;
  }

  // ---------------------------------------------------------------------------
  // Decimal text of a `usize`, and the `"{} {} {}"` triple

  function DigitChar(d: nat): (ch: char)
    requires d < 10
    ensures '0' <= ch <= '9'
  {
    ('0' as int + d) as char
  }

  function DigitValue(ch: char): (d: nat)
    requires '0' <= ch <= '9'
    ensures d < 10
  {
    (ch as int - '0' as int) as nat
  }

  predicate IsDigits(s: string)
  {
    |s| > 0 && forall i :: 0 <= i < |s| ==> '0' <= s[i] <= '9'
  }

  /** Decimal rendering of a non-negative integer, most significant digit first. */
  function Decimal(n: nat): (s: string)
    ensures IsDigits(s)
    decreases n
  {
    if n < 10 then [DigitChar(n)] else Decimal(n / 10) + [DigitChar(n % 10)]
  }

  function DecimalValue(s: string): nat
    requires forall i :: 0 <= i < |s| ==> '0' <= s[i] <= '9'
  {
    if |s| == 0 then 0 else DecimalValue(s[..|s| - 1]) * 10 + DigitValue(s[|s| - 1])
  }

  lemma {:induction false} DecimalRoundTrip(n: nat)
    ensures DecimalValue(Decimal(n)) == n
    decreases n
  {
    var s := Decimal(n);
    if n < 10 {
      assert s[..0] == [];
    } else {
      DecimalRoundTrip(n / 10);
      assert s[..|s| - 1] == Decimal(n / 10);
    }
  }

  /** `Display for Color`: the three quantised channels, in r, g, b order,
      separated by single spaces. */
  function Format(c: Color): string
  {
    Decimal(Quantize(c.r)) + " " + Decimal(Quantize(c.g)) + " " + Decimal(Quantize(c.b))
  }

  /** Splits at the first space: the text before it, and the text after it. */
  function SplitAtSpace(s: string): (string, string)
  {
    if |s| == 0 then ("", "")
    else if s[0] == ' ' then ("", s[1..])
    else
      var (head, rest) := SplitAtSpace(s[1..]);
      ([s[0]] + head, rest)
  }

  lemma {:induction false} SplitAtSpaceAfterDigits(a: string, b: string)
    requires IsDigits(a)
    ensures SplitAtSpace(a + " " + b) == (a, b)
    decreases |a|
  {
    var s := a + " " + b;
    assert s[0] == a[0] && '0' <= a[0] <= '9';
    assert SplitAtSpace(s) == ([s[0]] + SplitAtSpace(s[1..]).0, SplitAtSpace(s[1..]).1);
    if |a| == 1 {
      assert s[1..] == " " + b;
      assert s[1..][0] == ' ' && s[1..][1..] == b;
      assert SplitAtSpace(s[1..]) == ("", b);
      assert [s[0]] + "" == a;
    } else {
      assert s[1..] == a[1..] + " " + b;
      SplitAtSpaceAfterDigits(a[1..], b);
      assert [a[0]] + a[1..] == a;
    }
  }

  /** Reads back a line written by `Format`. */
  function ParseTriple(s: string): Option3
  {
    var (r, rest) := SplitAtSpace(s);
    var (g, b) := SplitAtSpace(rest);
    if IsDigits(r) && IsDigits(g) && IsDigits(b)
    then Some3(DecimalValue(r), DecimalValue(g), DecimalValue(b))
    else None3
  }

  datatype Option3 = None3 | Some3(r: nat, g: nat, b: nat)

  /** The emitted text is exactly the three quantised channels, in order. */
  lemma FormatRoundTrip(c: Color)
    ensures ParseTriple(Format(c)) == Some3(Quantize(c.r), Quantize(c.g), Quantize(c.b))
  {
    var r, g, b := Decimal(Quantize(c.r)), Decimal(Quantize(c.g)), Decimal(Quantize(c.b));
    assert Format(c) == r + " " + (g + " " + b);
    SplitAtSpaceAfterDigits(r, g + " " + b);
    SplitAtSpaceAfterDigits(g, b);
    DecimalRoundTrip(Quantize(c.r));
    DecimalRoundTrip(Quantize(c.g));
    DecimalRoundTrip(Quantize(c.b));
  }
}
