// Colour output: the gamma curve and the clamp-and-quantise step that turns
// a linear colour channel into a byte.
module Colors {
  import opened ExtReals
  import opened Vectors
  import opened Intervals
  import opened Common

  /** The exponent of the gamma curve. */
  const GammaExponent: real := 1.0 / 2.2

  /** What the properties below need of std::pow at the exponent 1/2.2:
      a positive base gives a positive power, 1 to that power is 1, and the
      power grows with the base. */
  ghost predicate IsGammaPow(pow: (real, real) -> real) {
    && (forall x: real :: x > 0.0 ==> pow(x, GammaExponent) > 0.0)
    && pow(1.0, GammaExponent) == 1.0
    && (forall x: real, y: real :: 0.0 < x <= y ==> pow(x, GammaExponent) <= pow(y, GammaExponent))
  }

  /** linear_to_gamma: 0 for a non-positive component, else
      pow(component, 1/2.2). pow is a parameter; for a pow that behaves as
      std::pow does (IsGammaPow) a positive component gives a positive
      value, and a component in (0, 1] a value in (0, 1]. */
  function Linear2Gamma(component: real, pow: (real, real) -> real): (r: real)
    ensures component <= 0.0 ==> r == 0.0
    ensures component > 0.0 ==> r == pow(component, GammaExponent)
    ensures IsGammaPow(pow) && component > 0.0 ==> r > 0.0
    ensures IsGammaPow(pow) && 0.0 < component <= 1.0 ==> 0.0 < r <= 1.0
  {
    if component > 0.0 then pow(component, GammaExponent) else 0.0
  }

  /** The constant clamp interval [0, 1]. */
  const Intensity: Interval := Of(0.0, 1.0)

  /** int(255 * intensity.clamp(gamma)) */
  function Quantize(gamma: real): int {
    Truncate(255.0 * Clamp(Intensity, gamma).v)
  }

  /** One channel: gamma curve, clamp, quantise. */
  function ChannelByte(linear: real, pow: (real, real) -> real): int {
    Quantize(Linear2Gamma(linear, pow))
  }

  /** The three bytes write_color prints. */
  function ColorBytes(pixel: Color, pow: (real, real) -> real): (int, int, int) {
    (ChannelByte(pixel.x, pow), ChannelByte(pixel.y, pow), ChannelByte(pixel.z, pow))
  }

  /** Every byte lies in [0, 255]; values at or below 0 give 0, values at
      or above 1 give 255, and in between the byte is the floor of 255 * g. */
  lemma QuantizeRange(g: real)
    ensures 0 <= Quantize(g) <= 255
    ensures g <= 0.0 ==> Quantize(g) == 0
    ensures g >= 1.0 ==> Quantize(g) == 255
    ensures 0.0 <= g <= 1.0 ==> Quantize(g) == (255.0 * g).Floor
  {
    ClampInRange(Intensity, g);
  }

  /** Quantising is monotone. */
  lemma QuantizeMonotone(g: real, h: real)
    requires g <= h
    ensures Quantize(g) <= Quantize(h)
  {
    ClampInRange(Intensity, g);
    ClampInRange(Intensity, h);
  }

  /** A channel whose linear value is not positive quantises to 0; one whose
      gamma value reaches 1 quantises to 255; every channel is a byte. */
  lemma ChannelByteRange(linear: real, pow: (real, real) -> real)
    ensures 0 <= ChannelByte(linear, pow) <= 255
    ensures linear <= 0.0 ==> ChannelByte(linear, pow) == 0
    ensures Linear2Gamma(linear, pow) >= 1.0 ==> ChannelByte(linear, pow) == 255
  {
    QuantizeRange(Linear2Gamma(linear, pow));
  }
}
