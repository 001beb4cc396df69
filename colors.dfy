/** Colours: the java.awt.Color values the image library works with, and the two
    per-pixel computations of Runigram.java, luminance and blend. */
module Colors {

  /** One colour channel. java.awt.Color's constructor rejects anything outside 0..255,
      so a value of this type is exactly what that constructor accepts. */
  type Channel = v: int | 0 <= v <= 255

  /** An RGB colour. Two pixels are equal iff their three channels are. */
  datatype Pixel = Pixel(red: Channel, green: Channel, blue: Channel)

  function Min(a: int, b: int): int { if a <= b then a else b }
  function Max(a: int, b: int): int { if a <= b then b else a }

  /** The darkest and brightest channel of a pixel. */
  function MinChannel(p: Pixel): int { Min(p.red, Min(p.green, p.blue)) }
  function MaxChannel(p: Pixel): int { Max(p.red, Max(p.green, p.blue)) }

  /** A gray pixel has three equal channels. */
  predicate IsGray(p: Pixel) { p.red == p.green == p.blue }

  /** The luminance weights 0.299, 0.587 and 0.114, in thousandths. */
  const RedWeight: int := 299
  const GreenWeight: int := 587
  const BlueWeight: int := 114

  /** The weighted channel sum of a pixel, in thousandths of a channel unit. */
  function WeightedSum(p: Pixel): int {
    RedWeight * p.red + GreenWeight * p.green + BlueWeight * p.blue
  }

  /** Runigram.luminance: the gray pixel whose level is the weighted sum truncated
      to an integer. Since the weights add up to one, the level lies between the
      darkest and the brightest channel, so the Color constructor cannot fail. */
  function Luminance(p: Pixel): (q: Pixel)
    ensures IsGray(q)
    ensures 1000 * q.red <= WeightedSum(p) < 1000 * (q.red + 1)
    ensures MinChannel(p) <= q.red <= MaxChannel(p)
  {
    var lum := WeightedSum(p) / 1000;
    Pixel(lum, lum, lum)
  }

  /** Luminance leaves a gray pixel as it is, which is what makes grayscale idempotent. */
  lemma LuminanceOfGray(p: Pixel)
    requires IsGray(p)
    ensures Luminance(p) == p
  {
    assert WeightedSum(p) == 1000 * p.red;
  }

  /** The exact value alpha * v1 + (1 - alpha) * v2 before truncation. */
  function Mix(v1: int, v2: int, alpha: real): real {
    alpha * v1 as real + (1.0 - alpha) * v2 as real
  }

  /** For alpha in [0, 1] the mix lies between its two operands. */
  lemma MixBetween(v1: int, v2: int, alpha: real)
    requires 0.0 <= alpha <= 1.0
    ensures Min(v1, v2) as real <= Mix(v1, v2, alpha) <= Max(v1, v2) as real
  {
    var d := (v1 - v2) as real;
    assert Mix(v1, v2, alpha) == v2 as real + alpha * d;
    if d >= 0.0 {
      assert 0.0 <= alpha * d <= d;
    } else {
      assert d <= alpha * d <= 0.0;
    }
  }

  /** One channel of Runigram.blend: the mix truncated toward zero (the mix is never
      negative here, so truncation is the floor). It stays between the two input
      channels, so the Color constructor accepts it, and the end points of alpha
      give back the inputs exactly. */
  function BlendChannel(v1: Channel, v2: Channel, alpha: real): (v: Channel)
    requires 0.0 <= alpha <= 1.0
    ensures v as real <= Mix(v1, v2, alpha) < v as real + 1.0
    ensures Min(v1, v2) <= v <= Max(v1, v2)
    ensures alpha == 1.0 ==> v == v1
    ensures alpha == 0.0 ==> v == v2
  {
    MixBetween(v1, v2, alpha);
    Mix(v1, v2, alpha).Floor
  }

  /** Runigram.blend on two colours: channel by channel, alpha parts of c1 and
      (1 - alpha) parts of c2. */
  function BlendPixel(c1: Pixel, c2: Pixel, alpha: real): (c: Pixel)
    requires 0.0 <= alpha <= 1.0
    ensures alpha == 1.0 ==> c == c1
    ensures alpha == 0.0 ==> c == c2
    ensures Between(c, c1, c2)
  {
    Pixel(BlendChannel(c1.red, c2.red, alpha),
          BlendChannel(c1.green, c2.green, alpha),
          BlendChannel(c1.blue, c2.blue, alpha))
  }

  /** Each channel of c lies between the corresponding channels of c1 and c2. */
  predicate Between(c: Pixel, c1: Pixel, c2: Pixel) {
    && Min(c1.red, c2.red) <= c.red <= Max(c1.red, c2.red)
    && Min(c1.green, c2.green) <= c.green <= Max(c1.green, c2.green)
    && Min(c1.blue, c2.blue) <= c.blue <= Max(c1.blue, c2.blue)
  }

  /** Blending a colour with itself gives that colour, whatever alpha is. */
  lemma BlendPixelSame(c: Pixel, alpha: real)
    requires 0.0 <= alpha <= 1.0
    ensures BlendPixel(c, c, alpha) == c
  {
  }

  /** The halfway blend of pure red and mid gray truncates 177.5 down to 177. */
  lemma BlendPixelHalfway()
    ensures BlendPixel(Pixel(255, 0, 0), Pixel(100, 100, 100), 0.5) == Pixel(177, 50, 50)
  {
    assert Mix(255, 100, 0.5) == 177.5;
    assert Mix(0, 100, 0.5) == 50.0;
  }
}
