/** Images as values: the whole-image transforms of Runigram.java stated as functions
    over rows of pixels, with the properties they are meant to have. The imperative
    versions in module Runigram are proved equal to these. */
module Images {
  import opened Colors

  /** An image is a sequence of rows; pixel (i, j) is img[i][j]. */
  type Image = seq<seq<Pixel>>

  /** img has exactly `rows` rows of `cols` pixels each. */
  predicate HasShape(img: Image, rows: nat, cols: nat) {
    |img| == rows && forall i :: 0 <= i < |img| ==> |img[i]| == cols
  }

  /** The images the library's functions accept: at least one row (they all read
      image[0].length) and every row as long as the first. Rows may be empty. */
  predicate IsImage(img: Image) {
    |img| >= 1 && HasShape(img, |img|, |img[0]|)
  }

  function Rows(img: Image): nat { |img| }

  function Columns(img: Image): nat
    requires |img| >= 1
  {
    |img[0]|
  }

  // ---------------------------------------------------------------- flips

  /** Runigram.flippedHorizontally: the mirror image across the vertical axis. */
  function FlippedHorizontally(img: Image): (r: Image)
    requires IsImage(img)
    ensures IsImage(r) && HasShape(r, Rows(img), Columns(img))
  {
    var cols := Columns(img);
    seq(Rows(img), i requires 0 <= i < Rows(img) =>
      seq(cols, j requires 0 <= j < cols => img[i][cols - 1 - j]))
  }

  /** Runigram.flippedVertically: the mirror image across the horizontal axis. */
  function FlippedVertically(img: Image): (r: Image)
    requires IsImage(img)
    ensures IsImage(r) && HasShape(r, Rows(img), Columns(img))
  {
    var rows, cols := Rows(img), Columns(img);
    seq(rows, i requires 0 <= i < rows =>
      seq(cols, j requires 0 <= j < cols => img[rows - 1 - i][j]))
  }

  /** Flipping horizontally twice gives back the original image. */
  lemma FlipHorizontalInvolution(img: Image)
    requires IsImage(img)
    ensures FlippedHorizontally(FlippedHorizontally(img)) == img
  {
    var twice := FlippedHorizontally(FlippedHorizontally(img));
    forall i | 0 <= i < Rows(img)
      ensures twice[i] == img[i]
    {
      assert |twice[i]| == |img[i]|;
    }
  }

  /** Flipping vertically twice gives back the original image. */
  lemma FlipVerticalInvolution(img: Image)
    requires IsImage(img)
    ensures FlippedVertically(FlippedVertically(img)) == img
  {
    var twice := FlippedVertically(FlippedVertically(img));
    forall i | 0 <= i < Rows(img)
      ensures twice[i] == img[i]
    {
      assert |twice[i]| == |img[i]|;
    }
  }

  // ------------------------------------------------------------ grayscale

  /** Runigram.grayScaled: luminance applied to every pixel; every output pixel is gray. */
  function GrayScaled(img: Image): (r: Image)
    requires IsImage(img)
    ensures IsImage(r) && HasShape(r, Rows(img), Columns(img))
    ensures forall i, j :: 0 <= i < Rows(r) && 0 <= j < Columns(r) ==> IsGray(r[i][j])
  {
    var cols := Columns(img);
    seq(Rows(img), i requires 0 <= i < Rows(img) =>
      seq(cols, j requires 0 <= j < cols => Luminance(img[i][j])))
  }

  /** Grayscale is idempotent (with exact arithmetic; see README). */
  lemma GrayScaledIdempotent(img: Image)
    requires IsImage(img)
    ensures GrayScaled(GrayScaled(img)) == GrayScaled(img)
  {
    var once := GrayScaled(img);
    var twice := GrayScaled(once);
    forall i, j | 0 <= i < Rows(img) && 0 <= j < Columns(img)
      ensures twice[i][j] == once[i][j]
    {
      LuminanceOfGray(once[i][j]);
    }
    forall i | 0 <= i < Rows(img)
      ensures twice[i] == once[i]
    {
      assert |twice[i]| == |once[i]|;
    }
  }

  // --------------------------------------------------------------- resize

  /** The nearest-neighbour source coordinate of Runigram.scaled: output coordinate k
      of an axis resized from `from` to `to` cells reads source cell floor(k * from / to),
      which always lies inside the source. */
  function SourceIndex(k: nat, from: nat, to: nat): (s: nat)
    requires k < to && from > 0
    ensures s < from
    ensures s * to <= k * from < (s + 1) * to
  {
    var s := (k * from) / to;
    SourceIndexBounds(k, from, to, s);
    s
  }

  /** The floor s of k * from / to is below `from` when k < to. */
  lemma SourceIndexBounds(k: nat, from: nat, to: nat, s: int)
    requires k < to && from > 0
    requires s == (k * from) / to
    ensures 0 <= s < from
    ensures s * to <= k * from < (s + 1) * to
  {
    var q := k * from;
    var r := q % to;
    assert q == s * to + r && 0 <= r < to;
    assert (s + 1) * to == s * to + to;
    assert q < to * from by {
      MulStrictMono(k, to, from);
    }
    MulMonoIf(from, s, to);
  }

  /** a < b and c > 0 give a * c < b * c. */
  lemma MulStrictMono(a: nat, b: nat, c: nat)
    requires a < b && c > 0
    ensures a * c < b * c
  {
    assert b * c == a * c + (b - a) * c;
    assert (b - a) * c >= c by {
      MulMono(1, b - a, c);
    }
  }

  /** a <= b gives a * c <= b * c. */
  lemma {:induction false} MulMono(a: nat, b: nat, c: nat)
    requires a <= b
    ensures a * c <= b * c
  {
    if a < b {
      MulMono(a, b - 1, c);
      assert b * c == (b - 1) * c + c;
    }
  }

  /** The same, as an implication that holds for all arguments. */
  lemma MulMonoIf(a: nat, b: nat, c: nat)
    ensures a <= b ==> a * c <= b * c
  {
    if a <= b {
      MulMono(a, b, c);
    }
  }

  /** Resizing an axis to its own length reads every cell from itself. */
  lemma SourceIndexIdentity(k: nat, n: nat)
    requires k < n
    ensures SourceIndex(k, n, n) == k
  {
    var s := SourceIndex(k, n, n);
    MulMonoIf(s + 1, k, n);
    MulMonoIf(k + 1, s, n);
  }

  /** Runigram.scaled: nearest-neighbour resize to `height` rows of `width` pixels.
      When both target sizes are positive the source must have a column to read. */
  function Scaled(img: Image, width: nat, height: nat): (r: Image)
    requires IsImage(img)
    requires width > 0 && height > 0 ==> Columns(img) > 0
    ensures HasShape(r, height, width)
  {
    var h0, w0 := Rows(img), Columns(img);
    seq(height, i requires 0 <= i < height =>
      seq(width, j requires 0 <= j < width =>
        img[SourceIndex(i, h0, height)][SourceIndex(j, w0, width)]))
  }

  /** Scaling an image to its own width and height returns it unchanged. */
  lemma ScaledIdentity(img: Image)
    requires IsImage(img)
    ensures Scaled(img, Columns(img), Rows(img)) == img
  {
    var h, w := Rows(img), Columns(img);
    var r := Scaled(img, w, h);
    forall i | 0 <= i < h
      ensures r[i] == img[i]
    {
      SourceIndexIdentity(i, h);
      forall j | 0 <= j < w
        ensures r[i][j] == img[i][j]
      {
        SourceIndexIdentity(j, w);
      }
    }
  }

  // ---------------------------------------------------------------- blend

  /** What the image blend needs of its second operand. Only the first image's extent is
      read, and only inside the loop over its columns: when the first image has columns,
      the second must have at least as many rows and columns; otherwise it is never read. */
  predicate Covers(img2: Image, img1: Image)
    requires IsImage(img1)
  {
    Columns(img1) > 0 ==> IsImage(img2) && Rows(img2) >= Rows(img1) && Columns(img2) >= Columns(img1)
  }

  /** Runigram.blend on two images: the pixel-wise blend over the first image's extent. */
  function Blend(img1: Image, img2: Image, alpha: real): (r: Image)
    requires IsImage(img1) && Covers(img2, img1)
    requires 0.0 <= alpha <= 1.0
    ensures IsImage(r) && HasShape(r, Rows(img1), Columns(img1))
  {
    var cols := Columns(img1);
    seq(Rows(img1), i requires 0 <= i < Rows(img1) =>
      seq(cols, j requires 0 <= j < cols => BlendPixel(img1[i][j], img2[i][j], alpha)))
  }

  /** Every blended pixel lies channel-wise between the two pixels it mixes. */
  lemma BlendBetween(img1: Image, img2: Image, alpha: real, i: nat, j: nat)
    requires IsImage(img1) && Covers(img2, img1)
    requires 0.0 <= alpha <= 1.0
    requires i < Rows(img1) && j < Columns(img1)
    ensures Between(Blend(img1, img2, alpha)[i][j], img1[i][j], img2[i][j])
  {
  }

  /** alpha = 1 gives the first image. */
  lemma BlendAtOne(img1: Image, img2: Image)
    requires IsImage(img1) && Covers(img2, img1)
    ensures Blend(img1, img2, 1.0) == img1
  {
    var r := Blend(img1, img2, 1.0);
    forall i | 0 <= i < Rows(img1)
      ensures r[i] == img1[i]
    {
      assert |r[i]| == |img1[i]|;
    }
  }

  /** alpha = 0 gives the second image, when the two have the same dimensions. */
  lemma BlendAtZero(img1: Image, img2: Image)
    requires IsImage(img1) && IsImage(img2)
    requires Rows(img2) == Rows(img1) && Columns(img2) == Columns(img1)
    ensures Blend(img1, img2, 0.0) == img2
  {
    var r := Blend(img1, img2, 0.0);
    forall i | 0 <= i < Rows(img1)
      ensures r[i] == img2[i]
    {
      assert |r[i]| == |img2[i]|;
    }
  }

  // ---------------------------------------------------------------- morph

  /** The blend weight of frame k of an n-step morph: (n - k) / n, from 1 down to 0. */
  function FrameWeight(k: nat, n: nat): (alpha: real)
    requires 0 < n && k <= n
    ensures 0.0 <= alpha <= 1.0
    ensures alpha * n as real == (n - k) as real
  {
    (n - k) as real / n as real
  }

  /** The all-black image of the given size. */
  function Black(rows: nat, cols: nat): (r: Image)
    ensures HasShape(r, rows, cols)
  {
    seq(rows, i => seq(cols, j => Pixel(0, 0, 0)))
  }

  /** What Runigram.morph needs of its arguments: two images, and a column of the target
      to read whenever the source has columns. */
  predicate MorphArguments(source: Image, target: Image) {
    IsImage(source) && IsImage(target) && (Columns(source) > 0 ==> Columns(target) > 0)
  }

  /** The target of Runigram.morph after it is resized, once, to the source's size. */
  function ScaledTarget(source: Image, target: Image): (r: Image)
    requires MorphArguments(source, target)
    ensures IsImage(r) && HasShape(r, Rows(source), Columns(source))
  {
    Scaled(target, Columns(source), Rows(source))
  }

  /** Frame k of an n-step morph towards an already resized target. For n >= 1 it blends
      the two at weight (n - k) / n. The Java loop runs for n = 0 too, with weight
      0.0 / 0 = NaN, and (int) NaN is 0: the one frame is black. */
  function Frame(source: Image, scaledTarget: Image, n: nat, k: nat): (r: Image)
    requires IsImage(source) && Covers(scaledTarget, source) && k <= n
    ensures HasShape(r, Rows(source), Columns(source))
  {
    if n == 0 then Black(Rows(source), Columns(source))
    else Blend(source, scaledTarget, FrameWeight(k, n))
  }

  /** The frames Runigram.morph displays, in order: frame k for k = 0..n, after the target
      is resized once to the source's size. For n < 0 the loop shows nothing. */
  function MorphFrames(source: Image, target: Image, n: int): (frames: seq<Image>)
    requires MorphArguments(source, target)
    ensures |frames| == if n < 0 then 0 else n + 1
    ensures forall k :: 0 <= k < |frames| ==> HasShape(frames[k], Rows(source), Columns(source))
  {
    var scaledTarget := ScaledTarget(source, target);
    if n < 0 then []
    else seq(n + 1, k requires 0 <= k <= n => Frame(source, scaledTarget, n, k))
  }

  /** The first frame of a morph of n >= 1 steps is the source itself. */
  lemma MorphFirstFrame(source: Image, target: Image, n: int)
    requires MorphArguments(source, target) && n >= 1
    ensures MorphFrames(source, target, n)[0] == source
  {
    assert FrameWeight(0, n) == 1.0;
    BlendAtOne(source, ScaledTarget(source, target));
  }

  /** The last frame of a morph of n >= 1 steps is the target resized to the source's size. */
  lemma MorphLastFrame(source: Image, target: Image, n: int)
    requires MorphArguments(source, target) && n >= 1
    ensures MorphFrames(source, target, n)[n] == ScaledTarget(source, target)
  {
    assert FrameWeight(n, n) == 0.0;
    BlendAtZero(source, ScaledTarget(source, target));
  }

  /** Every pixel of every frame of a morph of n >= 1 steps lies channel-wise between the
      source pixel and the resized target pixel at the same place. */
  lemma MorphFrameBetween(source: Image, target: Image, n: int, k: nat, i: nat, j: nat)
    requires MorphArguments(source, target) && n >= 1
    requires k <= n && i < Rows(source) && j < Columns(source)
    ensures Between(MorphFrames(source, target, n)[k][i][j], source[i][j], ScaledTarget(source, target)[i][j])
  {
    BlendBetween(source, ScaledTarget(source, target), FrameWeight(k, n), i, j);
  }

  /** A morph of zero steps shows a single all-black frame. */
  lemma MorphZeroSteps(source: Image, target: Image)
    requires MorphArguments(source, target)
    ensures MorphFrames(source, target, 0) == [Black(Rows(source), Columns(source))]
  {
  }

  /** Morphing an image into its own grayscale version (the use of morph in Editor4.java)
      starts at the image and ends exactly at its grayscale version: the resize step is
      the identity because the two have the same size. */
  lemma MorphToGrayScale(source: Image, n: int)
    requires IsImage(source) && n >= 1
    ensures MorphArguments(source, GrayScaled(source))
    ensures MorphFrames(source, GrayScaled(source), n)[0] == source
    ensures MorphFrames(source, GrayScaled(source), n)[n] == GrayScaled(source)
  {
    var gray := GrayScaled(source);
    MorphFirstFrame(source, gray, n);
    MorphLastFrame(source, gray, n);
    ScaledIdentity(gray);
  }

  /** A 2 x 2 picture with a red, a green, a blue and a white pixel. */
  function ExampleSource(): Image {
    [[Pixel(255, 0, 0), Pixel(0, 255, 0)], [Pixel(0, 0, 255), Pixel(255, 255, 255)]]
  }

  /** A 2 x 2 picture of uniform mid gray. */
  function ExampleTarget(): Image {
    var gray := Pixel(100, 100, 100);
    [[gray, gray], [gray, gray]]
  }

  /** A four-step morph of the example pictures: it starts at the source, ends at the
      gray target, and halfway its top-left pixel is red blended with gray at 0.5,
      truncated to (177, 50, 50). */
  lemma MorphExample()
    ensures MorphArguments(ExampleSource(), ExampleTarget())
    ensures MorphFrames(ExampleSource(), ExampleTarget(), 4)[0] == ExampleSource()
    ensures MorphFrames(ExampleSource(), ExampleTarget(), 4)[4] == ExampleTarget()
    ensures MorphFrames(ExampleSource(), ExampleTarget(), 4)[2][0][0] == Pixel(177, 50, 50)
  {
    var source, target := ExampleSource(), ExampleTarget();
    MorphFirstFrame(source, target, 4);
    MorphLastFrame(source, target, 4);
    ScaledIdentity(target);
    assert FrameWeight(2, 4) == 0.5;
    BlendPixelHalfway();
  }
}
