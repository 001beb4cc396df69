# Runigram in Dafny

A model of `Runigram.java`, a small library of image functions over a rectangular grid of RGB
pixels. It reads an image in the plain PPM (P3) text format of Netpbm. It flips images
horizontally and vertically, converts them to grayscale by luminance, and resizes them by
nearest-neighbour sampling. It blends two colours or two images, and it morphs one image into
another as a sequence of blended frames.

The project has four modules:

- `Colors` (`colors.dfy`): the pixel datatype and the two single-expression computations,
  luminance and the colour blend. A channel is an `int` in 0..255, the range that the
  `java.awt.Color` constructor accepts.
- `Images` (`images.dfy`): images as values (`seq<seq<Pixel>>`). It holds one function per
  whole-image operation, the morph as the list of frames it displays, and the lemmas about them:
  flip involution, grayscale idempotence, resize bounds and resize identity, blend end points,
  morph frame count and end points.
- `Ppm` (`ppm.dfy`): the token-level decoder that specifies `read`, including every way reading
  can fail and in which order. It also has an encoder and the decode/encode round trip.
- `Runigram` (`runigram.dfy`): the Java methods as the Java code runs them, each allocating
  fresh `array2` arrays. The flips, `grayScaled`, `scaled` and `blend` fill their result in
  nested loops. `read` checks the header and then fills the image in the nested loop of
  `ReadPixelGrid`. `morph` is one loop over the frames. Each method is proved to produce exactly
  the image, or the frames, that the `Images` or `Ppm` function specifies, so the lemmas about
  those functions carry over to it.

The model follows the Java code as written:

- The image `blend` never compares the two images' dimensions. It reads only the first image's
  rows and columns, so a larger second image is accepted. When the first image has columns, a
  smaller second image makes Java index out of bounds, and the model requires the second image
  to be at least as large. When the first image has no columns the inner loop never runs, the
  second image is never read, and the model accepts any second image (`Images.Covers`).
- `morph` with `n = 0` does not throw. The weight `(double) 0 / 0` is NaN and `(int) NaN` is 0,
  so Java shows a single all-black frame. With `n < 0` the loop shows nothing. Both cases are
  modelled (`Images.Frame`, `Images.MorphFrames`).
- `scaled` does not reject a width or height of 0: the result has no rows, or rows with no
  pixels. Negative sizes make Java throw, and the model takes them as `nat`.
- `read` fails with whichever exception comes first: the file ends (`EndOfInput`), a token is
  not an `int` (`NotAnInt`), a size is negative (`NegativeSize`) or a channel is out of range
  (`ChannelOutOfRange`).

Arithmetic is exact where Java uses `double`:

- Luminance is `(299 r + 587 g + 114 b) / 1000`, truncated.
- Resize indices are `(i * h0) / height` and `(j * w0) / width`.
- Blend weights are `real`. The morph weight is the rational `(n - k) / n`.
- The values are truncated with `.Floor`. This equals Java's truncating cast here because
  every value involved is non-negative.

IEEE rounding can make a Java result smaller by one than the exact one when the exact value is
an integer. For luminance, `0.299 v + 0.587 v + 0.114 v` comes out just below `v` for 65 of the
256 gray levels (for example 1, 2, 4 and 8), so Java maps such a gray pixel to `v - 1`.
Grayscale idempotence and the luminance of a gray pixel (`Images.GrayScaledIdempotent`,
`Colors.LuminanceOfGray`) therefore hold of the model but not of Java on those levels. The same
can happen to a blended channel at an interior weight that a `double` cannot represent exactly,
such as the morph weight `(n - k) / n` for 0 < k < n. The end points are exact in Java as
well: alpha 1.0 and 0.0, and the morph weights at k = 0 and k = n, are exactly 1.0 and 0.0,
so the blend and morph end-point lemmas hold of Java too.

## Model

| member | source | states |
|---|---|---|
| `Colors.Luminance` | Runigram.java:138-141 | the result is gray; its level is the weighted sum 0.299 r + 0.587 g + 0.114 b truncated (1000·level ≤ sum < 1000·(level+1)), and it lies between the smallest and largest input channel, so the Color constructor accepts it |
| `Colors.LuminanceOfGray` | Runigram.java:138-141 | a gray pixel is its own luminance (the weights add up to one) |
| `Colors.MixBetween` | Runigram.java:188-190 | for alpha in [0,1], alpha·v1 + (1−alpha)·v2 lies between v1 and v2 |
| `Colors.BlendChannel` | Runigram.java:188-190 | one blended channel is the truncated mix, lies between the two input channels, equals v1 at alpha = 1 and v2 at alpha = 0 |
| `Colors.BlendPixel` | Runigram.java:187-192 | blend of two colours: c1 at alpha = 1, c2 at alpha = 0, every channel between the inputs' channels |
| `Colors.BlendPixelSame` | Runigram.java:187-192 | blending a colour with itself gives that colour for every alpha |
| `Colors.BlendPixelHalfway` | Runigram.java:187-192 | blend((255,0,0), (100,100,100), 0.5) = (177,50,50): 177.5 is truncated |
| `Images.FlippedHorizontally` | Runigram.java:106-117 | the horizontal mirror has the input's rows and columns |
| `Images.FlipHorizontalInvolution` | Runigram.java:106-117 | flipping horizontally twice gives back the image |
| `Images.FlippedVertically` | Runigram.java:122-133 | the vertical mirror has the input's rows and columns |
| `Images.FlipVerticalInvolution` | Runigram.java:122-133 | flipping vertically twice gives back the image |
| `Images.GrayScaled` | Runigram.java:146-158 | same dimensions as the input, and every output pixel has three equal channels |
| `Images.GrayScaledIdempotent` | Runigram.java:146-158 | grayscaling a grayscaled image changes nothing |
| `Images.SourceIndex` | Runigram.java:172-173 | the nearest-neighbour source index floor(k·from/to) is inside the source (< from) for every k < to, with s·to ≤ k·from < (s+1)·to |
| `Images.SourceIndexIdentity` | Runigram.java:172-173 | resizing an axis to its own length maps every index to itself |
| `Images.Scaled` | Runigram.java:164-179 | the resized image has exactly `height` rows of `width` pixels |
| `Images.ScaledIdentity` | Runigram.java:164-179 | resizing an image to its own width and height returns it unchanged |
| `Images.Blend` | Runigram.java:200-212 | the blended image has the first image's rows and columns |
| `Images.BlendBetween` | Runigram.java:200-212 | every blended pixel lies channel-wise between the two pixels it mixes |
| `Images.BlendAtOne` | Runigram.java:200-212 | blending at alpha = 1 gives the first image |
| `Images.BlendAtZero` | Runigram.java:200-212 | blending at alpha = 0 gives the second image when the dimensions agree |
| `Images.FrameWeight` | Runigram.java:224 | the weight (n−k)/n of frame k lies in [0,1] and times n gives n−k |
| `Images.ScaledTarget` | Runigram.java:221 | the target resized once to the source's width and height has the source's dimensions |
| `Images.Frame` | Runigram.java:223-226 | each frame has the source's dimensions |
| `Images.MorphFrames` | Runigram.java:220-229 | morph produces n+1 frames for n ≥ 0 and none for n < 0, each of the source's dimensions |
| `Images.MorphFirstFrame` | Runigram.java:220-229 | frame 0 of an n ≥ 1 step morph is the source |
| `Images.MorphLastFrame` | Runigram.java:220-229 | frame n of an n ≥ 1 step morph is the resized target |
| `Images.MorphFrameBetween` | Runigram.java:220-229 | every pixel of every frame lies channel-wise between the source pixel and the resized target pixel |
| `Images.MorphZeroSteps` | Runigram.java:223-224 | a zero-step morph shows one all-black frame (the weight is NaN) |
| `Images.MorphToGrayScale` | Editor4.java:16-18 | morphing an image into its own grayscale version starts at the image and ends exactly at its grayscale version |
| `Images.MorphExample` | Runigram.java:220-229 | the 2×2 red/green/blue/white image morphed in 4 steps into uniform (100,100,100) starts at the source, ends at the target, and frame 2's top-left pixel is (177,50,50) |
| `Ppm.ReadInt` | Runigram.java:56-70 | reading one int succeeds exactly on an integer token within Java's int range and gives its value; past the last token it fails with EndOfInput, on any other token with NotAnInt |
| `Ppm.ReadPixel` | Runigram.java:68-71 | a pixel reads exactly when its three tokens are integers in 0..255, and it is then the colour of those three values; ChannelOutOfRange only comes after all three read as ints, and any other error is that of the first of the three that does not |
| `Ppm.ReadPixels` | Runigram.java:66-73 | reading the first `count` triples succeeds iff each of them reads; then pixel k is the k-th triple, and otherwise the error is that of the first triple that fails |
| `Ppm.Decode` | Runigram.java:52-75 | on success the column count is the second token and the row count the third; the image has that many rows and columns, and pixel (i,j) is the (i·columns+j)-th triple after the header |
| `Ppm.DecodeTooShort` | Runigram.java:66-73 | a valid header followed by valid channel values that stop too early fails with EndOfInput |
| `Ppm.DecodeEncode` | Runigram.java:52-75 | decoding the P3 text of an image (dimensions within int range) gives back the image |
| `Runigram.Read` | Runigram.java:52-75 | reading fails exactly when `Decode` fails and with its error; otherwise it returns a fresh array holding `Decode`'s image |
| `Runigram.ReadPixelGrid` | Runigram.java:60-73 | the nested read loop fills a fresh rows×columns array with the triples in row-major order, or stops with the error of the first triple that cannot be read |
| `Runigram.ReadPixelsFailsAt` | Runigram.java:66-73 | once a triple fails to read, reading any longer run of triples fails with its error |
| `Runigram.FlippedHorizontally` | Runigram.java:106-117 | returns a fresh array equal to `Images.FlippedHorizontally` of the input |
| `Runigram.FlippedVertically` | Runigram.java:122-133 | returns a fresh array equal to `Images.FlippedVertically` of the input |
| `Runigram.GrayScaled` | Runigram.java:146-158 | returns a fresh array equal to `Images.GrayScaled` of the input |
| `Runigram.Scaled` | Runigram.java:164-179 | returns a fresh height×width array equal to `Images.Scaled` of the input |
| `Runigram.Blend` | Runigram.java:200-212 | returns a fresh array equal to `Images.Blend` of the two inputs |
| `Runigram.Morph` | Runigram.java:220-229 | returns the frames in display order, each a fresh array equal to the matching element of `Images.MorphFrames` |

## Left out

- `print(Color)`, `print(Color[][])` and `main` (Runigram.java:11-46, 78-101): console output and ad-hoc testing.
- `setCanvas`, `display` and the `StdDraw.pause(500)` in `morph` (Runigram.java:227, 234-263): drawing and timing go through the StdDraw library, which is not part of this model. `Runigram.Morph` returns the frames in the order they would be displayed.
- The `In` reader used by `read`: splitting the file text into tokens is not modelled. `Runigram.Read` takes the tokens directly, and a token is either an integer (`Num`) or any other word (`Word`).
- `Editor4.java`: it parses two arguments and wires `read`, `grayScaled`, `setCanvas` and `morph` together. Its effect on the images is stated by `Images.MorphToGrayScale`.
- `Colors.Luminance`: it uses exact integer arithmetic instead of IEEE doubles, so it can be one higher than Java's result when the exact weighted sum is an integer.
- `Images.SourceIndex`: it uses exact integer division instead of `i * ((double) h0 / height)`, so the Java index can be one lower when the exact quotient is an integer.
- `Colors.BlendPixel`: it requires alpha in [0,1]. Java accepts any double, and its `Color` constructor throws when a blended channel leaves 0..255. The only caller, `morph`, always passes a weight in [0,1] when n ≥ 1.
- `Runigram.Blend`: it requires alpha in [0,1], and a second image at least as large as the first whenever the first has columns. There a smaller second image makes Java throw `ArrayIndexOutOfBoundsException`, which is not modelled as a result.
- `Runigram.Scaled`: width and height are `nat`. A negative size makes Java throw `NegativeArraySizeException`, which is not modelled. A source without columns is excluded when both target sizes are positive; in Java that indexes out of bounds.
- `Runigram.Morph`: it requires the target to have a column when the source has one. Otherwise Java's resize indexes out of bounds.
- The `Runigram` methods take `array2` arrays, so their inputs are always rectangular. Java's `Color[][]` can be ragged, and a ragged input is outside the model. Java's output arrays share `Color` objects with the input. Colours are immutable, so the model copies pixel values instead.
- `OutOfMemoryError` for huge dimensions, and Java `int` overflow of the loop counters, are not modelled.
