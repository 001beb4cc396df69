/** The image functions of Runigram.java as the Java code runs them: each allocates a
    fresh two-dimensional array and fills it cell by cell in nested loops. Every method
    is proved to produce exactly the image that the corresponding function of module
    Images (or Ppm, for reading) specifies, and never to change its arguments. */
module Runigram {
  import opened Colors
  import opened Images
  import opened Ppm

  /** The image held by a two-dimensional array, row by row. */
  ghost function Grid(a: array2<Pixel>): (g: Image)
    reads a
    ensures HasShape(g, a.Length0, a.Length1)
    ensures forall i, j :: 0 <= i < a.Length0 && 0 <= j < a.Length1 ==> g[i][j] == a[i, j]
  {
    seq(a.Length0, i requires 0 <= i < a.Length0 reads a =>
      seq(a.Length1, j requires 0 <= j < a.Length1 reads a => a[i, j]))
  }

  /** An array holds an image when the two agree in shape and in every cell. */
  lemma GridIs(a: array2<Pixel>, img: Image)
    requires HasShape(img, a.Length0, a.Length1)
    requires forall i, j :: 0 <= i < a.Length0 && 0 <= j < a.Length1 ==> a[i, j] == img[i][j]
    ensures Grid(a) == img
  {
    var g := Grid(a);
    forall i | 0 <= i < a.Length0
      ensures g[i] == img[i]
    {
      assert |g[i]| == |img[i]|;
    }
  }

  /** Runigram.read: reads the header, allocates numRows x numCols pixels and reads them
      in row-major order, failing exactly when and as Ppm.Decode says. */
  method Read(tokens: seq<Token>) returns (result: Result<array2<Pixel>>)
    ensures result.Failure? <==> Decode(tokens).Failure?
    ensures result.Failure? ==> result.error == Decode(tokens).error
    ensures result.Success? ==> fresh(result.value) && Grid(result.value) == Decode(tokens).value
  {
    if |tokens| == 0 {
      return Failure(EndOfInput);
    }
    var numCols :- ReadInt(tokens, 1);
    var numRows :- ReadInt(tokens, 2);
    var maxValue :- ReadInt(tokens, 3);
    if numRows < 0 || numCols < 0 {
      return Failure(NegativeSize);
    }
    result := ReadPixelGrid(tokens, numRows, numCols);
  }

  /** The nested loop of Runigram.read: fills a numRows x numCols array with the pixels
      that follow the header, in row-major order, and stops at the first pixel that
      cannot be read. */
  method ReadPixelGrid(tokens: seq<Token>, numRows: nat, numCols: nat) returns (result: Result<array2<Pixel>>)
    ensures result.Failure? <==> ReadPixels(tokens, numRows * numCols).Failure?
    ensures result.Failure? ==> result.error == ReadPixels(tokens, numRows * numCols).error
    ensures result.Success? ==> fresh(result.value)
    ensures result.Success? ==> Grid(result.value) == ToRows(ReadPixels(tokens, numRows * numCols).value, numRows, numCols)
  {
    var image := new Pixel[numRows, numCols];
    // k counts the pixels read so far; the reader stands at token HeaderLength + 3 * k.
    var k := 0;
    for i := 0 to numRows
      invariant k == i * numCols
      invariant forall m :: 0 <= m < k ==> PixelAt(tokens, m).Success?
      invariant forall i', j' :: 0 <= i' < i && 0 <= j' < numCols ==>
        PixelAt(tokens, i' * numCols + j') == Success(image[i', j'])
    {
      for j := 0 to numCols
        invariant k == i * numCols + j
        invariant forall m :: 0 <= m < k ==> PixelAt(tokens, m).Success?
        invariant forall i', j' :: 0 <= i' < i && 0 <= j' < numCols ==>
          PixelAt(tokens, i' * numCols + j') == Success(image[i', j'])
        invariant forall j' :: 0 <= j' < j ==> PixelAt(tokens, i * numCols + j') == Success(image[i, j'])
      {
        var pixel := PixelAt(tokens, k);
        if pixel.Failure? {
          PixelIndexInRange(i, j, numRows, numCols);
          ReadPixelsFailsAt(tokens, k, numRows * numCols);
          return Failure(pixel.error);
        }
        image[i, j] := pixel.value;
        k := k + 1;
      }
      assert k == (i + 1) * numCols;
    }
    ReadGridComplete(tokens, image, numRows, numCols);
    return Success(image);
  }

  /** Pixel (i, j) of a rows x columns image has a row-major position below rows * columns. */
  lemma PixelIndexInRange(i: nat, j: nat, rows: nat, cols: nat)
    requires i < rows && j < cols
    ensures i * cols + j < rows * cols
  {
    MulMono(i + 1, rows, cols);
  }

  /** Once every pixel has been read into the array, reading all pixels succeeds and the
      array holds them cut into rows. */
  lemma ReadGridComplete(tokens: seq<Token>, image: array2<Pixel>, rows: nat, cols: nat)
    requires image.Length0 == rows && image.Length1 == cols
    requires forall m :: 0 <= m < rows * cols ==> PixelAt(tokens, m).Success?
    requires forall i, j :: 0 <= i < rows && 0 <= j < cols ==>
      PixelAt(tokens, i * cols + j) == Success(image[i, j])
    ensures ReadPixels(tokens, rows * cols).Success?
    ensures Grid(image) == ToRows(ReadPixels(tokens, rows * cols).value, rows, cols)
  {
    var ps := ReadPixels(tokens, rows * cols);
    var img := ToRows(ps.value, rows, cols);
    forall i, j | 0 <= i < rows && 0 <= j < cols
      ensures image[i, j] == img[i][j]
    {
      PixelIndexInRange(i, j, rows, cols);
      assert PixelAt(tokens, i * cols + j) == Success(ps.value[i * cols + j]);
    }
    GridIs(image, img);
  }

  /** If pixel k is the first that cannot be read, reading any longer prefix of pixels
      fails with its error. */
  lemma ReadPixelsFailsAt(tokens: seq<Token>, k: nat, count: nat)
    requires k < count
    requires FirstFailure(tokens, k)
    ensures ReadPixels(tokens, count) == Failure(PixelAt(tokens, k).error)
  {
    var r := ReadPixels(tokens, count);
    assert r.Failure?;
    var k' :| 0 <= k' < count && FirstFailure(tokens, k') && PixelAt(tokens, k') == Failure(r.error);
    if k' != k {
      assert false;
    }
  }

  /** Runigram.flippedHorizontally. */
  method FlippedHorizontally(image: array2<Pixel>) returns (flipped: array2<Pixel>)
    requires image.Length0 >= 1
    ensures fresh(flipped)
    ensures Grid(flipped) == Images.FlippedHorizontally(Grid(image))
  {
    var rows, columns := image.Length0, image.Length1;
    flipped := new Pixel[rows, columns];
    for i := 0 to rows
      invariant forall i', j' :: 0 <= i' < i && 0 <= j' < columns ==>
        flipped[i', j'] == image[i', columns - 1 - j']
    {
      for j := 0 to columns
        invariant forall i', j' :: 0 <= i' < i && 0 <= j' < columns ==>
          flipped[i', j'] == image[i', columns - 1 - j']
        invariant forall j' :: 0 <= j' < j ==> flipped[i, j'] == image[i, columns - 1 - j']
      {
        flipped[i, j] := image[i, columns - 1 - j];
      }
    }
    GridIs(flipped, Images.FlippedHorizontally(Grid(image)));
  }

  /** Runigram.flippedVertically. */
  method FlippedVertically(image: array2<Pixel>) returns (flipped: array2<Pixel>)
    requires image.Length0 >= 1
    ensures fresh(flipped)
    ensures Grid(flipped) == Images.FlippedVertically(Grid(image))
  {
    var rows, columns := image.Length0, image.Length1;
    flipped := new Pixel[rows, columns];
    for i := 0 to rows
      invariant forall i', j' :: 0 <= i' < i && 0 <= j' < columns ==>
        flipped[i', j'] == image[rows - 1 - i', j']
    {
      for j := 0 to columns
        invariant forall i', j' :: 0 <= i' < i && 0 <= j' < columns ==>
          flipped[i', j'] == image[rows - 1 - i', j']
        invariant forall j' :: 0 <= j' < j ==> flipped[i, j'] == image[rows - 1 - i, j']
      {
        flipped[i, j] := image[rows - 1 - i, j];
      }
    }
    GridIs(flipped, Images.FlippedVertically(Grid(image)));
  }

  /** Runigram.grayScaled. */
  method GrayScaled(image: array2<Pixel>) returns (gray: array2<Pixel>)
    requires image.Length0 >= 1
    ensures fresh(gray)
    ensures Grid(gray) == Images.GrayScaled(Grid(image))
  {
    var rows, columns := image.Length0, image.Length1;
    gray := new Pixel[rows, columns];
    for i := 0 to rows
      invariant forall i', j' :: 0 <= i' < i && 0 <= j' < columns ==>
        gray[i', j'] == Luminance(image[i', j'])
    {
      for j := 0 to columns
        invariant forall i', j' :: 0 <= i' < i && 0 <= j' < columns ==>
          gray[i', j'] == Luminance(image[i', j'])
        invariant forall j' :: 0 <= j' < j ==> gray[i, j'] == Luminance(image[i, j'])
      {
        gray[i, j] := Luminance(image[i, j]);
      }
    }
    GridIs(gray, Images.GrayScaled(Grid(image)));
  }

  /** Runigram.scaled: nearest-neighbour resize to `height` rows of `width` pixels. */
  method Scaled(image: array2<Pixel>, width: nat, height: nat) returns (scaled: array2<Pixel>)
    requires image.Length0 >= 1
    requires width > 0 && height > 0 ==> image.Length1 > 0
    ensures fresh(scaled)
    ensures Grid(scaled) == Images.Scaled(Grid(image), width, height)
  {
    var h0, w0 := image.Length0, image.Length1;
    scaled := new Pixel[height, width];
    for i := 0 to height
      invariant forall i', j' :: 0 <= i' < i && 0 <= j' < width ==>
        scaled[i', j'] == image[SourceIndex(i', h0, height), SourceIndex(j', w0, width)]
    {
      for j := 0 to width
        invariant forall i', j' :: 0 <= i' < i && 0 <= j' < width ==>
          scaled[i', j'] == image[SourceIndex(i', h0, height), SourceIndex(j', w0, width)]
        invariant forall j' :: 0 <= j' < j ==>
          scaled[i, j'] == image[SourceIndex(i, h0, height), SourceIndex(j', w0, width)]
      {
        var sourceI := SourceIndex(i, h0, height);
        var sourceJ := SourceIndex(j, w0, width);
        scaled[i, j] := image[sourceI, sourceJ];
      }
    }
    GridIs(scaled, Images.Scaled(Grid(image), width, height));
  }

  /** Runigram.blend on two images. When the first has columns, the second must be at
      least as large; otherwise the second is never read. */
  method Blend(image1: array2<Pixel>, image2: array2<Pixel>, alpha: real) returns (blended: array2<Pixel>)
    requires image1.Length0 >= 1
    requires image1.Length1 > 0 ==> image2.Length0 >= image1.Length0 && image2.Length1 >= image1.Length1
    requires 0.0 <= alpha <= 1.0
    ensures fresh(blended)
    ensures Grid(blended) == Images.Blend(Grid(image1), Grid(image2), alpha)
  {
    var rows, columns := image1.Length0, image1.Length1;
    blended := new Pixel[rows, columns];
    for i := 0 to rows
      invariant forall i', j' :: 0 <= i' < i && 0 <= j' < columns ==>
        blended[i', j'] == BlendPixel(image1[i', j'], image2[i', j'], alpha)
    {
      for j := 0 to columns
        invariant forall i', j' :: 0 <= i' < i && 0 <= j' < columns ==>
          blended[i', j'] == BlendPixel(image1[i', j'], image2[i', j'], alpha)
        invariant forall j' :: 0 <= j' < j ==>
          blended[i, j'] == BlendPixel(image1[i, j'], image2[i, j'], alpha)
      {
        blended[i, j] := BlendPixel(image1[i, j], image2[i, j], alpha);
      }
    }
    GridIs(blended, Images.Blend(Grid(image1), Grid(image2), alpha));
  }

  /** Runigram.morph without the drawing: resizes the target once to the source's size,
      then produces one frame per step i = 0..n, in the order they are displayed. */
  method Morph(source: array2<Pixel>, target: array2<Pixel>, n: int) returns (frames: seq<array2<Pixel>>)
    requires source.Length0 >= 1 && target.Length0 >= 1
    requires source.Length1 > 0 ==> target.Length1 > 0
    ensures |frames| == |MorphFrames(Grid(source), Grid(target), n)|
    ensures forall k :: 0 <= k < |frames| ==>
      fresh(frames[k]) && Grid(frames[k]) == MorphFrames(Grid(source), Grid(target), n)[k]
  {
    var scaledTarget := Scaled(target, source.Length1, source.Length0);
    ghost var src, scaledGrid := Grid(source), Grid(scaledTarget);
    frames := [];
    var i := 0;
    while i <= n
      invariant 0 <= i && (n >= 0 ==> i <= n + 1) && (n < 0 ==> i == 0)
      invariant |frames| == i
      invariant Grid(source) == src && Grid(scaledTarget) == scaledGrid
      invariant forall k :: 0 <= k < i ==> fresh(frames[k]) && Grid(frames[k]) == Frame(src, scaledGrid, n, k)
    {
      var frame;
      if n == 0 {
        // The weight is 0.0 / 0, a NaN, and (int) NaN is 0 in Java: every channel is 0.
        frame := new Pixel[source.Length0, source.Length1]((_, _) => Pixel(0, 0, 0));
        GridIs(frame, Black(source.Length0, source.Length1));
      } else {
        frame := Blend(source, scaledTarget, FrameWeight(i, n));
      }
      frames := frames + [frame];
      i := i + 1;
    }
  }
}
