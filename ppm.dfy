/** The plain PPM (P3) text format of Netpbm as Runigram.read consumes it: a magic word,
    the column count, the row count, the maximum channel value, then one red, green,
    blue triple per pixel in row-major order. The file is given here as its sequence of
    whitespace-separated tokens; this module states what reading it yields. */
module Ppm {
  import opened Colors
  import opened Images

  /** A whitespace-separated token of the file: one that reads as a decimal integer,
      or any other word. */
  datatype Token = Num(value: int) | Word(text: string)

  /** Why reading fails, named after the exception the Java program raises:
      the file ends early (NoSuchElementException), a token that must be an int is not
      one or does not fit in an int (InputMismatchException), a dimension is negative
      (NegativeArraySizeException), or a channel is outside 0..255
      (IllegalArgumentException from the Color constructor). */
  datatype ReadError = EndOfInput | NotAnInt | NegativeSize | ChannelOutOfRange

  datatype Result<T> = Success(value: T) | Failure(error: ReadError) {
    predicate IsFailure() { Failure? }
    function PropagateFailure<U>(): Result<U>
      requires Failure?
    {
      Failure(error)
    }
    function Extract(): T
      requires Success?
    {
      value
    }
  }

  /** The range of a Java int. */
  const IntMin: int := -0x8000_0000
  const IntMax: int := 0x7fff_ffff

  /** In.readInt applied to the token at position `at`: it succeeds exactly on an
      integer token that fits in a Java int, and fails with EndOfInput past the last
      token and with NotAnInt on any other token. */
  function ReadInt(tokens: seq<Token>, at: nat): (r: Result<int>)
    ensures r.Success? <==> at < |tokens| && tokens[at].Num? && IntMin <= tokens[at].value <= IntMax
    ensures r.Success? ==> r.value == tokens[at].value
    ensures r.Failure? && at < |tokens| ==> r.error == NotAnInt
    ensures at >= |tokens| ==> r == Failure(EndOfInput)
  {
    if at >= |tokens| then Failure(EndOfInput)
    else match tokens[at]
      case Num(v) => if IntMin <= v <= IntMax then Success(v) else Failure(NotAnInt)
      case Word(_) => Failure(NotAnInt)
  }

  /** One pixel as the loop body of Runigram.read reads it: red, green and blue in that
      order, then the Color constructor's range check. It succeeds exactly when the three
      tokens are integers in 0..255, and then holds them. The range is checked only after
      all three have been read, so any other error is that of the first token that does
      not read as an int. */
  function ReadPixel(tokens: seq<Token>, at: nat): (r: Result<Pixel>)
    ensures r.Success? <==> forall t :: at <= t < at + 3 ==>
      t < |tokens| && tokens[t].Num? && 0 <= tokens[t].value <= 255
    ensures r.Success? ==> at + 2 < |tokens|
    ensures r.Success? ==> r.value == Pixel(tokens[at].value, tokens[at + 1].value, tokens[at + 2].value)
    ensures r == Failure(ChannelOutOfRange) ==>
      ReadInt(tokens, at).Success? && ReadInt(tokens, at + 1).Success? && ReadInt(tokens, at + 2).Success?
    ensures ReadInt(tokens, at).Failure? ==> r == Failure(ReadInt(tokens, at).error)
    ensures ReadInt(tokens, at).Success? && ReadInt(tokens, at + 1).Failure? ==>
      r == Failure(ReadInt(tokens, at + 1).error)
    ensures ReadInt(tokens, at).Success? && ReadInt(tokens, at + 1).Success? && ReadInt(tokens, at + 2).Failure? ==>
      r == Failure(ReadInt(tokens, at + 2).error)
  {
    var r :- ReadInt(tokens, at);
    var g :- ReadInt(tokens, at + 1);
    var b :- ReadInt(tokens, at + 2);
    if 0 <= r <= 255 && 0 <= g <= 255 && 0 <= b <= 255 then Success(Pixel(r, g, b))
    else Failure(ChannelOutOfRange)
  }

  /** The magic word, the two dimensions and the maximum value come first. */
  const HeaderLength: nat := 4

  /** Pixel k of the file: the k-th triple after the header. */
  function PixelAt(tokens: seq<Token>, k: nat): Result<Pixel> {
    ReadPixel(tokens, HeaderLength + 3 * k)
  }

  /** The first `count` pixels, read in order. Reading stops at the first pixel that
      fails, and fails with that pixel's error. */
  function ReadPixels(tokens: seq<Token>, count: nat): (r: Result<seq<Pixel>>)
    ensures r.Success? <==> forall k :: 0 <= k < count ==> PixelAt(tokens, k).Success?
    ensures r.Success? ==> |r.value| == count
    ensures r.Success? ==> forall k :: 0 <= k < count ==> PixelAt(tokens, k) == Success(r.value[k])
    ensures r.Failure? ==> exists k :: 0 <= k < count && FirstFailure(tokens, k) && PixelAt(tokens, k) == Failure(r.error)
  {
    if count == 0 then Success([])
    else
      var ps :- ReadPixels(tokens, count - 1);
      var p :- (assert FirstFailure(tokens, count - 1) || PixelAt(tokens, count - 1).Success?;
                PixelAt(tokens, count - 1));
      Success(ps + [p])
  }

  /** Pixel k is the first pixel of the file that cannot be read. */
  predicate FirstFailure(tokens: seq<Token>, k: nat) {
    PixelAt(tokens, k).Failure? && forall m :: 0 <= m < k ==> PixelAt(tokens, m).Success?
  }

  /** The position of pixel (i, j) in row-major order. */
  function FlatIndex(i: nat, j: nat, rows: nat, cols: nat): (k: nat)
    requires i < rows && j < cols
    ensures k < rows * cols
  {
    MulMono(i + 1, rows, cols);
    i * cols + j
  }

  /** Cuts row-major pixels into `rows` rows of `cols` pixels. */
  function ToRows(ps: seq<Pixel>, rows: nat, cols: nat): (img: Image)
    requires |ps| == rows * cols
    ensures HasShape(img, rows, cols)
  {
    seq(rows, i requires 0 <= i < rows =>
      seq(cols, j requires 0 <= j < cols => ps[FlatIndex(i, j, rows, cols)]))
  }

  /** Runigram.read on the tokens of a file. The first token is skipped whatever it is,
      the column count is read before the row count, and the maximum value is read and
      ignored. On success the image has as many rows and columns as the header says, and
      pixel (i, j) is the (i * columns + j)-th triple after the header. */
  function Decode(tokens: seq<Token>): (r: Result<Image>)
    ensures r.Success? ==> |tokens| >= HeaderLength && tokens[1].Num? && tokens[2].Num?
    ensures r.Success? ==> tokens[1].value >= 0 && tokens[2].value >= 0
    ensures r.Success? ==> HasShape(r.value, tokens[2].value, tokens[1].value)
    ensures r.Success? ==> forall i, j :: 0 <= i < tokens[2].value && 0 <= j < tokens[1].value ==>
      PixelAt(tokens, i * tokens[1].value + j) == Success(r.value[i][j])
  {
    if |tokens| == 0 then Failure(EndOfInput)
    else
      var cols :- ReadInt(tokens, 1);
      var rows :- ReadInt(tokens, 2);
      var maxValue :- ReadInt(tokens, 3);
      if rows < 0 || cols < 0 then Failure(NegativeSize)
      else
        var ps :- ReadPixels(tokens, rows * cols);
        Success(ToRows(ps, rows, cols))
  }

  /** A header whose dimensions read as non-negative ints, followed by only valid channel
      values but too few of them, fails with EndOfInput. */
  lemma DecodeTooShort(tokens: seq<Token>, rows: nat, cols: nat)
    requires |tokens| >= HeaderLength
    requires tokens[1] == Num(cols) && tokens[2] == Num(rows) && tokens[3].Num?
    requires cols <= IntMax && rows <= IntMax && IntMin <= tokens[3].value <= IntMax
    requires forall t :: HeaderLength <= t < |tokens| ==> tokens[t].Num? && 0 <= tokens[t].value <= 255
    requires |tokens| < HeaderLength + 3 * (rows * cols)
    ensures Decode(tokens) == Failure(EndOfInput)
  {
    var n := rows * cols;
    var last := n - 1;
    assert HeaderLength + 3 * last + 2 >= |tokens|;
    assert PixelAt(tokens, last).Failure?;
    var ps := ReadPixels(tokens, n);
    assert ps.Failure?;
    var k :| 0 <= k < n && FirstFailure(tokens, k) && PixelAt(tokens, k) == Failure(ps.error);
    var at := HeaderLength + 3 * k;
    assert ReadInt(tokens, at) != Failure(NotAnInt);
    assert ReadInt(tokens, at + 1) != Failure(NotAnInt);
    assert ReadInt(tokens, at + 2) != Failure(NotAnInt);
  }

  // -------------------------------------------------------------- encoding

  /** The pixels of an image in row-major order. */
  function Flatten(img: Image): seq<Pixel> {
    if img == [] then [] else img[0] + Flatten(img[1..])
  }

  /** Pixel (i, j) of an image with `cols` columns is element i * cols + j of its
      row-major order. */
  lemma {:induction false} FlattenAt(img: Image, rows: nat, cols: nat, i: nat, j: nat)
    requires HasShape(img, rows, cols) && i < rows && j < cols
    ensures |Flatten(img)| == rows * cols
    ensures i * cols + j < rows * cols
    ensures Flatten(img)[i * cols + j] == img[i][j]
  {
    FlattenLength(img, rows, cols);
    if i > 0 {
      FlattenAt(img[1..], rows - 1, cols, i - 1, j);
      assert i * cols + j == cols + ((i - 1) * cols + j);
    }
  }

  lemma {:induction false} FlattenLength(img: Image, rows: nat, cols: nat)
    requires HasShape(img, rows, cols)
    ensures |Flatten(img)| == rows * cols
  {
    if rows > 0 {
      FlattenLength(img[1..], rows - 1, cols);
      assert rows * cols == cols + (rows - 1) * cols;
    }
  }

  /** The tokens of a run of pixels: their channels in red, green, blue order. */
  function PixelTokens(ps: seq<Pixel>): (ts: seq<Token>)
    ensures |ts| == 3 * |ps|
  {
    if ps == [] then []
    else [Num(ps[0].red), Num(ps[0].green), Num(ps[0].blue)] + PixelTokens(ps[1..])
  }

  lemma {:induction false} PixelTokensAt(ps: seq<Pixel>, k: nat)
    requires k < |ps|
    ensures PixelTokens(ps)[3 * k] == Num(ps[k].red)
    ensures PixelTokens(ps)[3 * k + 1] == Num(ps[k].green)
    ensures PixelTokens(ps)[3 * k + 2] == Num(ps[k].blue)
  {
    if k > 0 {
      PixelTokensAt(ps[1..], k - 1);
    }
  }

  /** The plain PPM text of an image with maximum value 255. */
  function Encode(img: Image): (ts: seq<Token>)
    requires IsImage(img)
  {
    [Word("P3"), Num(Columns(img)), Num(Rows(img)), Num(255)] + PixelTokens(Flatten(img))
  }

  /** Pixel k of the text of an image is pixel k of its row-major order. */
  lemma EncodedPixelAt(img: Image, k: nat)
    requires IsImage(img) && k < |Flatten(img)|
    ensures PixelAt(Encode(img), k) == Success(Flatten(img)[k])
  {
    var ts, flat := Encode(img), Flatten(img);
    PixelTokensAt(flat, k);
    assert ts[HeaderLength + 3 * k] == Num(flat[k].red);
    assert ts[HeaderLength + 3 * k + 1] == Num(flat[k].green);
    assert ts[HeaderLength + 3 * k + 2] == Num(flat[k].blue);
  }

  /** The pixels of the text of an image read back as its row-major order. */
  lemma ReadEncodedPixels(img: Image)
    requires IsImage(img)
    ensures |Flatten(img)| == Rows(img) * Columns(img)
    ensures ReadPixels(Encode(img), Rows(img) * Columns(img)) == Success(Flatten(img))
  {
    var ts, flat := Encode(img), Flatten(img);
    var n := Rows(img) * Columns(img);
    FlattenLength(img, Rows(img), Columns(img));
    forall k | 0 <= k < n
      ensures PixelAt(ts, k) == Success(flat[k])
    {
      EncodedPixelAt(img, k);
    }
    var ps := ReadPixels(ts, n);
    assert ps.Success?;
    forall k | 0 <= k < n
      ensures ps.value[k] == flat[k]
    {
      assert PixelAt(ts, k) == Success(ps.value[k]);
    }
    assert ps.value == flat;
  }

  /** Cutting the row-major order of an image back into rows gives the image. */
  lemma ToRowsFlatten(img: Image)
    requires IsImage(img)
    ensures |Flatten(img)| == Rows(img) * Columns(img)
    ensures ToRows(Flatten(img), Rows(img), Columns(img)) == img
  {
    var rows, cols := Rows(img), Columns(img);
    FlattenLength(img, rows, cols);
    var decoded := ToRows(Flatten(img), rows, cols);
    forall i | 0 <= i < rows
      ensures decoded[i] == img[i]
    {
      forall j | 0 <= j < cols
        ensures decoded[i][j] == img[i][j]
      {
        FlattenAt(img, rows, cols, i, j);
      }
    }
  }

  /** Reading back the text of an image gives the image, provided its dimensions fit in
      a Java int. */
  lemma DecodeEncode(img: Image)
    requires IsImage(img) && Rows(img) <= IntMax && Columns(img) <= IntMax
    ensures Decode(Encode(img)) == Success(img)
  {
    var ts := Encode(img);
    assert ReadInt(ts, 1) == Success(Columns(img));
    assert ReadInt(ts, 2) == Success(Rows(img));
    assert ReadInt(ts, 3) == Success(255);
    ReadEncodedPixels(img);
    ToRowsFlatten(img);
  }
}
