/**
 * ScreenShotBufferExporter: turns the bottom-up R,G,B,A byte buffer read back
 * from the GPU into a top-down array of packed ARGB Java ints, and keeps the
 * last image it built.
 */
module Exporter {
  import opened Wrappers

  /** A byte of the ByteBuffer, as its 8 bits. */
  type Byte = bv8

  /** A packed ARGB pixel: the 32 bits of a Java `int`. */
  type Pixel = bv32

  /** Java's widening of a `byte` to an `int` (sign extension). */
  function SignExtend(v: Byte): bv32 {
    if v >= 0x80 then (v as bv32) | 0xFFFF_FF00 else v as bv32
  }

  /** The value Java gives a byte when it reads it as signed. */
  function Signed(v: Byte): int {
    if v < 0x80 then v as int else v as int - 256
  }

  /** `v & 0xFF` on the widened byte. */
  function Unsigned(v: Byte): (u: bv32)
    ensures u == v as bv32
  {
    SignExtend(v) & 0xFF
  }

  /** A byte that reads as negative gives the channel value v + 256. */
  lemma NegativeByteChannel(v: Byte)
    requires Signed(v) < 0
    ensures Unsigned(v) as int == Signed(v) + 256
  {
  }

  /**
   * `((a & 0xFF) << 24) | ((r & 0xFF) << 16) | ((g & 0xFF) << 8) | (b & 0xFF)`:
   * bits 24-31, 16-23, 8-15 and 0-7 give back A, R, G and B.
   */
  function Pack(r: Byte, g: Byte, b: Byte, a: Byte): (p: Pixel)
    ensures (p >> 24) & 0xFF == a as bv32
    ensures (p >> 16) & 0xFF == r as bv32
    ensures (p >> 8) & 0xFF == g as bv32
    ensures p & 0xFF == b as bv32
  {
    (Unsigned(a) << 24) | (Unsigned(r) << 16) | (Unsigned(g) << 8) | Unsigned(b)
  }

  /** Offsets of the channels within the 4 bytes of one source pixel. */
  const RedOffset: nat := 0
  const GreenOffset: nat := 1
  const BlueOffset: nat := 2
  const AlphaOffset: nat := 3
  const BytesPerPixel: nat := 4

  /** Where the bytes of output pixel (x, y) start: output row y is source row height - y - 1. */
  function SourceIndex(width: int, height: int, x: int, y: int): int {
    BytesPerPixel * ((height - y - 1) * width + x)
  }

  /** Every byte of pixel (x, y) lies inside a buffer of 4 * width * height bytes. */
  lemma SourceIndexInBounds(width: nat, height: nat, x: nat, y: nat)
    requires x < width && y < height
    ensures 0 <= SourceIndex(width, height, x, y)
    ensures SourceIndex(width, height, x, y) + AlphaOffset < BytesPerPixel * (width * height)
  {
  }

  lemma MulMono(a: nat, b: nat, c: nat)
    requires a <= b
    ensures a * c <= b * c
  {
  }

  ghost predicate FitsBuffer(data: seq<Byte>, width: nat, height: nat) {
    BytesPerPixel * (width * height) <= |data|
  }

  /** The packed value of output pixel (x, y). */
  function PixelAt(data: seq<Byte>, width: nat, height: nat, x: nat, y: nat): Pixel
    requires FitsBuffer(data, width, height)
    requires x < width && y < height
  {
    SourceIndexInBounds(width, height, x, y);
    var i := SourceIndex(width, height, x, y);
    Pack(data[i + RedOffset], data[i + GreenOffset], data[i + BlueOffset], data[i + AlphaOffset])
  }

  /** Output row y, left to right. */
  function Row(data: seq<Byte>, width: nat, height: nat, y: nat): (row: seq<Pixel>)
    requires FitsBuffer(data, width, height) && y < height
  {
    seq(width, x requires 0 <= x < width => PixelAt(data, width, height, x, y))
  }

  /** The first n output rows, top-down and row-major. */
  function TopRows(data: seq<Byte>, width: nat, height: nat, n: nat): (rows: seq<Pixel>)
    requires FitsBuffer(data, width, height) && n <= height
  {
    if n == 0 then [] else TopRows(data, width, height, n - 1) + Row(data, width, height, n - 1)
  }

  /** The pixels of the image `export` builds. */
  function Exported(data: seq<Byte>, width: nat, height: nat): seq<Pixel>
    requires FitsBuffer(data, width, height)
  {
    TopRows(data, width, height, height)
  }

  /** The first n rows hold n * width pixels, and pixel (x, y) sits at y * width + x. */
  lemma {:induction false} TopRowsAt(data: seq<Byte>, width: nat, height: nat, n: nat, x: nat, y: nat)
    requires FitsBuffer(data, width, height) && n <= height
    requires x < width && y < n
    ensures |TopRows(data, width, height, n)| == n * width
    ensures y * width + x < n * width
    ensures TopRows(data, width, height, n)[y * width + x] == PixelAt(data, width, height, x, y)
  {
    TopRowsLength(data, width, height, n - 1);
    assert (n - 1) * width + width == n * width;
    if y < n - 1 {
      TopRowsAt(data, width, height, n - 1, x, y);
    } else {
      assert y * width + x - (n - 1) * width == x;
    }
  }

  lemma {:induction false} TopRowsLength(data: seq<Byte>, width: nat, height: nat, n: nat)
    requires FitsBuffer(data, width, height) && n <= height
    ensures |TopRows(data, width, height, n)| == n * width
  {
    if n > 0 {
      TopRowsLength(data, width, height, n - 1);
      assert (n - 1) * width + width == n * width;
    }
  }

  /** The exported image has width * height pixels; pixel (x, y) comes from source row height - y - 1. */
  lemma ExportedAt(data: seq<Byte>, width: nat, height: nat, x: nat, y: nat)
    requires FitsBuffer(data, width, height)
    requires x < width && y < height
    ensures |Exported(data, width, height)| == width * height
    ensures y * width + x < width * height
    ensures var i := 4 * ((height - y - 1) * width + x);
      0 <= i && i + 3 < |data| &&
      Exported(data, width, height)[y * width + x] == Pack(data[i], data[i + 1], data[i + 2], data[i + 3])
  {
    TopRowsAt(data, width, height, height, x, y);
    SourceIndexInBounds(width, height, x, y);
  }

  /** The image as the pixel array plus its size; BufferedImage's raster is left out. */
  datatype Image = Image(width: nat, height: nat, pixels: seq<Pixel>)

  datatype Component = Red | Green | Blue | Alpha

  /** Some of Ardor3D's image formats. */
  datatype ImageDataFormat = AlphaFormat | RGB | BGR | RGBA | BGRA

  /** The order of the components of one pixel in memory. */
  function Layout(f: ImageDataFormat): seq<Component> {
    match f
    case AlphaFormat => [Alpha]
    case RGB => [Red, Green, Blue]
    case BGR => [Blue, Green, Red]
    case RGBA => [Red, Green, Blue, Alpha]
    case BGRA => [Blue, Green, Red, Alpha]
  }

  class ScreenShotBufferExporter {
    var lastImage: Option<Image>

    /** A stored image has positive sides and width * height pixels. */
    ghost predicate Valid()
      reads this
    {
      lastImage.Some? ==>
        && lastImage.value.width >= 1 && lastImage.value.height >= 1
        && |lastImage.value.pixels| == lastImage.value.width * lastImage.value.height
    }

    constructor ()
      ensures Valid() && lastImage == None
    {
      lastImage := None;
    }

    /** `getFormat`: the layout it reports is the one `export` reads. */
    function GetFormat(): (f: ImageDataFormat)
      ensures |Layout(f)| == BytesPerPixel
      ensures Layout(f)[RedOffset] == Red && Layout(f)[GreenOffset] == Green
      ensures Layout(f)[BlueOffset] == Blue && Layout(f)[AlphaOffset] == Alpha
    {
      RGBA
    }

    /** `getLastImage`: null before the first export, afterwards an image of width * height pixels. */
    function GetLastImage(): (img: Option<Image>)
      requires Valid()
      reads this
      ensures img.Some? ==> img.value.width >= 1 && img.value.height >= 1
      ensures img.Some? ==> |img.value.pixels| == img.value.width * img.value.height
    {
      lastImage
    }

    /**
     * `export`: fills a fresh array of width * height pixels row by row,
     * top-down, and stores it as the last image. The buffer is read with
     * absolute gets, so it is not changed.
     */
    method Export(data: seq<Byte>, width: int, height: int)
      requires 1 <= width && 1 <= height
      requires BytesPerPixel * (width * height) <= |data| < 0x8000_0000
      modifies this
      ensures Valid()
      ensures lastImage == Some(Image(width, height, Exported(data, width, height)))
    {
      var rgb := new Pixel[width * height];
      var currentIndex := 0;
      for y := 0 to height
        invariant currentIndex == y * width <= width * height
        invariant rgb[..currentIndex] == TopRows(data, width, height, y)
      {
        for x := 0 to width
          invariant currentIndex == y * width + x <= width * height
          invariant rgb[..currentIndex] == TopRows(data, width, height, y) + Row(data, width, height, y)[..x]
        {
          assert currentIndex < width * height by {
            MulMono(y + 1, height, width);
            assert (y + 1) * width == y * width + width;
          }
          SourceIndexInBounds(width, height, x, y);
          var index := BytesPerPixel * ((height - y - 1) * width + x);
          var r := data[index + RedOffset];
          var g := data[index + GreenOffset];
          var b := data[index + BlueOffset];
          var a := data[index + AlphaOffset];
          var argb := Pack(r, g, b, a);
          assert argb == Row(data, width, height, y)[x];
          rgb[currentIndex] := argb;
          currentIndex := currentIndex + 1;
          assert rgb[..currentIndex] == rgb[..currentIndex - 1] + [argb];
          assert Row(data, width, height, y)[..x + 1] == Row(data, width, height, y)[..x] + [argb];
        }
        assert Row(data, width, height, y)[..width] == Row(data, width, height, y);
      }
      assert rgb[..] == rgb[..currentIndex];
      lastImage := Some(Image(width, height, rgb[..]));
    }
  }
}
