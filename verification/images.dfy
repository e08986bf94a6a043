/** Pixels, `ImageData` (flat RGBA bytes, row-major) and 2-D canvases, with
    the three canvas operations the upscalers rely on: `getImageData`,
    `putImageData` (overwrite, clipped to the canvas) and a fresh canvas
    (transparent black). */
module Images {
  import opened Common
  import opened Grids

  datatype Pixel = Pixel(r: Byte, g: Byte, b: Byte, a: Byte)

  const Transparent := Pixel(0, 0, 0, 0)

  /** Channel `c` (0 = red ... 3 = alpha) of a pixel. */
  function Channel(p: Pixel, c: nat): Byte
    requires c < 4
  {
    if c == 0 then p.r else if c == 1 then p.g else if c == 2 then p.b else p.a
  }

  /** `ImageData`: `width x height` pixels stored as `4 * width * height`
      bytes. The DOM refuses to create one with a zero dimension. */
  datatype ImageData = ImageData(width: nat, height: nat, data: seq<Byte>) {
    predicate Valid() {
      width >= 1 && height >= 1 && |data| == 4 * (height * width)
    }

    function PixelCount(): nat {
      height * width
    }

    /** Pixel number `p` in row-major order. */
    function PixelAt(p: nat): Pixel
      requires Valid() && p < PixelCount()
    {
      Pixel(data[4 * p], data[4 * p + 1], data[4 * p + 2], data[4 * p + 3])
    }

    /** The pixel in row `i`, column `j`. */
    function At(i: nat, j: nat): Pixel
      requires Valid() && i < height && j < width
    {
      IndexBound(i, j, height, width);
      PixelAt(i * width + j)
    }

    /** Byte `c` of the pixel in row `i`, column `j`: the byte at offset
        `4 * (i * width + j) + c`. */
    function ByteAt(i: nat, j: nat, c: nat): Byte
      requires Valid() && i < height && j < width && c < 4
    {
      IndexBound(i, j, height, width);
      data[4 * (i * width + j) + c]
    }
  }

  /** The bytes of a row of pixels, four per pixel. */
  function Flatten(ps: seq<Pixel>): (data: seq<Byte>)
    ensures |data| == 4 * |ps|
    ensures forall p, c :: 0 <= p < |ps| && 0 <= c < 4 ==> data[4 * p + c] == Channel(ps[p], c)
  {
    var data := seq(4 * |ps|, k requires 0 <= k < 4 * |ps| => Channel(ps[k / 4], k % 4));
    assert forall p, c :: 0 <= p < |ps| && 0 <= c < 4 ==> data[4 * p + c] == Channel(ps[p], c) by {
      forall p, c | 0 <= p < |ps| && 0 <= c < 4
        ensures data[4 * p + c] == Channel(ps[p], c)
      {
        DivModUnique(4 * p + c, 4, p, c);
      }
    }
    data
  }

  /** An `ImageData` built from its pixels in row-major order. */
  function FromPixels(width: nat, height: nat, ps: seq<Pixel>): (img: ImageData)
    requires width >= 1 && height >= 1 && |ps| == height * width
    ensures img.Valid() && img.width == width && img.height == height
    ensures forall p :: 0 <= p < |ps| ==> img.PixelAt(p) == ps[p]
  {
    var data := Flatten(ps);
    var img := ImageData(width, height, data);
    assert forall p :: 0 <= p < |ps| ==> img.PixelAt(p) == ps[p] by {
      forall p | 0 <= p < |ps|
        ensures img.PixelAt(p) == ps[p]
      {
        assert data[4 * p] == ps[p].r by { assert data[4 * p + 0] == Channel(ps[p], 0); }
        assert data[4 * p + 1] == ps[p].g by { assert data[4 * p + 1] == Channel(ps[p], 1); }
        assert data[4 * p + 2] == ps[p].b by { assert data[4 * p + 2] == Channel(ps[p], 2); }
        assert data[4 * p + 3] == ps[p].a by { assert data[4 * p + 3] == Channel(ps[p], 3); }
      }
    }
    img
  }

  /** Pixel `(i, j)` of an image built from a row-major pixel list. */
  lemma FromPixelsAt(width: nat, height: nat, ps: seq<Pixel>, i: nat, j: nat)
    requires width >= 1 && height >= 1 && |ps| == height * width && i < height && j < width
    ensures i * width + j < |ps| && FromPixels(width, height, ps).At(i, j) == ps[i * width + j]
  {
    IndexBound(i, j, height, width);
  }

  /** Two valid images with the same dimensions and the same pixels are
      equal. */
  lemma ImageDataExtensionality(a: ImageData, b: ImageData)
    requires a.Valid() && b.Valid() && a.width == b.width && a.height == b.height
    requires forall p :: 0 <= p < a.PixelCount() ==> a.PixelAt(p) == b.PixelAt(p)
    ensures a == b
  {
    forall k | 0 <= k < |a.data|
      ensures a.data[k] == b.data[k]
    {
      var p, c := k / 4, k % 4;
      assert k == 4 * p + c;
      assert Channel(a.PixelAt(p), c) == Channel(b.PixelAt(p), c);
    }
    assert a.data == b.data;
  }

  /** Images are equal when their pixels agree at every row and column. */
  lemma ImageDataExtensionalityAt(a: ImageData, b: ImageData)
    requires a.Valid() && b.Valid() && a.width == b.width && a.height == b.height
    requires forall i, j :: 0 <= i < a.height && 0 <= j < a.width ==> a.At(i, j) == b.At(i, j)
    ensures a == b
  {
    forall p | 0 <= p < a.PixelCount()
      ensures a.PixelAt(p) == b.PixelAt(p)
    {
      IndexEncode(p, a.height, a.width);
      var i, j := p / a.width, p % a.width;
      assert a.At(i, j) == b.At(i, j);
    }
    ImageDataExtensionality(a, b);
  }

  /** Byte `c` of the pixel in row `i`, column `j`. */
  lemma AtBytes(img: ImageData, i: nat, j: nat, c: nat)
    requires img.Valid() && i < img.height && j < img.width && c < 4
    ensures img.ByteAt(i, j, c) == Channel(img.At(i, j), c)
  {
    IndexBound(i, j, img.height, img.width);
  }

  /** A canvas: a grid of pixels. */
  type Canvas = Grid<Pixel>

  /** A freshly created `width x height` canvas: every pixel transparent black. */
  function Blank(width: nat, height: nat): (c: Canvas)
    ensures c.Valid() && c.width == width && c.height == height
    ensures forall i, j :: 0 <= i < height && 0 <= j < width ==> c.At(i, j) == Transparent
  {
    Build(height, width, (i: nat, j: nat) => Transparent)
  }

  /** The sides a canvas has before script sets them (section 4.12.5 of
      the HTML Living Standard). */
  const DEFAULT_CANVAS_WIDTH: nat := 300
  const DEFAULT_CANVAS_HEIGHT: nat := 150

  /** The largest side the `width` and `height` attributes keep. */
  const MAX_CANVAS_SIDE: nat := 0x7FFF_FFFF

  /** The side a canvas ends up with when script assigns the integer `v`
      to `width` or `height`: the WebIDL `unsigned long` conversion takes
      `v` modulo 2^32 (section 3.2.4.8 of WebIDL), and the reflected
      attribute falls back to its default `dflt` for a value above 2^31 - 1
      (section 2.6.1 of the HTML Living Standard). */
  function CanvasSide(v: int, dflt: nat): (n: nat)
    ensures 0 <= v <= MAX_CANVAS_SIDE ==> n == v
    ensures -0x8000_0000 <= v < 0 ==> n == dflt
    ensures n <= MAX_CANVAS_SIDE || n == dflt
    ensures n == dflt || (n - v) % 0x1_0000_0000 == 0
  {
    var u := v % 0x1_0000_0000;
    if u <= MAX_CANVAS_SIDE then u else dflt
  }

  /** The pixel at canvas coordinates `(y, x)`; outside the canvas
      `getImageData` reads transparent black. */
  function ReadPixel(c: Canvas, y: int, x: int): Pixel
    requires c.Valid()
  {
    if 0 <= y < c.height && 0 <= x < c.width then c.At(y, x) else Transparent
  }

  /** The pixels of the `w x h` rectangle at `(x, y)`, in row-major order. */
  function Window(c: Canvas, x: int, y: int, w: nat, h: nat): (ps: seq<Pixel>)
    requires c.Valid()
    ensures |ps| == h * w
  {
    seq(h * w, p requires 0 <= p < h * w => ReadPixel(c, y + p / w, x + p % w))
  }

  lemma WindowAt(c: Canvas, x: int, y: int, w: nat, h: nat, i: nat, j: nat)
    requires c.Valid() && i < h && j < w
    ensures i * w + j < h * w && Window(c, x, y, w, h)[i * w + j] == ReadPixel(c, y + i, x + j)
  {
    IndexBound(i, j, h, w);
    IndexDecode(i, j, w);
  }

  /** `ctx.getImageData(x, y, w, h)` for a non-empty rectangle. */
  function GetImageData(c: Canvas, x: int, y: int, w: nat, h: nat): (img: ImageData)
    requires c.Valid() && w >= 1 && h >= 1
    ensures img.Valid() && img.width == w && img.height == h
    ensures forall i, j :: 0 <= i < h && 0 <= j < w ==> img.At(i, j) == ReadPixel(c, y + i, x + j)
  {
    var img := FromPixels(w, h, Window(c, x, y, w, h));
    assert forall i, j :: 0 <= i < h && 0 <= j < w ==> img.At(i, j) == ReadPixel(c, y + i, x + j) by {
      forall i, j | 0 <= i < h && 0 <= j < w
        ensures img.At(i, j) == ReadPixel(c, y + i, x + j)
      {
        WindowAt(c, x, y, w, h, i, j);
      }
    }
    img
  }

  /** Canvas pixel `(i, j)` lies under `img` drawn with its top-left corner at `(dx, dy)`. */
  predicate Under(img: ImageData, dx: int, dy: int, i: int, j: int) {
    dy <= i < dy + img.height && dx <= j < dx + img.width
  }

  /** `ctx.putImageData(img, dx, dy)`: the pixels of `img` replace the canvas
      pixels beneath them (no blending); what falls outside the canvas is
      dropped. */
  function PutImageData(c: Canvas, img: ImageData, dx: int, dy: int): (r: Canvas)
    requires c.Valid() && img.Valid()
    ensures r.Valid() && r.width == c.width && r.height == c.height
    ensures forall i, j :: 0 <= i < c.height && 0 <= j < c.width ==>
      r.At(i, j) == if Under(img, dx, dy, i, j) then img.At(i - dy, j - dx) else c.At(i, j)
  {
    Build(c.height, c.width, (i: nat, j: nat) requires i < c.height && j < c.width =>
      if Under(img, dx, dy, i, j) then img.At(i - dy, j - dx) else c.At(i, j))
  }

  /** An image drawn at an offset. */
  datatype Placed = Placed(img: ImageData, dx: int, dy: int)

  predicate AllValid(ps: seq<Placed>) {
    forall k :: 0 <= k < |ps| ==> ps[k].img.Valid()
  }

  /** Draw the images one after another, in order. */
  function PaintAll(c: Canvas, ps: seq<Placed>): (r: Canvas)
    requires c.Valid() && AllValid(ps)
    ensures r.Valid() && r.width == c.width && r.height == c.height
    decreases |ps|
  {
    if ps == [] then c
    else PaintAll(PutImageData(c, ps[0].img, ps[0].dx, ps[0].dy), ps[1..])
  }

  /** The index of the last image in `ps` that lies over canvas pixel `(i, j)`. */
  function LastOver(ps: seq<Placed>, i: int, j: int): (r: Option<nat>)
    ensures r.Some? ==> r.value < |ps| && Under(ps[r.value].img, ps[r.value].dx, ps[r.value].dy, i, j)
    ensures r.Some? ==> forall k :: r.value < k < |ps| ==> !Under(ps[k].img, ps[k].dx, ps[k].dy, i, j)
    ensures r.None? ==> forall k :: 0 <= k < |ps| ==> !Under(ps[k].img, ps[k].dx, ps[k].dy, i, j)
    decreases |ps|
  {
    if ps == [] then None
    else match LastOver(ps[1..], i, j)
      case Some(k) => Some(k + 1)
      case None => if Under(ps[0].img, ps[0].dx, ps[0].dy, i, j) then Some(0) else None
  }

  /** What canvas pixel `(i, j)` shows after drawing `ps` over a canvas
      where it was `old`: the pixel of the last image over it, if any. */
  function Shown(ps: seq<Placed>, i: int, j: int, old_: Pixel): Pixel
    requires AllValid(ps)
  {
    match LastOver(ps, i, j)
    case Some(k) => ps[k].img.At(i - ps[k].dy, j - ps[k].dx)
    case None => old_
  }

  /** Drawing the first image, then the rest, shows the same as drawing all. */
  lemma ShownStep(ps: seq<Placed>, i: int, j: int, old_: Pixel)
    requires AllValid(ps) && ps != []
    ensures AllValid(ps[1..])
    ensures Shown(ps, i, j, old_) == Shown(ps[1..], i, j,
      if Under(ps[0].img, ps[0].dx, ps[0].dy, i, j) then ps[0].img.At(i - ps[0].dy, j - ps[0].dx) else old_)
  {
    var rest := ps[1..];
    assert forall k :: 0 <= k < |rest| ==> rest[k] == ps[k + 1];
    match LastOver(rest, i, j)
    case Some(k) =>
      assert LastOver(ps, i, j) == Some(k + 1);
    case None =>
  }

  /** Last write wins: after drawing `ps`, each canvas pixel holds the pixel
      of the last image drawn over it, or its old value if none was. */
  lemma {:induction false} PaintAllLastWins(c: Canvas, ps: seq<Placed>, i: nat, j: nat)
    requires c.Valid() && AllValid(ps) && i < c.height && j < c.width
    ensures PaintAll(c, ps).At(i, j) == Shown(ps, i, j, c.At(i, j))
    decreases |ps|
  {
    if ps != [] {
      var c' := PutImageData(c, ps[0].img, ps[0].dx, ps[0].dy);
      ShownStep(ps, i, j, c.At(i, j));
      PaintAllLastWins(c', ps[1..], i, j);
    }
  }

  /** Putting an image onto a canvas of its own size and reading the
      canvas back gives the image. */
  lemma PutGetRoundTrip(img: ImageData)
    requires img.Valid()
    ensures GetImageData(PutImageData(Blank(img.width, img.height), img, 0, 0), 0, 0, img.width, img.height) == img
  {
    var c := PutImageData(Blank(img.width, img.height), img, 0, 0);
    var back := GetImageData(c, 0, 0, img.width, img.height);
    forall p | 0 <= p < img.PixelCount()
      ensures back.PixelAt(p) == img.PixelAt(p)
    {
      IndexEncode(p, img.height, img.width);
      var i, j := p / img.width, p % img.width;
      assert back.At(i, j) == c.At(i, j);
    }
    ImageDataExtensionality(back, img);
  }
}
