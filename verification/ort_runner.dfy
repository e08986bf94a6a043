/** `runImageModel` of src/lib/ortRunner.ts: the input layout read from the
    session's metadata, the image padded to a multiple of a block size,
    packed (optionally BGR, optionally unnormalised), one session call, the
    output decoded by its shape, and a crop to the source size times a
    rounded integer scale. */
module OrtRunner {
  import opened Common
  import opened Images
  import opened Tensors
  import opened Onnx
  import UpscalerOnnx

  // ----- getModelLayout -----

  /** `getModelLayout` on the declared input dimensions: a four-or-more
      dimensional input with 3 at position 1 is NCHW; failing that, one
      whose last dimension is 3 is NHWC; anything else is taken as NCHW. */
  function GetModelLayout(dims: seq<int>): (l: Layout)
    ensures l == NHWC <==> |dims| >= 4 && dims[1] != 3 && dims[|dims| - 1] == 3
    ensures |dims| < 4 ==> l == NCHW
  {
    if |dims| >= 4 && dims[1] == 3 then NCHW
    else if |dims| >= 4 && dims[|dims| - 1] == 3 then NHWC
    else NCHW
  }

  /** The two files test the layouts in opposite order: `[1, 3, h, 3]` is
      planar here and interleaved to `tensorToImageData` of onnx.ts. */
  lemma LayoutPrecedenceDiffers(h: nat)
    ensures GetModelLayout([1, 3, h, 3]) == NCHW && IsNHWC([1, 3, h, 3])
  {
  }

  // ----- packing -----

  /** The options of a run; an absent field takes its default. */
  datatype RunOptions = RunOptions(padMultiple: Option<int>, normalize: Option<bool>, bgr: Option<bool>)

  function OrElse<T>(o: Option<T>, d: T): T {
    match o
    case Some(v) => v
    case None => d
  }

  /** A colour byte as the model sees it: over 255, or as is. */
  function Level(b: Byte, normalize: bool): real {
    if normalize then Normalize(b) else b as real
  }

  /** The source channel of output channel `c`: reversed when `bgr`. */
  function SourceChannel(c: nat, bgr: bool): (s: nat)
    requires c < 3
    ensures s < 3
  {
    if bgr then 2 - c else c
  }

  /** `rgbaToNCHWFloat32` (placement stated by `RgbaToNCHWAt`). */
  function RgbaToNCHW(img: ImageData, normalize: bool, bgr: bool): (out: seq<real>)
    requires img.Valid()
    ensures |out| == 3 * img.PixelCount()
  {
    var P := img.PixelCount();
    seq(3 * P, e requires 0 <= e < 3 * P => PlanarLevel(img, normalize, bgr, e))
  }

  function PlanarLevel(img: ImageData, normalize: bool, bgr: bool, e: nat): real
    requires img.Valid() && e < 3 * img.PixelCount()
  {
    var P := img.PixelCount();
    IndexEncode(e, 3, P);
    Level(Channel(img.PixelAt(e % P), SourceChannel(e / P, bgr)), normalize)
  }

  /** Plane `c` holds channel `c` of every pixel (channel `2 - c` when
      `bgr`): `out[c * P + p]`. */
  lemma RgbaToNCHWAt(img: ImageData, normalize: bool, bgr: bool, c: nat, p: nat)
    requires img.Valid() && c < 3 && p < img.PixelCount()
    ensures c * img.PixelCount() + p < |RgbaToNCHW(img, normalize, bgr)|
    ensures RgbaToNCHW(img, normalize, bgr)[c * img.PixelCount() + p]
      == Level(Channel(img.PixelAt(p), SourceChannel(c, bgr)), normalize)
  {
    var P := img.PixelCount();
    PlanarIndex(c, p, 3, P);
    assert RgbaToNCHW(img, normalize, bgr)[c * P + p] == PlanarLevel(img, normalize, bgr, c * P + p);
  }

  /** With the default options the planar packing is the one of
      upscaler-onnx.ts. */
  lemma RgbaToNCHWDefault(img: ImageData)
    requires img.Valid()
    ensures RgbaToNCHW(img, true, false) == UpscalerOnnx.ImageDataToNCHW(img)
  {
    var a, b := RgbaToNCHW(img, true, false), UpscalerOnnx.ImageDataToNCHW(img);
    var P := img.PixelCount();
    forall e | 0 <= e < |a|
      ensures a[e] == b[e]
    {
      IndexEncode(e, 3, P);
      var c, p := e / P, e % P;
      RgbaToNCHWAt(img, true, false, c, p);
      UpscalerOnnx.ImageDataToNCHWAt(img, c, p);
    }
  }

  /** `rgbaToNHWCFloat32` (placement stated by `RgbaToNHWCAt`). */
  function RgbaToNHWC(img: ImageData, normalize: bool, bgr: bool): (out: seq<real>)
    requires img.Valid()
    ensures |out| == img.PixelCount() * 3
  {
    var P := img.PixelCount();
    seq(P * 3, e requires 0 <= e < P * 3 => InterleavedLevel(img, normalize, bgr, e))
  }

  function InterleavedLevel(img: ImageData, normalize: bool, bgr: bool, e: nat): real
    requires img.Valid() && e < img.PixelCount() * 3
  {
    var P := img.PixelCount();
    IndexEncode(e, P, 3);
    Level(Channel(img.PixelAt(e / 3), SourceChannel(e % 3, bgr)), normalize)
  }

  /** The triple of pixel `p` sits at `3p`, `3p + 1`, `3p + 2`, reversed
      when `bgr`. */
  lemma RgbaToNHWCAt(img: ImageData, normalize: bool, bgr: bool, c: nat, p: nat)
    requires img.Valid() && c < 3 && p < img.PixelCount()
    ensures p * 3 + c < |RgbaToNHWC(img, normalize, bgr)|
    ensures RgbaToNHWC(img, normalize, bgr)[p * 3 + c]
      == Level(Channel(img.PixelAt(p), SourceChannel(c, bgr)), normalize)
  {
    var P := img.PixelCount();
    InterleavedIndex(p, c, P, 3);
    assert RgbaToNHWC(img, normalize, bgr)[p * 3 + c] == InterleavedLevel(img, normalize, bgr, p * 3 + c);
  }

  /** With the default options the interleaved packing is the one of
      onnx.ts. */
  lemma RgbaToNHWCDefault(img: ImageData)
    requires img.Valid()
    ensures RgbaToNHWC(img, true, false) == ImageDataToNHWC(img).data
  {
    var a, b := RgbaToNHWC(img, true, false), ImageDataToNHWC(img).data;
    var P := img.PixelCount();
    forall e | 0 <= e < |a|
      ensures a[e] == b[e]
    {
      IndexEncode(e, P, 3);
      var p, c := e / 3, e % 3;
      RgbaToNHWCAt(img, true, false, c, p);
    }
  }

  // ----- decoding -----

  /** `Math.round(Math.max(0, Math.min(1, f[i])) * 255)`; past the end of
      the buffer the read is undefined, the arithmetic gives NaN, and the
      array stores 0. */
  function ByteAt(f: seq<real>, i: nat): Byte {
    if i < |f| then UnitToByteClampFirst(f[i]) else 0
  }

  /** Both decoders of this file clamp before rounding, onnx.ts rounds
      before clamping; byte for byte they agree. */
  lemma ByteAtAgrees(f: seq<real>, i: nat)
    ensures ByteAt(f, i) == PlaneByte(f, i)
  {
    if i < |f| {
      UnpackOrdersAgree(f[i]);
    }
  }

  /** `nchwToImageData`: only `[1, 3, H, W]` is accepted. With a zero (or
      missing) side the pixel array is empty, and `new ImageData(array, W, H)`
      throws an InvalidStateError for it. */
  function NchwToImageData(t: Tensor): (r: Result<ImageData, string>)
    ensures r.Success? <==> |t.dims| >= 4 && t.dims[0] == 1 && t.dims[1] == 3 && t.dims[2] >= 1 && t.dims[3] >= 1
    ensures r.Success? ==> r.value.Valid() && r.value.height == t.dims[2] && r.value.width == t.dims[3]
  {
    var dims := t.dims;
    if |dims| < 2 || dims[0] != 1 || dims[1] != 3 then Failure("Unexpected output dims for NCHW")
    else if |dims| < 4 || dims[2] == 0 || dims[3] == 0 then Failure("InvalidStateError")
    else
      var h, w := dims[2], dims[3];
      var P := w * h;
      Success(FromPixels(w, h, seq(h * w, p requires 0 <= p < h * w =>
        Pixel(ByteAt(t.data, p), ByteAt(t.data, P + p), ByteAt(t.data, 2 * P + p), 255))))
  }

  /** Pixel `p` of an interleaved buffer, fully opaque. */
  function TriplePixel(f: seq<real>, p: nat): Pixel {
    Pixel(ByteAt(f, 3 * p), ByteAt(f, 3 * p + 1), ByteAt(f, 3 * p + 2), 255)
  }

  /** `nhwcToImageData`: only `[1, H, W, 3]` is accepted, and a zero side
      gives the same InvalidStateError. */
  function NhwcToImageData(t: Tensor): (r: Result<ImageData, string>)
    ensures r.Success? <==> |t.dims| >= 4 && t.dims[0] == 1 && t.dims[3] == 3 && t.dims[1] >= 1 && t.dims[2] >= 1
    ensures r.Success? ==> r.value.Valid() && r.value.height == t.dims[1] && r.value.width == t.dims[2]
  {
    var dims := t.dims;
    if |dims| < 4 || dims[0] != 1 || dims[3] != 3 then Failure("Unexpected output dims for NHWC")
    else if dims[1] == 0 || dims[2] == 0 then Failure("InvalidStateError")
    else
      var h, w := dims[1], dims[2];
      Success(FromPixels(w, h, seq(h * w, p requires 0 <= p < h * w => TriplePixel(t.data, p))))
  }

  lemma NhwcToImageDataAt(t: Tensor, p: nat)
    requires NhwcToImageData(t).Success? && p < t.dims[1] * t.dims[2]
    ensures NhwcToImageData(t).value.PixelAt(p) == TriplePixel(t.data, p)
  {
    var h, w := t.dims[1], t.dims[2];
    var ps := seq(h * w, p requires 0 <= p < h * w => TriplePixel(t.data, p));
    assert NhwcToImageData(t).value == FromPixels(w, h, ps);
  }

  /** On a single planar image that is not also interleaved-shaped, the
      planar decoder of this file and `tensorToImageData` of onnx.ts give
      the same result. */
  lemma NchwAgreesWithOnnx(t: Tensor)
    requires t.Valid() && IsNCHW(t.dims) && !IsNHWC(t.dims) && t.dims[0] == 1
    ensures NchwToImageData(t) == TensorToImageData(t)
  {
    var h, w := t.dims[2], t.dims[3];
    if h >= 1 && w >= 1 {
      var P := h * w;
      var a := seq(h * w, p requires 0 <= p < h * w =>
        Pixel(ByteAt(t.data, p), ByteAt(t.data, P + p), ByteAt(t.data, 2 * P + p), 255));
      var b := seq(h * w, p requires 0 <= p < h * w => PlanarPixel(t.data, h * w, p));
      forall p | 0 <= p < h * w
        ensures a[p] == b[p]
      {
        ByteAtAgrees(t.data, p);
        ByteAtAgrees(t.data, P + p);
        ByteAtAgrees(t.data, 2 * P + p);
      }
      assert a == b;
    }
  }

  /** Likewise for a single interleaved image. */
  lemma NhwcAgreesWithOnnx(t: Tensor)
    requires t.Valid() && IsNHWC(t.dims) && t.dims[0] == 1
    ensures NhwcToImageData(t) == TensorToImageData(t)
  {
    var h, w := t.dims[1], t.dims[2];
    if h >= 1 && w >= 1 {
      var f := t.data;
      Size4(t);
      assert |f| == (h * w) * 3;
      var a := seq(h * w, p requires 0 <= p < h * w => TriplePixel(f, p));
      var b := seq(h * w, p requires 0 <= p < h * w => InterleavedPixel(f, p));
      forall p | 0 <= p < h * w
        ensures a[p] == b[p]
      {
        TriplePixelAgrees(f, h * w, p);
      }
      assert a == b;
    }
  }

  /** Where the buffer holds the triple, this file's interleaved read and
      the one of onnx.ts agree. */
  lemma TriplePixelAgrees(f: seq<real>, P: nat, p: nat)
    requires p < P && P * 3 <= |f|
    ensures TriplePixel(f, p) == InterleavedPixel(f, p)
  {
    MulLe(p + 1, P, 3);
    assert 3 * p == p * 3;
    ByteAtAgrees(f, p * 3);
    ByteAtAgrees(f, p * 3 + 1);
    ByteAtAgrees(f, p * 3 + 2);
  }

  /** The decoder `runImageModel` picks for an output shape. */
  function OutputLayout(od: seq<nat>): Layout {
    if |od| == 4 && od[1] == 3 then NCHW
    else if |od| == 4 && od[3] == 3 then NHWC
    else NCHW
  }

  /** Up to four dimensions the output is decoded by the rule that chose
      the input layout. */
  lemma OutputLayoutMatchesInput(od: seq<nat>)
    requires |od| <= 4
    ensures OutputLayout(od) == GetModelLayout(od)
  {
  }

  function OutputImage(out: Tensor): (r: Result<ImageData, string>)
    ensures r.Success? ==> r.value.Valid()
  {
    if OutputLayout(out.dims) == NCHW then NchwToImageData(out) else NhwcToImageData(out)
  }

  // ----- padToMultiple and cropImageData -----

  /** The padded image and the padding added on the right and at the
      bottom. */
  datatype Padded = Padded(padded: ImageData, padW: nat, padH: nat)

  /** `Math.ceil(n / k) * k`: the least multiple of `k` that is `>= n`. */
  function RoundUp(n: nat, k: nat): (m: nat)
    requires k >= 1
    ensures m % k == 0 && n <= m < n + k
  {
    var q := CeilDiv(n, k);
    MulDistrib(q, -1, k);
    assert (q * k) % k == 0 by {
      DivModUnique(q * k, k, q, 0);
    }
    q * k
  }

  /** `padToMultiple`: a block size `<= 1` (or absent, or zero) and an image
      that is already a multiple leave it as it is; otherwise it is drawn
      onto a transparent canvas rounded up to multiples of `k`. */
  function PadToMultiple(img: ImageData, k: int): (r: Padded)
    requires img.Valid()
    ensures r.padded.Valid()
    ensures k <= 1 ==> r == Padded(img, 0, 0)
    ensures k > 1 ==>
      && r.padded.width == RoundUp(img.width, k) && r.padded.height == RoundUp(img.height, k)
      && r.padW == r.padded.width - img.width && r.padH == r.padded.height - img.height
    ensures k > 1 && img.width % k == 0 && img.height % k == 0 ==> r == Padded(img, 0, 0)
  {
    if k <= 1 then Padded(img, 0, 0)
    else
      var targetW, targetH := RoundUp(img.width, k), RoundUp(img.height, k);
      if targetW == img.width && targetH == img.height then Padded(img, 0, 0)
      else
        var c := PutImageData(Blank(targetW, targetH), img, 0, 0);
        Padded(GetImageData(c, 0, 0, targetW, targetH), targetW - img.width, targetH - img.height)
  }

  /** The padded image is the image at the top left, transparent black to
      the right and below. */
  lemma PadToMultipleAt(img: ImageData, k: int, i: nat, j: nat)
    requires img.Valid()
    requires i < PadToMultiple(img, k).padded.height && j < PadToMultiple(img, k).padded.width
    ensures PadToMultiple(img, k).padded.At(i, j) ==
      if i < img.height && j < img.width then img.At(i, j) else Transparent
  {
    var r := PadToMultiple(img, k);
    if r.padded != img {
      var targetW, targetH := RoundUp(img.width, k), RoundUp(img.height, k);
      var c := PutImageData(Blank(targetW, targetH), img, 0, 0);
      assert r.padded.At(i, j) == c.At(i, j);
    }
  }

  /** `cropImageData`: the same size returns the image itself; otherwise
      the top-left `width x height` of it on a transparent canvas, which
      `getImageData` refuses when a side is zero. */
  function CropImageData(img: ImageData, width: nat, height: nat): (r: Result<ImageData, string>)
    requires img.Valid()
    ensures r.Success? <==> width >= 1 && height >= 1
    ensures r.Success? ==> r.value.Valid() && r.value.width == width && r.value.height == height
    ensures img.width == width && img.height == height ==> r == Success(img)
  {
    if img.width == width && img.height == height then Success(img)
    else if width == 0 || height == 0 then Failure("IndexSizeError")
    else Success(GetImageData(PutImageData(Blank(width, height), img, 0, 0), 0, 0, width, height))
  }

  /** The crop keeps the pixels it covers and is transparent black past the
      image. */
  lemma CropImageDataAt(img: ImageData, width: nat, height: nat, i: nat, j: nat)
    requires img.Valid() && width >= 1 && height >= 1 && i < height && j < width
    ensures CropImageData(img, width, height).value.At(i, j) ==
      if i < img.height && j < img.width then img.At(i, j) else Transparent
  {
    if !(img.width == width && img.height == height) {
      var c := PutImageData(Blank(width, height), img, 0, 0);
      assert CropImageData(img, width, height).value.At(i, j) == c.At(i, j);
    }
  }

  /** The early return for a matching size is only a shortcut: the canvas
      path would give the same image. */
  lemma CropShortcutAgrees(img: ImageData)
    requires img.Valid()
    ensures GetImageData(PutImageData(Blank(img.width, img.height), img, 0, 0), 0, 0, img.width, img.height)
      == CropImageData(img, img.width, img.height).value
  {
    PutGetRoundTrip(img);
  }

  // ----- runImageModel -----

  /** A session: one tensor in, one tensor out; it may fail. */
  type Session = Tensor -> Result<ValidTensor, string>

  datatype RunResult = RunResult(image: ImageData, tensor: Tensor)

  /** `Math.round((scaleW + scaleH) / 2)`: the mean of the two axis scales,
      rounded to a whole number. */
  function ApproxScale(outW: nat, outH: nat, padW: nat, padH: nat): (s: nat)
    requires padW >= 1 && padH >= 1
  {
    var m := (outW as real / padW as real + outH as real / padH as real) / 2.0;
    assert m >= 0.0;
    Round(m)
  }

  /** `Math.round(orig * approxScale)`: with a whole-number scale the
      rounding is exact. */
  function ScaledSize(n: nat, s: nat): (m: nat)
    ensures m == n * s
  {
    assert n as real * s as real == (n * s) as real;
    Round(n as real * s as real)
  }

  /** The padded image a run works on. */
  function PaddedInput(img: ImageData, options: RunOptions): (p: ImageData)
    requires img.Valid()
    ensures p.Valid()
  {
    PadToMultiple(img, OrElse(options.padMultiple, 8)).padded
  }

  /** The tensor the session is given, in the layout the metadata asks for. */
  function ModelInput(inputDims: seq<int>, img: ImageData, options: RunOptions): (t: Tensor)
    requires img.Valid()
    ensures t.Valid()
    ensures var p := PaddedInput(img, options);
      t.dims == if GetModelLayout(inputDims) == NCHW then [1, 3, p.height, p.width] else [1, p.height, p.width, 3]
  {
    var padded := PaddedInput(img, options);
    var normalize, bgr := OrElse(options.normalize, true), OrElse(options.bgr, false);
    Product4(1, 3, padded.height, padded.width);
    Product4(1, padded.height, padded.width, 3);
    if GetModelLayout(inputDims) == NCHW then
      Tensor([1, 3, padded.height, padded.width], RgbaToNCHW(padded, normalize, bgr))
    else
      Regroup(padded.height, padded.width, 3);
      Tensor([1, padded.height, padded.width, 3], RgbaToNHWC(padded, normalize, bgr))
  }

  /** `runImageModel(session, img, options)`, with the session's declared
      input dimensions. A run that succeeds called the session once with
      `ModelInput` and returns its output tensor, and its image is the
      source size times one whole-number scale on both axes. */
  function RunImageModel(session: Session, inputDims: seq<int>, img: ImageData, options: RunOptions): (r: Result<RunResult, string>)
    requires img.Valid()
    ensures r.Success? ==> session(ModelInput(inputDims, img, options)) == Success(r.value.tensor)
    ensures r.Success? ==>
      && OutputImage(r.value.tensor).Success?
      && var out, p := OutputImage(r.value.tensor).value, PaddedInput(img, options);
      && var s := ApproxScale(out.width, out.height, p.width, p.height);
      && r.value.image.Valid()
      && r.value.image.width == img.width * s && r.value.image.height == img.height * s
  {
    var padded := PaddedInput(img, options);
    var out :- session(ModelInput(inputDims, img, options));
    var outImage :- OutputImage(out);
    var s := ApproxScale(outImage.width, outImage.height, padded.width, padded.height);
    var targetW, targetH := ScaledSize(img.width, s), ScaledSize(img.height, s);
    var final :- CropImageData(outImage, targetW, targetH);
    Success(RunResult(final, out))
  }

  /** The image of a run is the decoded output cut (or extended with
      transparent black) to the scaled source size: the padding is never
      removed separately, it falls away only where the rounded scale
      crops it. */
  lemma RunImageModelAt(session: Session, inputDims: seq<int>, img: ImageData, options: RunOptions, i: nat, j: nat)
    requires img.Valid()
    requires RunImageModel(session, inputDims, img, options).Success?
    requires i < RunImageModel(session, inputDims, img, options).value.image.height
    requires j < RunImageModel(session, inputDims, img, options).value.image.width
    ensures var r := RunImageModel(session, inputDims, img, options).value;
      var out := OutputImage(r.tensor).value;
      r.image.At(i, j) == if i < out.height && j < out.width then out.At(i, j) else Transparent
  {
    var r := RunImageModel(session, inputDims, img, options).value;
    var out := OutputImage(r.tensor).value;
    CropImageDataAt(out, r.image.width, r.image.height, i, j);
  }
}
