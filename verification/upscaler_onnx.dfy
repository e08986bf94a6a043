/** `upscaleImageOnnx` of src/utils/upscaler-onnx.ts: the whole image in
    one ONNX call, planar in and planar out, with a session cache keyed by
    model URL and four progress reports. */
module UpscalerOnnx {
  import opened Common
  import opened Images
  import opened Tensors
  import opened Onnx
  import opened Caches

  /** The model keys this upscaler knows, and the file each one loads. */
  const ModelUrls: map<string, string> := map[
    "onnx/crystal-linework-x4" := "/models/onnx_models/swin_unet/art/noise1_scale4x.onnx",
    "onnx/nebula-hd-x4" := "/models/onnx_models/swin_unet/photo/noise0_scale4x.onnx",
    "onnx/diamond-clarity-x4" := "/models/onnx_models/swin_unet/art_scan/noise2_scale4x.onnx",
    "onnx/ember-studio-x2" := "/models/onnx_models/cunet/art/noise0_scale2x.onnx"
  ]

  /** An inference session: one input tensor to one output tensor. The
      runtime only hands back tensors whose buffer fits their shape. */
  type Session = Tensor -> Result<ValidTensor, string>

  /** `loadSession`: an unknown key is an error; otherwise the session
      cache is consulted under the key's URL, and `create` runs on a miss. */
  function LoadSession(cache: map<string, Session>, modelKey: string, create: string -> Result<Session, string>): (r: Result<Loaded<string, Session>, string>)
    ensures modelKey !in ModelUrls ==> r.Failure?
    ensures modelKey in ModelUrls && ModelUrls[modelKey] in cache ==>
      r.Success? && r.value.value == cache[ModelUrls[modelKey]] && r.value.cache == cache && !r.value.created
    ensures modelKey in ModelUrls && ModelUrls[modelKey] !in cache ==>
      (r.Success? <==> create(ModelUrls[modelKey]).Success?)
    ensures r.Success? ==> modelKey in ModelUrls && ModelUrls[modelKey] in r.value.cache && r.value.cache[ModelUrls[modelKey]] == r.value.value
  {
    if modelKey !in ModelUrls then Failure("No ONNX URL configured for modelKey: " + modelKey)
    else Load(cache, ModelUrls[modelKey], create)
  }

  /** The cache is keyed by URL, and no two keys share a URL: a session is
      never reused across model keys. */
  lemma UrlsDistinct(a: string, b: string)
    requires a in ModelUrls && b in ModelUrls && a != b
    ensures ModelUrls[a] != ModelUrls[b]
  {
  }

  // ----- imageDataToNCHW -----

  /** `imageDataToNCHW`: the red, green and blue bytes over 255, as three
      planes of `width * height` values (placement stated by
      `ImageDataToNCHWAt`). Alpha is dropped. */
  function ImageDataToNCHW(img: ImageData): (out: seq<real>)
    requires img.Valid()
    ensures |out| == 3 * img.PixelCount()
  {
    var P := img.PixelCount();
    seq(3 * P, e requires 0 <= e < 3 * P => PlaneValue(img, e))
  }

  /** Element `e` of the planar buffer: channel `e / P` of pixel `e % P`. */
  function PlaneValue(img: ImageData, e: nat): real
    requires img.Valid() && e < 3 * img.PixelCount()
  {
    var P := img.PixelCount();
    IndexEncode(e, 3, P);
    Normalize(Channel(img.PixelAt(e % P), e / P))
  }

  /** Channel `c` of pixel `p` lands at `c * P + p`. */
  lemma ImageDataToNCHWAt(img: ImageData, c: nat, p: nat)
    requires img.Valid() && c < 3 && p < img.PixelCount()
    ensures c * img.PixelCount() + p < |ImageDataToNCHW(img)|
    ensures ImageDataToNCHW(img)[c * img.PixelCount() + p] == Normalize(Channel(img.PixelAt(p), c))
  {
    var P := img.PixelCount();
    PlanarIndex(c, p, 3, P);
    assert ImageDataToNCHW(img)[c * P + p] == PlaneValue(img, c * P + p);
  }

  /** The planar buffer is exactly what the NHWC packing of onnx.ts followed
      by its NHWC to NCHW permutation produces. */
  lemma NCHWIsPermutedNHWC(img: ImageData)
    requires img.Valid()
    ensures ImageDataToNCHW(img) == NHWCtoNCHW(ImageDataToNHWC(img)).data
  {
    var t := ImageDataToNHWC(img);
    var u := NHWCtoNCHW(t);
    var a := ImageDataToNCHW(img);
    var P := img.PixelCount();
    assert |u.data| == |a| by {
      Size4(u);
    }
    forall e | 0 <= e < |a|
      ensures a[e] == u.data[e]
    {
      IndexEncode(e, 3, P);
      var c, p := e / P, e % P;
      NHWCtoNCHWAt(t, c, p);
      ImageDataToNCHWAt(img, c, p);
    }
  }

  // ----- nchwToImageData -----

  /** `Math.max(0, Math.min(255, v * 255))` stored into a
      `Uint8ClampedArray` (which rounds half to even). */
  function StoreUnit(v: real): (b: Byte)
    ensures b == ToUint8Clamp(v * 255.0)
  {
    ToUint8Clamp(ClampReal(v * 255.0, 0.0, 255.0))
  }

  /** A read of `arr[i]`: past the end it is `undefined`, every step of the
      arithmetic turns it into NaN, and the array stores NaN as 0. */
  function StoreAt(arr: seq<real>, i: nat): Byte {
    if i < |arr| then StoreUnit(arr[i]) else 0
  }

  /** Pixel `p` of three planes of `P` values, fully opaque. */
  function PlanePixel(arr: seq<real>, P: nat, p: nat): Pixel {
    Pixel(StoreAt(arr, p), StoreAt(arr, P + p), StoreAt(arr, 2 * P + p), 255)
  }

  /** `nchwToImageData`; `new ImageData` refuses a zero side. */
  function NCHWToImageData(arr: seq<real>, width: nat, height: nat): (r: Result<ImageData, string>)
    ensures r.Success? <==> width >= 1 && height >= 1
    ensures r.Success? ==> r.value.Valid() && r.value.width == width && r.value.height == height
    ensures r.Success? ==> forall p :: 0 <= p < height * width ==> r.value.PixelAt(p) == PlanePixel(arr, height * width, p)
  {
    if width == 0 || height == 0 then Failure("IndexSizeError")
    else Success(FromPixels(width, height, seq(height * width, p requires 0 <= p < height * width => PlanePixel(arr, height * width, p))))
  }

  /** Unpacking a packed byte gives it back. */
  lemma StoreUnitRoundTrip(b: Byte)
    ensures StoreUnit(Normalize(b)) == b
  {
    assert Normalize(b) * 255.0 == b as real;
  }

  /** The two unpackings of the repository differ on exact halves: this one
      rounds `0.5` to even (0), `Math.round` in onnx.ts rounds it up (1). */
  lemma StoreRoundsHalfToEven()
    ensures StoreUnit(0.5 / 255.0) == 0 && UnitToByte(0.5 / 255.0) == 1
  {
    assert (0.5 / 255.0) * 255.0 == 0.5;
  }

  /** Packing an image to planes and unpacking them gives the image back,
      made opaque. */
  lemma PlanesRoundTrip(img: ImageData)
    requires img.Valid()
    ensures NCHWToImageData(ImageDataToNCHW(img), img.width, img.height).Success?
    ensures forall p :: 0 <= p < img.PixelCount() ==>
      NCHWToImageData(ImageDataToNCHW(img), img.width, img.height).value.PixelAt(p) == img.PixelAt(p).(a := 255)
  {
    var arr := ImageDataToNCHW(img);
    var P := img.PixelCount();
    forall p | 0 <= p < P
      ensures PlanePixel(arr, P, p) == img.PixelAt(p).(a := 255)
    {
      var px := img.PixelAt(p);
      ImageDataToNCHWAt(img, 0, p);
      ImageDataToNCHWAt(img, 1, p);
      ImageDataToNCHWAt(img, 2, p);
      StoreUnitRoundTrip(px.r);
      StoreUnitRoundTrip(px.g);
      StoreUnitRoundTrip(px.b);
    }
  }

  // ----- upscaleImageOnnx -----

  /** What a call produced: the progress reports it made, the session
      cache afterwards, and the upscaled image (before PNG encoding) or
      the error it stopped with. */
  datatype OnnxRun = OnnxRun(reports: seq<int>, cache: map<string, Session>, image: Result<ImageData, string>)

  /** The tensor the session is given: `[1, 3, H, W]`, holding the NHWC
      packing of the image permuted to planes. */
  function InputOf(src: ImageData): (t: Tensor)
    requires src.Valid()
    ensures t.Valid() && t.dims == [1, 3, src.height, src.width]
    ensures t.data == NHWCtoNCHW(ImageDataToNHWC(src)).data
  {
    NCHWIsPermutedNHWC(src);
    Product4(1, 3, src.height, src.width);
    Tensor([1, 3, src.height, src.width], ImageDataToNCHW(src))
  }

  /** The session's output for the decoded file, or the first error on
      the way to it. */
  function SessionOutput(decoded: Result<ImageData, string>, modelKey: string,
                         cache: map<string, Session>, create: string -> Result<Session, string>): Result<ValidTensor, string>
    requires decoded.Success? ==> decoded.value.Valid()
  {
    match decoded
    case Failure(e) => Failure(e)
    case Success(src) =>
      match LoadSession(cache, modelKey, create)
      case Failure(e) => Failure(e)
      case Success(loaded) => loaded.value(InputOf(src))
  }

  /** An output shape the page can draw: `[n, 3, h, w, ...]` with both
      sides at least 1. */
  predicate Drawable(dims: seq<nat>) {
    |dims| >= 4 && dims[1] == 3 && dims[2] >= 1 && dims[3] >= 1
  }

  /** The part of `upscaleImageOnnx` after the session ran and progress 10
      was reported: `const [n, c, outH, outW] = output.dims` (missing
      entries are undefined), the channel check, and the drawing of the
      planes into a `outW x outH` image, reporting 90 and 100 when it
      succeeds. */
  function DrawOutput(output: ValidTensor, cache: map<string, Session>): (r: OnnxRun)
    ensures r.cache == cache
    ensures r.image.Success? <==> Drawable(output.dims)
    ensures r.image.Success? ==> r.reports == [1, 10, 90, 100]
    ensures r.image.Failure? ==> r.reports == [1, 10]
    ensures r.image.Success? ==>
      var h, w := output.dims[2], output.dims[3];
      && r.image.value.Valid() && r.image.value.width == w && r.image.value.height == h
      && forall p :: 0 <= p < h * w ==> r.image.value.PixelAt(p) == PlanePixel(output.data, h * w, p)
  {
    var dims := output.dims;
    if |dims| < 2 || dims[1] != 3 then
      OnnxRun([1, 10], cache, Failure("Unexpected channel count from ONNX output"))
    else if |dims| < 4 then
      OnnxRun([1, 10], cache, Failure("IndexSizeError"))
    else
      match NCHWToImageData(output.data, dims[3], dims[2])
      case Failure(e) => OnnxRun([1, 10], cache, Failure(e))
      case Success(img) =>
        // drawn whole onto a canvas of its own size, then encoded
        OnnxRun([1, 10, 90, 100], cache, Success(img))
  }

  /** `upscaleImageOnnx`, given the decoded file (decoding is I/O; it can
      fail), the session cache and the session factory. Progress is 1, then
      10 once the session has loaded, then 90 and 100, all four exactly when
      the call finishes. A call finishes exactly when the file decodes, the
      key is known, the session loads and runs, and its output is
      `[n, 3, h, w]` with `h, w >= 1`; the image is then `w x h`, pixel `p`
      taking its channels from the planes at `p`, `P + p` and `2P + p`
      (`P = h * w`), fully opaque. */
  function UpscaleImageOnnx(decoded: Result<ImageData, string>, modelKey: string,
                            cache: map<string, Session>, create: string -> Result<Session, string>): (r: OnnxRun)
    requires decoded.Success? ==> decoded.value.Valid()
    ensures r.reports == [1] || r.reports == [1, 10] || r.reports == [1, 10, 90, 100]
    ensures r.image.Success? <==> r.reports == [1, 10, 90, 100]
    ensures r.reports == [1] <==> !(decoded.Success? && LoadSession(cache, modelKey, create).Success?)
    ensures r.image.Success? <==>
      && SessionOutput(decoded, modelKey, cache, create).Success?
      && Drawable(SessionOutput(decoded, modelKey, cache, create).value.dims)
    ensures r.image.Success? ==>
      var out := SessionOutput(decoded, modelKey, cache, create).value;
      var h, w := out.dims[2], out.dims[3];
      && r.image.value.Valid() && r.image.value.width == w && r.image.value.height == h
      && forall p :: 0 <= p < h * w ==> r.image.value.PixelAt(p) == PlanePixel(out.data, h * w, p)
  {
    match decoded
    case Failure(e) => OnnxRun([1], cache, Failure(e))
    case Success(src) =>
      match LoadSession(cache, modelKey, create)
      case Failure(e) => OnnxRun([1], cache, Failure(e))
      case Success(loaded) =>
        match loaded.value(InputOf(src))
        case Failure(e) => OnnxRun([1, 10], loaded.cache, Failure(e))
        case Success(output) => DrawOutput(output, loaded.cache)
  }

  /** A session that hands its input back unchanged yields the source
      image, made opaque. */
  lemma IdentitySessionRoundTrip(src: ImageData, modelKey: string, cache: map<string, Session>, create: string -> Result<Session, string>)
    requires src.Valid()
    requires LoadSession(cache, modelKey, create).Success?
    requires LoadSession(cache, modelKey, create).value.value(InputOf(src)) == Success(InputOf(src))
    ensures var r := UpscaleImageOnnx(Success(src), modelKey, cache, create);
      && r.image.Success? && r.image.value.width == src.width && r.image.value.height == src.height
      && forall p :: 0 <= p < src.PixelCount() ==> r.image.value.PixelAt(p) == src.PixelAt(p).(a := 255)
  {
    PlanesRoundTrip(src);
  }
}
