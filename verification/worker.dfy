/** The TensorFlow.js web worker of src/workers/tfupscale.worker.ts: the
    RGBA-to-NHWC packing of the decoded bitmap, the conversion of the
    squeezed output tensor to RGBA, and the messages one job posts. */
module Worker {
  import opened Common
  import opened Images
  import opened Tensors
  import opened Onnx

  // ----- bitmapToNHWC -----

  /** Value `e` of the packed buffer: channel `e % 3` of pixel `e / 3`. */
  function PackedValue(img: ImageData, e: nat): real
    requires img.Valid() && e < img.PixelCount() * 3
  {
    InterleavedIndex(e / 3, e % 3, img.PixelCount(), 3);
    Normalize(img.data[4 * (e / 3) + e % 3])
  }

  /** `bitmapToNHWC`: walk the bytes four at a time and append the red,
      green and blue values over 255; the result is the onnx.ts packing. */
  method BitmapToNHWC(img: ImageData) returns (t: Tensor)
    requires img.Valid()
    ensures t == ImageDataToNHWC(img)
  {
    var P := img.PixelCount();
    var arr: seq<real> := [];
    var p := 0;
    while p < P
      invariant 0 <= p <= P && |arr| == 3 * p
      invariant forall e :: 0 <= e < 3 * p ==> arr[e] == PackedValue(img, e)
    {
      var i := 4 * p;
      var triple := [Normalize(img.data[i]), Normalize(img.data[i + 1]), Normalize(img.data[i + 2])];
      forall e | 3 * p <= e < 3 * p + 3
        ensures triple[e - 3 * p] == PackedValue(img, e)
      {
        DivModUnique(e, 3, p, e - 3 * p);
      }
      arr := arr + triple;
      p := p + 1;
    }
    var expected := ImageDataToNHWC(img);
    forall e | 0 <= e < |arr|
      ensures arr[e] == expected.data[e]
    {
      InterleavedIndex(e / 3, e % 3, P, 3);
      assert expected.data[(e / 3) * 3 + e % 3] == Normalize(Channel(img.PixelAt(e / 3), e % 3));
    }
    t := Tensor([1, img.height, img.width, 3], arr);
  }

  // ----- tensorToBlob -----

  /** `tensor.squeeze()`: every axis of length 1 removed. */
  function Squeeze(dims: seq<nat>): (r: seq<nat>)
    ensures |r| <= |dims|
    ensures forall k :: 0 <= k < |r| ==> r[k] != 1
  {
    if dims == [] then [] else (if dims[0] == 1 then [] else [dims[0]]) + Squeeze(dims[1..])
  }

  /** Dropping axes of length 1 keeps the element count. */
  lemma {:induction false} SqueezeProduct(dims: seq<nat>)
    ensures Product(Squeeze(dims)) == Product(dims)
  {
    if dims != [] {
      SqueezeProduct(dims[1..]);
      if dims[0] != 1 {
        assert Squeeze(dims) == [dims[0]] + Squeeze(dims[1..]);
        assert Squeeze(dims)[1..] == Squeeze(dims[1..]);
      } else {
        assert Squeeze(dims) == [] + Squeeze(dims[1..]) == Squeeze(dims[1..]);
      }
    }
  }

  lemma SqueezeImage(h: nat, w: nat)
    requires h != 1 && w != 1
    ensures Squeeze([1, h, w, 3]) == [h, w, 3]
  {
    assert [3][1..] == [];
    assert Squeeze([3]) == [3] + Squeeze([]) == [3];
    assert [w, 3][1..] == [3];
    assert Squeeze([w, 3]) == [w] + Squeeze([3]) == [w, 3];
    assert [h, w, 3][1..] == [w, 3];
    assert Squeeze([h, w, 3]) == [h] + Squeeze([w, 3]) == [h, w, 3];
    assert [1, h, w, 3][1..] == [h, w, 3];
    assert Squeeze([1, h, w, 3]) == [] + Squeeze([h, w, 3]);
  }

  /** A byte of the output: `Math.round(cpu[k] * 255)` clamped; past the end
      of the buffer (or with no channel count, where the index is NaN) the
      value is NaN and the clamped array stores 0. */
  function BlobByte(cpu: seq<real>, channels: Option<nat>, p: nat, k: nat): Byte {
    match channels
      case None => 0
      case Some(c) => PlaneByte(cpu, p * c + k)
  }

  function BlobPixel(cpu: seq<real>, channels: Option<nat>, p: nat): Pixel {
    Pixel(BlobByte(cpu, channels, p, 0), BlobByte(cpu, channels, p, 1), BlobByte(cpu, channels, p, 2), 255)
  }

  /** `shape.slice(-3)`: the last three axes, or all of them when there
      are fewer. */
  function LastAxes(dims: seq<nat>): (last: seq<nat>)
    ensures |last| == Min(3, |dims|)
    ensures forall k :: 0 <= k < |last| ==> last[k] == dims[|dims| - |last| + k]
  {
    dims[|dims| - Min(3, |dims|)..]
  }

  /** `tensorToBlob` up to `putImageData`: the last three axes are read as
      `[h, w, c]`. With fewer than two axes the width is undefined, and
      `new OffscreenCanvas` throws a TypeError for it (its sides are
      `[EnforceRange]` integers); with both sides read, `createImageData`
      throws an IndexSizeError for a zero side. */
  function OutputImage(t: Tensor): (r: Result<ImageData, string>)
    ensures var last := LastAxes(t.dims);
      r.Success? <==> |last| >= 2 && last[0] >= 1 && last[1] >= 1
    ensures |LastAxes(t.dims)| < 2 ==> r == Failure("TypeError")
    ensures var last := LastAxes(t.dims);
      |last| >= 2 && (last[0] == 0 || last[1] == 0) ==> r == Failure("IndexSizeError")
    ensures r.Success? ==>
      r.value.Valid() && r.value.height == LastAxes(t.dims)[0] && r.value.width == LastAxes(t.dims)[1]
  {
    var last := LastAxes(t.dims);
    if |last| < 2 then Failure("TypeError")
    else if last[0] == 0 || last[1] == 0 then Failure("IndexSizeError")
    else
      Success(BlobImage(t.data, if |last| == 3 then Some(last[2]) else None, last[1], last[0]))
  }

  /** The `w x h` image the loop writes, fully opaque. */
  function BlobImage(cpu: seq<real>, channels: Option<nat>, w: nat, h: nat): (img: ImageData)
    requires w >= 1 && h >= 1
    ensures img.Valid() && img.width == w && img.height == h
    ensures forall p :: 0 <= p < h * w ==> img.PixelAt(p) == BlobPixel(cpu, channels, p)
  {
    FromPixels(w, h, seq(h * w, p requires 0 <= p < h * w => BlobPixel(cpu, channels, p)))
  }

  /** With three channels a pixel reads the triple at `3p`. */
  lemma BlobPixelInterleaved(cpu: seq<real>, p: nat)
    requires p * 3 + 2 < |cpu|
    ensures BlobPixel(cpu, Some(3), p) == InterleavedPixel(cpu, p)
  {
  }

  /** The worker output `[1, h, w, 3]` squeezed to `[h, w, 3]` gives the
      image onnx.ts unpacks from the unsqueezed tensor. */
  lemma OutputImageMatchesOnnx(t: Tensor)
    requires t.Valid() && |t.dims| == 4 && t.dims[0] == 1 && t.dims[3] == 3
    requires t.dims[1] >= 2 && t.dims[2] >= 2
    ensures Squeeze(t.dims) == [t.dims[1], t.dims[2], 3]
    ensures OutputImage(Tensor(Squeeze(t.dims), t.data)) == TensorToImageData(t)
  {
    var h, w := t.dims[1], t.dims[2];
    assert t.dims == [1, h, w, 3];
    SqueezeImage(h, w);
    assert LastAxes([h, w, 3]) == [h, w, 3];
    var a := BlobImage(t.data, Some(3), w, h);
    assert OutputImage(Tensor(Squeeze(t.dims), t.data)) == Success(a);
    var b := TensorToImageData(t).value;
    forall p | 0 <= p < a.PixelCount()
      ensures a.PixelAt(p) == b.PixelAt(p)
    {
      TensorToImageDataNHWC(t, p);
      BlobPixelInterleaved(t.data, p);
    }
    ImageDataExtensionality(a, b);
  }

  lemma SqueezeUnitHeight(w: nat)
    requires w != 1
    ensures Squeeze([1, 1, w, 3]) == [w, 3]
  {
    assert [3][1..] == [];
    assert Squeeze([3]) == [3] + Squeeze([]) == [3];
    assert [w, 3][1..] == [3];
    assert Squeeze([w, 3]) == [w] + Squeeze([3]) == [w, 3];
    assert [1, w, 3][1..] == [w, 3];
    assert Squeeze([1, w, 3]) == [] + Squeeze([w, 3]);
    assert [1, 1, w, 3][1..] == [1, w, 3];
    assert Squeeze([1, 1, w, 3]) == [] + Squeeze([1, w, 3]);
  }

  /** A one-pixel-high output loses its height axis in the squeeze: the
      last axes read as `[w, 3]`, so the image comes out `3` wide, `w`
      high, and opaque black. */
  lemma OutputImageUnitHeight(t: Tensor)
    requires t.Valid() && |t.dims| == 4 && t.dims[0] == 1 && t.dims[1] == 1 && t.dims[3] == 3 && t.dims[2] >= 2
    ensures var r := OutputImage(Tensor(Squeeze(t.dims), t.data));
      && r.Success? && r.value.width == 3 && r.value.height == t.dims[2]
      && forall p :: 0 <= p < r.value.PixelCount() ==> r.value.PixelAt(p) == Pixel(0, 0, 0, 255)
  {
    var w := t.dims[2];
    assert t.dims == [1, 1, w, 3];
    SqueezeUnitHeight(w);
    assert LastAxes([w, 3]) == [w, 3];
    var img := BlobImage(t.data, None, 3, w);
    assert OutputImage(Tensor([w, 3], t.data)) == Success(img);
    assert forall p :: 0 <= p < img.PixelCount() ==> img.PixelAt(p) == BlobPixel(t.data, None, p);
  }

  // ----- the PNG encoding -----

  /** The encoding call made on the `OffscreenCanvas` holding the image:
      the class has `convertToBlob`, and no `toBlob`. */
  datatype BlobCall = ToBlob | ConvertToBlob

  const TO_BLOB_MISSING := "canvas.toBlob is not a function"

  /** The encoding step; the blob is represented by the image it encodes. */
  function Encode(call: BlobCall, img: ImageData): Result<ImageData, string> {
    match call
      case ToBlob => Failure(TO_BLOB_MISSING)
      case ConvertToBlob => Success(img)
  }

  /** `tensorToBlob` with the given encoding call. */
  function TensorToBlobWith(call: BlobCall, t: Tensor): (r: Result<ImageData, string>)
    ensures OutputImage(t).Failure? ==> r == OutputImage(t)
  {
    var img :- OutputImage(t);
    Encode(call, img)
  }

  /** `tensorToBlob` as written: `canvas.toBlob` on an `OffscreenCanvas`
      throws inside the promise executor, so the promise rejects. */
  function TensorToBlobAsWritten(t: Tensor): (r: Result<ImageData, string>)
    ensures r.Failure?
    ensures OutputImage(t).Success? ==> r.error == TO_BLOB_MISSING
  {
    TensorToBlobWith(ToBlob, t)
  }

  /** `tensorToBlob` with `canvas.convertToBlob`: it fails only where the
      pixel step does, and encodes that step's image. */
  function TensorToBlob(t: Tensor): (r: Result<ImageData, string>)
    ensures var last := LastAxes(t.dims);
      r.Success? <==> |last| >= 2 && last[0] >= 1 && last[1] >= 1
    ensures r.Success? ==>
      r.value.Valid() && r.value.height == LastAxes(t.dims)[0] && r.value.width == LastAxes(t.dims)[1]
    ensures r == OutputImage(t)
  {
    TensorToBlobWith(ConvertToBlob, t)
  }

  // ----- the message protocol -----

  datatype Job = Job(id: string, modelUrl: string)

  /** A message to the page; `Done` carries the image whose PNG encoding the
      blob URL names. */
  datatype Msg =
    | Progress(id: string, value: int)
    | Done(id: string, image: ImageData)
    | Error(id: string, error: string)
  {
    predicate Terminal() {
      !Progress?
    }
  }

  /** A graph model: the first output of `executeAsync` on the feeds. */
  type GraphModel = Tensor -> Result<ValidTensor, string>

  /** What a job posts: its progress reports, then one terminal message. */
  predicate WellFormed(msgs: seq<Msg>, id: string) {
    && 1 <= |msgs| <= 4
    && msgs[|msgs| - 1].Terminal()
    && (forall k :: 0 <= k < |msgs| ==> msgs[k].id == id)
    && (forall k :: 0 <= k < |msgs| - 1 ==> msgs[k].Progress? && msgs[k].value == [5, 20, 90][k])
  }

  /** `onmessage` for one job, with the given encoding call. Loading the
      model (backend set-up included) and decoding the file are
      parameters; any failure on the way becomes one error message. */
  function HandleJobWith(call: BlobCall, job: Job, load: string -> Result<GraphModel, string>, bitmap: Result<ImageData, string>): (msgs: seq<Msg>)
    requires bitmap.Success? ==> bitmap.value.Valid()
    ensures WellFormed(msgs, job.id)
    ensures 2 <= |msgs| <= 4
    ensures msgs[|msgs| - 1].Done? ==> |msgs| == 4 && call == ConvertToBlob
  {
    var id := job.id;
    match load(job.modelUrl)
      case Failure(e) => [Progress(id, 5), Error(id, e)]
      case Success(model) =>
        match bitmap
          case Failure(e) => [Progress(id, 5), Progress(id, 20), Error(id, e)]
          case Success(img) =>
            match model(ImageDataToNHWC(img))
              case Failure(e) => [Progress(id, 5), Progress(id, 20), Error(id, e)]
              case Success(out) =>
                match TensorToBlobWith(call, Tensor(Squeeze(out.dims), out.data))
                  case Failure(e) => [Progress(id, 5), Progress(id, 20), Progress(id, 90), Error(id, e)]
                  case Success(image) => [Progress(id, 5), Progress(id, 20), Progress(id, 90), Done(id, image)]
  }

  /** `onmessage` as written, encoding with `canvas.toBlob`. */
  function HandleJobAsWritten(job: Job, load: string -> Result<GraphModel, string>, bitmap: Result<ImageData, string>): (msgs: seq<Msg>)
    requires bitmap.Success? ==> bitmap.value.Valid()
    ensures WellFormed(msgs, job.id)
  {
    HandleJobWith(ToBlob, job, load, bitmap)
  }

  /** `onmessage` encoding with `canvas.convertToBlob`. */
  function HandleJob(job: Job, load: string -> Result<GraphModel, string>, bitmap: Result<ImageData, string>): (msgs: seq<Msg>)
    requires bitmap.Success? ==> bitmap.value.Valid()
    ensures WellFormed(msgs, job.id)
    ensures 2 <= |msgs| <= 4
    ensures msgs[|msgs| - 1].Done? ==> |msgs| == 4
  {
    HandleJobWith(ConvertToBlob, job, load, bitmap)
  }

  /** As written a job never posts `done`: every job ends in an error. */
  lemma HandleJobAsWrittenNeverDone(job: Job, load: string -> Result<GraphModel, string>, bitmap: Result<ImageData, string>)
    requires bitmap.Success? ==> bitmap.value.Valid()
    ensures var msgs := HandleJobAsWritten(job, load, bitmap);
      msgs[|msgs| - 1].Error?
  {
  }

  /** When the model loads and runs and its output is drawable, the code as
      written posts 5, 20, 90 and the `toBlob` error, where the corrected
      worker posts `done`. */
  lemma HandleJobAsWrittenFailsAfterDrawing(job: Job, load: string -> Result<GraphModel, string>, img: ImageData, model: GraphModel, out: ValidTensor)
    requires img.Valid() && load(job.modelUrl) == Success(model) && model(ImageDataToNHWC(img)) == Success(out)
    requires OutputImage(Tensor(Squeeze(out.dims), out.data)).Success?
    ensures HandleJobAsWritten(job, load, Success(img)) ==
      [Progress(job.id, 5), Progress(job.id, 20), Progress(job.id, 90), Error(job.id, TO_BLOB_MISSING)]
    ensures HandleJob(job, load, Success(img))[3].Done?
  {
  }

  /** Progress reports rise strictly, stay below 100, and nothing follows
      the terminal message. */
  lemma HandleJobProgressRises(job: Job, load: string -> Result<GraphModel, string>, bitmap: Result<ImageData, string>, k: nat, l: nat)
    requires bitmap.Success? ==> bitmap.value.Valid()
    requires k < l < |HandleJob(job, load, bitmap)|
    ensures var msgs := HandleJob(job, load, bitmap);
      msgs[k].Progress? && msgs[k].value < 100 && !msgs[k].Terminal()
      && (msgs[l].Progress? ==> msgs[k].value < msgs[l].value)
  {
  }

  /** When every step succeeds the job posts 5, 20, 90 and the converted
      output; the message sequence is fixed by the steps' results. */
  lemma HandleJobSucceeds(job: Job, load: string -> Result<GraphModel, string>, img: ImageData, model: GraphModel, out: ValidTensor)
    requires img.Valid() && load(job.modelUrl) == Success(model) && model(ImageDataToNHWC(img)) == Success(out)
    requires TensorToBlob(Tensor(Squeeze(out.dims), out.data)).Success?
    ensures HandleJob(job, load, Success(img)) ==
      [Progress(job.id, 5), Progress(job.id, 20), Progress(job.id, 90),
       Done(job.id, TensorToBlob(Tensor(Squeeze(out.dims), out.data)).value)]
  {
  }

  /** A failed model load posts the first report and the load's error,
      nothing else. */
  lemma HandleJobLoadFails(job: Job, load: string -> Result<GraphModel, string>, bitmap: Result<ImageData, string>)
    requires bitmap.Success? ==> bitmap.value.Valid()
    requires load(job.modelUrl).Failure?
    ensures HandleJob(job, load, bitmap) == [Progress(job.id, 5), Error(job.id, load(job.modelUrl).error)]
  {
  }
}
