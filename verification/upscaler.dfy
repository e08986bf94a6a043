/** `upscaleImage` of src/utils/upscaler.ts: a fixed 64-pixel grid, each
    tile zero-padded to 64 x 64, one probe call that fixes the scale, an
    alpha fix-up of every result, and progress after every tile. */
module Upscaler {
  import opened Common
  import opened Images
  import opened Tiling
  import opened Caches

  const PATCH: nat := 64

  /** A float32 image tensor `[height, width, 3]`: three values per pixel,
      row-major, possibly empty. */
  datatype FloatImage = FloatImage(width: nat, height: nat, values: seq<real>)

  /** What `model.execute` followed by `squeeze` hands back. */
  type RawOutput = f: FloatImage | |f.values| == 3 * (f.height * f.width) witness FloatImage(0, 0, [])

  /** `model.execute` on a 64 x 64 patch (after `fromPixels`, `normalize`
      and `expandDims`), then `squeeze`; it may throw. */
  type PatchModel = ImageData -> Result<RawOutput, string>

  /** The options record: the tile size, overlap and scale fields are
      accepted and never read. */
  datatype UpscaleOptions = UpscaleOptions(modelKey: string, tileSize: int, overlap: int, scale: real)

  // ----- loadModel -----

  /** `/models/${modelKey}/model.json` */
  function ModelJsonUrl(modelKey: string): string {
    "/models/" + modelKey + "/model.json"
  }

  /** `loadModel`: the cache is keyed by the model key; a miss loads
      `ModelJsonUrl(key)`. */
  function LoadModel<M>(cache: map<string, M>, modelKey: string, loadGraphModel: string -> Result<M, string>): (r: Result<Loaded<string, M>, string>)
    ensures modelKey in cache ==> r.Success? && r.value.value == cache[modelKey] && !r.value.created
    ensures modelKey !in cache ==> (r.Success? <==> loadGraphModel(ModelJsonUrl(modelKey)).Success?)
    ensures modelKey !in cache && r.Success? ==> r.value.value == loadGraphModel(ModelJsonUrl(modelKey)).value
  {
    Load(cache, modelKey, (k: string) => loadGraphModel(ModelJsonUrl(k)))
  }

  // ----- the probe -----

  /** `patchScale`: the probe output's height over 64; a zero height (the
      only way to get a result that is not a positive number) falls back
      to 4. The width of the output is not consulted. */
  function PatchScale(outH: nat): (s: real)
    ensures s > 0.0
    ensures outH > 0 ==> s * 64.0 == outH as real
    ensures outH == 0 ==> s == 4.0
  {
    var s := outH as real / PATCH as real;
    if s <= 0.0 then 4.0 else s
  }

  /** The side of the square each tile's output is meant to fill:
      `64 * patchScale`, always a positive integer. */
  function Side(outH: nat): (p: nat)
    ensures p >= 1 && p as real == PatchScale(outH) * 64.0
  {
    if outH == 0 then 256 else outH
  }

  // ----- the 64-pixel grid -----

  /** The inner loop over `tx` for one `ty`; tile `(tx, ty)` starts at
      `(64 tx, 64 ty)` and is clipped at the image edges. */
  function GridRow(width: nat, height: nat, tilesX: nat, tx: nat, ty: nat): seq<TileJob>
    decreases tilesX - tx
  {
    if tx < tilesX then
      [TileJob(tx * PATCH, ty * PATCH, Min(PATCH, width - tx * PATCH), Min(PATCH, height - ty * PATCH))]
        + GridRow(width, height, tilesX, tx + 1, ty)
    else []
  }

  /** The outer loop over `ty`. */
  function GridRows(width: nat, height: nat, tilesX: nat, tilesY: nat, ty: nat): seq<TileJob>
    decreases tilesY - ty
  {
    if ty < tilesY then GridRow(width, height, tilesX, 0, ty) + GridRows(width, height, tilesX, tilesY, ty + 1)
    else []
  }

  /** The grid positions visited: `ceil(W / 64) x ceil(H / 64)` of them. */
  function Grid(width: nat, height: nat): seq<TileJob> {
    GridRows(width, height, CeilDiv(width, PATCH), CeilDiv(height, PATCH), 0)
  }

  lemma {:induction false} GridRowIsRow(width: nat, height: nat, tx: nat, ty: nat)
    ensures GridRow(width, height, CeilDiv(width, PATCH), tx, ty)
      == Row(width, height, PATCH, PATCH, tx * PATCH, ty * PATCH)
    decreases CeilDiv(width, PATCH) - tx
  {
    var tilesX := CeilDiv(width, PATCH);
    assert tx < tilesX <==> tx * PATCH < width;
    if tx < tilesX {
      GridRowIsRow(width, height, tx + 1, ty);
      assert (tx + 1) * PATCH == tx * PATCH + PATCH;
    }
  }

  lemma {:induction false} GridRowsIsRows(width: nat, height: nat, ty: nat)
    ensures GridRows(width, height, CeilDiv(width, PATCH), CeilDiv(height, PATCH), ty)
      == Rows(width, height, PATCH, PATCH, ty * PATCH)
    decreases CeilDiv(height, PATCH) - ty
  {
    var tilesY := CeilDiv(height, PATCH);
    assert ty < tilesY <==> ty * PATCH < height;
    if ty < tilesY {
      GridRowIsRow(width, height, 0, ty);
      GridRowsIsRows(width, height, ty + 1);
      assert (ty + 1) * PATCH == ty * PATCH + PATCH;
    }
  }

  /** The 64-pixel grid is the tile plan of `makeTiles` with tile 64 and no
      overlap: the same tiles in the same order. */
  lemma GridIsPlan(width: nat, height: nat)
    ensures Grid(width, height) == MakeTiles(width, height, PATCH, 0)
  {
    GridRowsIsRows(width, height, 0);
  }

  /** Hence `ceil(W/64) * ceil(H/64)` tiles, all inside the image and
      non-empty: the `sw <= 0 || sh <= 0` skip never fires. They cover the
      image, and do not overlap: distinct tiles start at distinct multiples
      of 64 and are at most 64 wide and high. */
  lemma GridFacts(width: nat, height: nat)
    ensures |Grid(width, height)| == CeilDiv(width, PATCH) * CeilDiv(height, PATCH)
    ensures forall t :: t in Grid(width, height) ==>
      InBounds(t, width, height) && t.sw <= PATCH && t.sh <= PATCH && t.sx % PATCH == 0 && t.sy % PATCH == 0
    ensures forall px, py :: CoveredBy(Grid(width, height), px, py) <==> 0 <= px < width && 0 <= py < height
  {
    GridIsPlan(width, height);
    TileCount(width, height, PATCH, 0);
    TilesInBounds(width, height, PATCH, 0);
    forall t | t in Grid(width, height)
      ensures t.sx % PATCH == 0 && t.sy % PATCH == 0
    {
      GridAligned(width, height, CeilDiv(width, PATCH), CeilDiv(height, PATCH), 0, t);
    }
    forall px, py
      ensures CoveredBy(Grid(width, height), px, py) <==> 0 <= px < width && 0 <= py < height
    {
      TilesCoverExactly(width, height, PATCH, 0, px, py);
    }
  }

  lemma {:induction false} GridAligned(width: nat, height: nat, tilesX: nat, tilesY: nat, ty: nat, t: TileJob)
    requires t in GridRows(width, height, tilesX, tilesY, ty)
    ensures t.sx % PATCH == 0 && t.sy % PATCH == 0
    decreases tilesY - ty
  {
    if t in GridRow(width, height, tilesX, 0, ty) {
      GridRowAligned(width, height, tilesX, 0, ty, t);
    } else {
      GridAligned(width, height, tilesX, tilesY, ty + 1, t);
    }
  }

  lemma {:induction false} GridRowAligned(width: nat, height: nat, tilesX: nat, tx: nat, ty: nat, t: TileJob)
    requires t in GridRow(width, height, tilesX, tx, ty)
    ensures t.sx % PATCH == 0 && t.sy % PATCH == 0
    decreases tilesX - tx
  {
    if t != GridRow(width, height, tilesX, tx, ty)[0] {
      GridRowAligned(width, height, tilesX, tx + 1, ty, t);
    }
  }

  // ----- one tile -----

  /** The tile's pixels drawn at the top left of a cleared 64 x 64 canvas. */
  function PatchCanvas(src: Canvas, t: TileJob): (c: Canvas)
    requires src.Valid() && t.sw >= 1 && t.sh >= 1
    ensures c.Valid() && c.width == PATCH && c.height == PATCH
  {
    PutImageData(Blank(PATCH, PATCH), GetImageData(src, t.sx, t.sy, t.sw, t.sh), 0, 0)
  }

  /** The tile's pixels on a cleared 64 x 64 canvas, read back whole. */
  function PadToPatch(src: Canvas, t: TileJob): (patch: ImageData)
    requires src.Valid() && t.sw >= 1 && t.sh >= 1
    ensures patch.Valid() && patch.width == PATCH && patch.height == PATCH
  {
    GetImageData(PatchCanvas(src, t), 0, 0, PATCH, PATCH)
  }

  /** The padded patch is the tile's pixels at the top left and transparent
      black to the right and below. */
  lemma PadToPatchPixels(src: Canvas, t: TileJob, i: nat, j: nat)
    requires src.Valid() && t.sw >= 1 && t.sh >= 1 && t.sw <= PATCH && t.sh <= PATCH
    requires i < PATCH && j < PATCH
    ensures PadToPatch(src, t).At(i, j) ==
      if i < t.sh && j < t.sw then ReadPixel(src, t.sy + i, t.sx + j) else Transparent
  {
    var c := PatchCanvas(src, t);
    var v := if i < t.sh && j < t.sw then ReadPixel(src, t.sy + i, t.sx + j) else Transparent;
    assert c.At(i, j) == v by {
      var srcData := GetImageData(src, t.sx, t.sy, t.sw, t.sh);
      if i < t.sh && j < t.sw {
        assert Under(srcData, 0, 0, i, j);
        assert c.At(i, j) == srcData.At(i, j);
      } else {
        assert !Under(srcData, 0, 0, i, j);
      }
    }
    assert PadToPatch(src, t).At(i, j) == ReadPixel(c, i, j);
  }

  /** Set every alpha byte (index 3 mod 4) that is 0 to 255. */
  function AlphaFix(data: seq<Byte>): (out: seq<Byte>)
    ensures |out| == |data|
  {
    seq(|data|, j requires 0 <= j < |data| => if j % 4 == 3 && data[j] == 0 then 255 else data[j])
  }

  /** The fix-up changes nothing but zero alpha bytes, after it no alpha
      byte is zero, and a second pass changes nothing. */
  lemma AlphaFixFacts(data: seq<Byte>)
    ensures forall j :: 0 <= j < |data| && (j % 4 != 3 || data[j] != 0) ==> AlphaFix(data)[j] == data[j]
    ensures forall j :: 0 <= j < |data| && j % 4 == 3 ==> AlphaFix(data)[j] != 0
    ensures AlphaFix(AlphaFix(data)) == AlphaFix(data)
  {
  }

  /** The loop of the source: `for (i = 3; i < length; i += 4)`. */
  method FixAlpha(data: seq<Byte>) returns (out: seq<Byte>)
    ensures out == AlphaFix(data)
  {
    out := data;
    var i := 3;
    while i < |out|
      invariant |out| == |data| && i % 4 == 3 && 3 <= i
      invariant forall j :: 0 <= j < |data| ==> out[j] == if j < i - 3 then AlphaFix(data)[j] else data[j]
      decreases |out| - i
    {
      if out[i] == 0 {
        out := out[i := 255];
      }
      i := i + 4;
    }
    assert forall j :: 0 <= j < |data| ==> out[j] == AlphaFix(data)[j] by {
      forall j | 0 <= j < |data|
        ensures out[j] == AlphaFix(data)[j]
      {
        if i - 3 <= j {
          assert j % 4 != 3 || j == i - 4 + 4;
        }
      }
    }
  }

  // ----- denormalize and toPixels -----

  /** `denormalize`: `clipByValue(v * 255, 0, 255)`. */
  function Denormalize(v: real): (d: real)
    ensures 0.0 <= d <= 255.0
    ensures 0.0 <= v <= 1.0 ==> d == v * 255.0
  {
    ClampReal(v * 255.0, 0.0, 255.0)
  }

  /** The tensor with `f` applied to every value (`tf.mul`, `tf.div` and
      `clipByValue` are element-wise). */
  function MapValues(img: RawOutput, f: real -> real): (r: RawOutput)
    ensures r.width == img.width && r.height == img.height
    ensures forall k :: 0 <= k < |img.values| ==> r.values[k] == f(img.values[k])
  {
    FloatImage(img.width, img.height, seq(|img.values|, k requires 0 <= k < |img.values| => f(img.values[k])))
  }

  const TO_PIXELS_RANGE := "Tensor values for a float32 Tensor must be in the range [0 - 1]"

  /** Every value of a float32 tensor lies in [0, 1]. */
  predicate UnitRange(img: RawOutput) {
    forall k :: 0 <= k < |img.values| ==> 0.0 <= img.values[k] <= 1.0
  }

  /** Byte `j` of `toPixels` on a three-channel float32 tensor: channel
      `j % 4` of pixel `j / 4` times 255, rounded; alpha is 255. */
  function PixelByte(img: RawOutput, j: nat): Byte
    requires j < 4 * (img.height * img.width) && UnitRange(img)
  {
    if j % 4 == 3 then 255
    else
      var k := 3 * (j / 4) + j % 4;
      assert k < |img.values| by {
        assert j / 4 < img.height * img.width;
        MulLe(j / 4 + 1, img.height * img.width, 3);
      }
      Round(img.values[k] * 255.0)
  }

  /** `tf.browser.toPixels` on a float32 `[h, w, 3]` tensor: it rejects any
      value outside [0, 1]; otherwise the RGBA bytes. */
  function ToPixels(img: RawOutput): (r: Result<seq<Byte>, string>)
    ensures r.Success? <==> UnitRange(img)
    ensures r.Success? ==> |r.value| == 4 * (img.height * img.width)
    ensures r.Failure? ==> r.error == TO_PIXELS_RANGE
  {
    if !UnitRange(img) then Failure(TO_PIXELS_RANGE)
    else
      var n := 4 * (img.height * img.width);
      Success(seq(n, j requires 0 <= j < n => PixelByte(img, j)))
  }

  /** The image data a tile result is copied into, with its alpha fixed:
      `new ImageData(outW, outH)` refuses a zero side before `toPixels`
      runs. */
  function Unpack(out: RawOutput, pixels: RawOutput): (r: Result<ImageData, string>)
    requires pixels.width == out.width && pixels.height == out.height
    ensures r.Success? <==> out.width >= 1 && out.height >= 1 && UnitRange(pixels)
    ensures r.Success? ==> r.value.Valid() && r.value.width == out.width && r.value.height == out.height
  {
    if out.width == 0 || out.height == 0 then Failure("IndexSizeError")
    else
      var bytes :- ToPixels(pixels);
      Success(ImageData(out.width, out.height, AlphaFix(bytes)))
  }

  /** One tile through the model as written: pad, run, `denormalize` to
      0..255, and hand the float32 result to `toPixels`, which accepts
      only 0..1. */
  function TileResultAsWritten(model: PatchModel, src: Canvas, t: TileJob): (r: Result<ImageData, string>)
    requires src.Valid() && t.sw >= 1 && t.sh >= 1
    ensures r.Success? ==> r.value.Valid()
  {
    var out :- model(PadToPatch(src, t));
    Unpack(out, MapValues(out, Denormalize))
  }

  /** One tile through the model, with the denormalised values divided by
      255 before `toPixels` (the range it accepts): pad, run, refuse an
      empty result (as `new ImageData(0, h)` does), fix alpha. */
  function TileResult(model: PatchModel, src: Canvas, t: TileJob): (r: Result<ImageData, string>)
    requires src.Valid() && t.sw >= 1 && t.sh >= 1
    ensures r.Success? <==>
      model(PadToPatch(src, t)).Success? && model(PadToPatch(src, t)).value.width >= 1
      && model(PadToPatch(src, t)).value.height >= 1
    ensures r.Success? ==> r.value.Valid()
  {
    var out :- model(PadToPatch(src, t));
    Unpack(out, MapValues(out, (v: real) => Denormalize(v) / 255.0))
  }

  /** The corrected tile result: each colour byte is the model's value
      scaled to 0..255 with `Math.round`, clamped to [0, 255], and every
      pixel is opaque. */
  lemma TileResultBytes(model: PatchModel, src: Canvas, t: TileJob, j: nat)
    requires src.Valid() && t.sw >= 1 && t.sh >= 1
    requires TileResult(model, src, t).Success? && j < |TileResult(model, src, t).value.data|
    ensures var out, bytes := model(PadToPatch(src, t)).value, TileResult(model, src, t).value.data;
      && (j % 4 == 3 ==> bytes[j] == 255)
      && (j % 4 != 3 ==> 3 * (j / 4) + j % 4 < |out.values|
                         && bytes[j] == Round(ClampReal(out.values[3 * (j / 4) + j % 4] * 255.0, 0.0, 255.0)))
  {
    var out := model(PadToPatch(src, t)).value;
    var pixels := MapValues(out, (v: real) => Denormalize(v) / 255.0);
    var bytes := ToPixels(pixels).value;
    assert TileResult(model, src, t).value.data == AlphaFix(bytes);
    assert bytes[j] == PixelByte(pixels, j);
  }

  /** As written, a tile whose model output has any value above 1/255 (any
      colour brighter than near-black) throws in `toPixels`, where the
      corrected tile succeeds. */
  lemma TileResultAsWrittenRejectsBright(model: PatchModel, src: Canvas, t: TileJob, k: nat)
    requires src.Valid() && t.sw >= 1 && t.sh >= 1
    requires model(PadToPatch(src, t)).Success?
    requires var out := model(PadToPatch(src, t)).value;
      out.width >= 1 && out.height >= 1 && k < |out.values| && out.values[k] > 1.0 / 255.0
    ensures TileResultAsWritten(model, src, t) == Failure(TO_PIXELS_RANGE)
    ensures TileResult(model, src, t).Success?
  {
    var out := model(PadToPatch(src, t)).value;
    var denorm := MapValues(out, Denormalize);
    assert denorm.values[k] > 1.0;
  }

  /** `Math.round(n * patchScale)` for a size: never negative. */
  function ScaledDim(n: nat, scale: real): (d: nat)
    requires scale > 0.0
    ensures d == Round(n as real * scale)
  {
    var x := n as real * scale;
    assert x >= 0.0;
    Round(x)
  }

  /** `Math.round(v * patchScale)`. */
  function Place(v: int, scale: real): int {
    Round(v as real * scale)
  }

  // ----- the tile loop -----

  /** The fixed inputs of the tile loop: the grid, what each grid tile
      turns into, the patch scale and the tile count used for progress.
      The model is a pure function, so the result of tile `k` is the same
      whether it is computed when the loop reaches it or beforehand. */
  datatype Pass = Pass(jobs: seq<TileJob>, results: seq<Result<ImageData, string>>, scale: real, total: nat) {
    predicate Valid() {
      && total >= 1
      && |results| == |jobs|
      && forall k :: 0 <= k < |results| && results[k].Success? ==> results[k].value.Valid()
    }

    /** No grid position is empty (true of the 64-pixel grid). */
    predicate NonEmpty() {
      forall k :: 0 <= k < |jobs| ==> jobs[k].sw >= 1 && jobs[k].sh >= 1
    }

    /** What tile `k` turns into. */
    function Outcome(k: nat): (r: Result<ImageData, string>)
      requires Valid() && k < |jobs|
      ensures r.Success? ==> r.value.Valid()
    {
      results[k]
    }

    predicate SucceedsFrom(k: nat)
      requires Valid() && NonEmpty()
    {
      forall j :: k <= j < |jobs| ==> Outcome(j).Success?
    }

    /** The tile results from `k` on, each at its rounded, scaled position. */
    function PlacementsFrom(k: nat): (ps: seq<Placed>)
      requires Valid() && NonEmpty() && k <= |jobs| && SucceedsFrom(k)
      ensures |ps| == |jobs| - k && AllValid(ps)
      decreases |jobs| - k
    {
      if k == |jobs| then []
      else
        var rest := PlacementsFrom(k + 1);
        var ps := [Placed(Outcome(k).value, Place(jobs[k].sx, scale), Place(jobs[k].sy, scale))] + rest;
        assert forall j :: 1 <= j < |ps| ==> ps[j] == rest[j - 1];
        ps
    }
  }

  /** The painted canvas, the tiles counted so far, and the progress values
      reported so far. */
  datatype Progress = Progress(canvas: Canvas, done: nat, reports: seq<real>)

  /** What a call of `upscaleImage` produced: the progress reports it made,
      and the final canvas or the error it stopped with. */
  datatype UpscaleRun = UpscaleRun(reports: seq<real>, image: Result<Canvas, string>)

  /** `onProgress` after the first `n` of `total` tiles. */
  function ProgressSeq(n: nat, total: nat): (ps: seq<real>)
    requires total >= 1
    ensures |ps| == n
  {
    seq(n, i requires 0 <= i < n => (i + 1) as real / total as real * 100.0)
  }

  lemma QuotientRises(x: real, y: real, t: real)
    requires 0.0 <= x < y && t > 0.0
    ensures x / t * 100.0 < y / t * 100.0
  {
    assert x / t < y / t;
  }

  lemma QuotientAtMostOne(x: real, t: real)
    requires 0.0 < x <= t
    ensures 0.0 < x / t * 100.0 <= 100.0
  {
    assert x / t <= 1.0;
  }

  /** The reports rise strictly ... */
  lemma ProgressRises(n: nat, total: nat)
    requires total >= 1
    ensures forall i, j :: 0 <= i < j < n ==> ProgressSeq(n, total)[i] < ProgressSeq(n, total)[j]
  {
    var ps := ProgressSeq(n, total);
    forall i, j | 0 <= i < j < n
      ensures ps[i] < ps[j]
    {
      QuotientRises((i + 1) as real, (j + 1) as real, total as real);
    }
  }

  /** ... stay in (0, 100], and the last one of a full run is 100. */
  lemma ProgressBounded(n: nat, total: nat)
    requires total >= 1 && n <= total
    ensures forall i :: 0 <= i < n ==> 0.0 < ProgressSeq(n, total)[i] <= 100.0
    ensures n == total && n >= 1 ==> ProgressSeq(n, total)[n - 1] == 100.0
  {
    var ps := ProgressSeq(n, total);
    forall i | 0 <= i < n
      ensures 0.0 < ps[i] <= 100.0
    {
      QuotientAtMostOne((i + 1) as real, total as real);
    }
    if n == total && n >= 1 {
      assert ps[n - 1] == n as real / total as real * 100.0;
      assert n as real / total as real == 1.0;
    }
  }

  /** The state after tile `k` produced `img`: the image drawn at the
      tile's scaled position, one more tile counted and its progress
      reported. */
  function Advance(pass: Pass, k: nat, st: Progress, img: ImageData): (st': Progress)
    requires pass.Valid() && st.canvas.Valid() && img.Valid() && k < |pass.jobs|
    ensures st'.canvas.Valid() && st'.done == st.done + 1 && |st'.reports| == |st.reports| + 1
  {
    var t := pass.jobs[k];
    var done := st.done + 1;
    Progress(PutImageData(st.canvas, img, Place(t.sx, pass.scale), Place(t.sy, pass.scale)),
             done, st.reports + [done as real / pass.total as real * 100.0])
  }

  /** The loop from grid position `k` on. */
  function Walk(pass: Pass, k: nat, st: Progress): (r: UpscaleRun)
    requires pass.Valid() && st.canvas.Valid() && k <= |pass.jobs|
    ensures r.image.Success? ==>
      r.image.value.Valid() && r.image.value.width == st.canvas.width && r.image.value.height == st.canvas.height
    decreases |pass.jobs| - k
  {
    if k == |pass.jobs| then UpscaleRun(st.reports, Success(st.canvas))
    else
      var t := pass.jobs[k];
      if t.sw <= 0 || t.sh <= 0 then
        Walk(pass, k + 1, st.(done := st.done + 1))
      else
        match pass.Outcome(k)
        case Failure(e) => UpscaleRun(st.reports, Failure(e))
        case Success(img) => Walk(pass, k + 1, Advance(pass, k, st, img))
  }

  /** One turn of the loop on a non-empty tile. */
  lemma WalkStep(pass: Pass, k: nat, st: Progress)
    requires pass.Valid() && pass.NonEmpty() && st.canvas.Valid() && k < |pass.jobs|
    ensures pass.Outcome(k).Success? ==>
      Walk(pass, k, st) == Walk(pass, k + 1, Advance(pass, k, st, pass.Outcome(k).value))
    ensures pass.Outcome(k).Failure? ==>
      Walk(pass, k, st) == UpscaleRun(st.reports, Failure(pass.Outcome(k).error))
  {
  }

  /** The probe: the top-left tile, clipped to the image. */
  function ProbeTile(src: Canvas): TileJob {
    TileJob(0, 0, Min(PATCH, src.width), Min(PATCH, src.height))
  }

  /** The tile loop `upscaleImage` runs once the probe has returned an
      output of height `outH`. */
  function MakePass(src: Canvas, model: PatchModel, outH: nat): (pass: Pass)
    requires src.Valid() && src.width >= 1 && src.height >= 1
    ensures pass.Valid() && pass.NonEmpty()
    ensures pass.jobs == MakeTiles(src.width, src.height, PATCH, 0) && pass.total == |pass.jobs|
    ensures forall k :: 0 <= k < |pass.jobs| ==> pass.Outcome(k) == TileResult(model, src, pass.jobs[k])
  {
    var jobs := Grid(src.width, src.height);
    GridIsPlan(src.width, src.height);
    GridFacts(src.width, src.height);
    assert forall k :: 0 <= k < |jobs| ==> jobs[k] in jobs;
    var total := CeilDiv(src.width, PATCH) * CeilDiv(src.height, PATCH);
    assert total >= 1 by {
      CeilDivPos(src.width, PATCH);
      CeilDivPos(src.height, PATCH);
      MulLe(1, CeilDiv(src.width, PATCH), CeilDiv(src.height, PATCH));
    }
    var results := seq(|jobs|, k requires 0 <= k < |jobs| => TileResult(model, src, jobs[k]));
    Pass(jobs, results, PatchScale(outH), total)
  }

  /** The output canvas: `round(W * patchScale) x round(H * patchScale)`,
      transparent black. */
  function StartCanvas(src: Canvas, outH: nat): (c: Canvas)
    ensures c.Valid()
  {
    Blank(ScaledDim(src.width, PatchScale(outH)), ScaledDim(src.height, PatchScale(outH)))
  }

  /** What `drawImage` throws for a source canvas with a zero side
      (section 4.12.5.1.14 of the HTML Living Standard). */
  const EMPTY_SOURCE_ERROR := "InvalidStateError"

  /** The final copy of the output canvas onto a canvas of the same size,
      `round(W * patchScale) x round(H * patchScale)`. It copies the whole
      canvas, unless a side is 0: then `drawImage` throws, after every
      tile has been drawn and reported. */
  function FinalCopy(run: UpscaleRun): (r: UpscaleRun)
    ensures r.reports == run.reports
    ensures r.image.Success? <==>
      run.image.Success? && run.image.value.width >= 1 && run.image.value.height >= 1
    ensures r.image.Success? ==> r.image == run.image
    ensures run.image.Success? && r.image.Failure? ==> r.image.error == EMPTY_SOURCE_ERROR
    ensures run.image.Failure? ==> r == run
  {
    match run.image
    case Success(c) =>
      if c.width == 0 || c.height == 0 then UpscaleRun(run.reports, Failure(EMPTY_SOURCE_ERROR)) else run
    case Failure(_) => run
  }

  /** `upscaleImage` on an already decoded image. The options are not
      consulted beyond the model key, which selects `model`. */
  function UpscaleImage(src: Canvas, model: PatchModel, opts: UpscaleOptions): (r: UpscaleRun)
    requires src.Valid()
    ensures src.width == 0 || src.height == 0 ==> r.image.Failure?
    ensures r.image.Success? ==>
      && model(PadToPatch(src, ProbeTile(src))).Success?
      && var scale := PatchScale(model(PadToPatch(src, ProbeTile(src))).value.height);
      && r.image.value.Valid()
      && r.image.value.width == ScaledDim(src.width, scale)
      && r.image.value.height == ScaledDim(src.height, scale)
    ensures r.image.Success? ==> r.image.value.width >= 1 && r.image.value.height >= 1
  {
    if src.width == 0 || src.height == 0 then UpscaleRun([], Failure("IndexSizeError"))
    else
      match model(PadToPatch(src, ProbeTile(src)))
      case Failure(e) => UpscaleRun([], Failure(e))
      case Success(probe) =>
        FinalCopy(Walk(MakePass(src, model, probe.height), 0, Progress(StartCanvas(src, probe.height), 0, [])))
  }

  // ----- what the loop does -----

  /** From position `k` with `k` tiles done, the reports so far being the
      progress of `k` tiles, the run adds one report per tile that
      succeeds. */
  lemma {:induction false} WalkReports(pass: Pass, k: nat, st: Progress)
    requires pass.Valid() && pass.NonEmpty() && st.canvas.Valid() && k <= |pass.jobs|
    requires st.done == k && st.reports == ProgressSeq(k, pass.total)
    ensures var r := Walk(pass, k, st);
      && k <= |r.reports| <= |pass.jobs|
      && r.reports == ProgressSeq(|r.reports|, pass.total)
      && (r.image.Success? ==> |r.reports| == |pass.jobs|)
    decreases |pass.jobs| - k
  {
    var r := Walk(pass, k, st);
    if k == |pass.jobs| {
      assert r.reports == st.reports;
    } else {
      WalkStep(pass, k, st);
      if pass.Outcome(k).Success? {
        var st' := Advance(pass, k, st, pass.Outcome(k).value);
        AdvanceReports(pass, k, st, pass.Outcome(k).value);
        WalkReports(pass, k + 1, st');
        assert r == Walk(pass, k + 1, st');
      } else {
        assert r.reports == st.reports && r.image.Failure?;
      }
    }
  }

  /** A finished tile appends the progress of one more tile. */
  lemma AdvanceReports(pass: Pass, k: nat, st: Progress, img: ImageData)
    requires pass.Valid() && st.canvas.Valid() && img.Valid() && k < |pass.jobs|
    requires st.done == k && st.reports == ProgressSeq(k, pass.total)
    ensures Advance(pass, k, st, img).reports == ProgressSeq(k + 1, pass.total)
  {
  }

  /** The run finishes exactly when every remaining tile succeeds. */
  lemma {:induction false} WalkSucceeds(pass: Pass, k: nat, st: Progress)
    requires pass.Valid() && pass.NonEmpty() && st.canvas.Valid() && k <= |pass.jobs|
    ensures Walk(pass, k, st).image.Success? <==> pass.SucceedsFrom(k)
    decreases |pass.jobs| - k
  {
    if k < |pass.jobs| {
      WalkStep(pass, k, st);
      if pass.Outcome(k).Success? {
        WalkSucceeds(pass, k + 1, Advance(pass, k, st, pass.Outcome(k).value));
        assert pass.SucceedsFrom(k) <==> pass.SucceedsFrom(k + 1);
      } else {
        assert !pass.SucceedsFrom(k);
      }
    }
  }

  /** A failing run stops at the first failing tile: the tile after the
      last report fails with the error the run returns ... */
  lemma {:induction false} WalkStops(pass: Pass, k: nat, st: Progress)
    requires pass.Valid() && pass.NonEmpty() && st.canvas.Valid() && k <= |pass.jobs| && |st.reports| == k
    ensures var r := Walk(pass, k, st);
      r.image.Failure? ==>
        && k <= |r.reports| < |pass.jobs|
        && pass.Outcome(|r.reports|) == Failure(r.image.error)
    decreases |pass.jobs| - k
  {
    if k < |pass.jobs| {
      WalkStep(pass, k, st);
      if pass.Outcome(k).Success? {
        WalkStops(pass, k + 1, Advance(pass, k, st, pass.Outcome(k).value));
      }
    }
  }

  /** ... and every tile before it succeeded. */
  lemma {:induction false} WalkStopsFirst(pass: Pass, k: nat, st: Progress, j: nat)
    requires pass.Valid() && pass.NonEmpty() && st.canvas.Valid() && k <= |pass.jobs| && |st.reports| == k
    requires k <= j < |Walk(pass, k, st).reports| && Walk(pass, k, st).image.Failure?
    ensures j < |pass.jobs| && pass.Outcome(j).Success?
    decreases |pass.jobs| - k
  {
    WalkStep(pass, k, st);
    if j > k {
      WalkStopsFirst(pass, k + 1, Advance(pass, k, st, pass.Outcome(k).value), j);
    }
  }

  /** A run that finishes has painted the tile results in grid order. */
  lemma {:induction false} WalkPaints(pass: Pass, k: nat, st: Progress)
    requires pass.Valid() && pass.NonEmpty() && st.canvas.Valid() && k <= |pass.jobs| && pass.SucceedsFrom(k)
    ensures Walk(pass, k, st).image == Success(PaintAll(st.canvas, pass.PlacementsFrom(k)))
    decreases |pass.jobs| - k
  {
    if k < |pass.jobs| {
      WalkStep(pass, k, st);
      WalkPaints(pass, k + 1, Advance(pass, k, st, pass.Outcome(k).value));
      assert pass.PlacementsFrom(k)[1..] == pass.PlacementsFrom(k + 1);
    }
  }

  // ----- properties of upscaleImage -----

  /** Each grid tile lands exactly on its square of the output: tile
      `(tx, ty)` is drawn at `(tx * side, ty * side)`, where `side` is
      `64 * patchScale`, so the squares of neighbouring tiles abut without
      gaps or overlap. */
  lemma PlaceOnGrid(tx: nat, outH: nat)
    ensures Place(tx * PATCH, PatchScale(outH)) == tx * Side(outH)
  {
    var scale := PatchScale(outH);
    assert (tx * PATCH) as real * scale == (tx * Side(outH)) as real by {
      assert (tx * PATCH) as real == tx as real * 64.0;
      assert Side(outH) as real == scale * 64.0;
    }
  }

  /** The probe result that fixes the scale, when there is one. */
  predicate Probed(src: Canvas, model: PatchModel)
    requires src.Valid()
  {
    src.width >= 1 && src.height >= 1 && model(PadToPatch(src, ProbeTile(src))).Success?
  }

  function ProbeHeight(src: Canvas, model: PatchModel): nat
    requires src.Valid() && Probed(src, model)
  {
    model(PadToPatch(src, ProbeTile(src))).value.height
  }

  /** The tile loop of a call whose probe succeeded. */
  function PassOf(src: Canvas, model: PatchModel): (pass: Pass)
    requires src.Valid() && Probed(src, model)
    ensures pass.Valid() && pass.NonEmpty() && pass.jobs == MakeTiles(src.width, src.height, PATCH, 0)
    ensures pass.total == |pass.jobs| == CeilDiv(src.width, PATCH) * CeilDiv(src.height, PATCH)
    ensures forall k :: 0 <= k < |pass.jobs| ==> pass.Outcome(k) == TileResult(model, src, pass.jobs[k])
  {
    TileCount(src.width, src.height, PATCH, 0);
    MakePass(src, model, ProbeHeight(src, model))
  }

  /** The output canvas of a call whose probe succeeded has no zero side:
      `round(W * patchScale)` and `round(H * patchScale)` are both at
      least 1. */
  predicate OutputNonEmpty(src: Canvas, model: PatchModel)
    requires src.Valid() && Probed(src, model)
  {
    var scale := PatchScale(ProbeHeight(src, model));
    ScaledDim(src.width, scale) >= 1 && ScaledDim(src.height, scale) >= 1
  }

  lemma UpscaleIsWalk(src: Canvas, model: PatchModel, opts: UpscaleOptions)
    requires src.Valid() && Probed(src, model)
    ensures UpscaleImage(src, model, opts)
      == FinalCopy(Walk(PassOf(src, model), 0, Progress(StartCanvas(src, ProbeHeight(src, model)), 0, [])))
  {
  }

  /** Progress: a call reports `100 * k / total` after its k-th tile, one
      report per finished tile and nothing else, where `total` is the
      number of grid tiles; a call that finishes has reported every tile,
      the last report being 100. Without a probe result nothing is
      reported. */
  lemma UpscaleProgress(src: Canvas, model: PatchModel, opts: UpscaleOptions)
    requires src.Valid()
    ensures var r := UpscaleImage(src, model, opts);
      var total := CeilDiv(src.width, PATCH) * CeilDiv(src.height, PATCH);
      && total >= 1 ==> (
        && |r.reports| <= total
        && r.reports == ProgressSeq(|r.reports|, total)
        && (r.image.Success? ==> |r.reports| == total && r.reports[total - 1] == 100.0))
    ensures !Probed(src, model) ==> UpscaleImage(src, model, opts).reports == []
  {
    if Probed(src, model) {
      var pass := PassOf(src, model);
      var st := Progress(StartCanvas(src, ProbeHeight(src, model)), 0, []);
      UpscaleIsWalk(src, model, opts);
      WalkReports(pass, 0, st);
      ProgressBounded(|pass.jobs|, pass.total);
    }
  }

  /** A call finishes exactly when the probe and every grid tile succeed
      and the output canvas has no zero side. */
  lemma UpscaleSucceeds(src: Canvas, model: PatchModel, opts: UpscaleOptions)
    requires src.Valid()
    ensures UpscaleImage(src, model, opts).image.Success? <==>
      Probed(src, model) && PassOf(src, model).SucceedsFrom(0) && OutputNonEmpty(src, model)
  {
    if Probed(src, model) {
      var start := StartCanvas(src, ProbeHeight(src, model));
      UpscaleIsWalk(src, model, opts);
      WalkSucceeds(PassOf(src, model), 0, Progress(start, 0, []));
    }
  }

  /** A call whose tiles all succeed but whose output canvas has a zero
      side fails in the final copy, having reported every tile. */
  lemma UpscaleFailsOnEmptyOutput(src: Canvas, model: PatchModel, opts: UpscaleOptions)
    requires src.Valid() && Probed(src, model) && PassOf(src, model).SucceedsFrom(0)
    requires !OutputNonEmpty(src, model)
    ensures var r := UpscaleImage(src, model, opts);
      && r.image == Failure(EMPTY_SOURCE_ERROR)
      && |r.reports| == |PassOf(src, model).jobs|
  {
    var pass := PassOf(src, model);
    var st := Progress(StartCanvas(src, ProbeHeight(src, model)), 0, []);
    UpscaleIsWalk(src, model, opts);
    WalkSucceeds(pass, 0, st);
    WalkReports(pass, 0, st);
  }

  /** A 16 x 16 model output of mid-grey values. */
  const QUARTER_OUTPUT: RawOutput := FloatImage(16, 16, seq(768, i => 0.5))

  /** A model that shrinks every 64 x 64 patch to a quarter. */
  const QUARTER_MODEL: PatchModel := (p: ImageData) => Success(QUARTER_OUTPUT)

  /** A 1 x 1 image with `QUARTER_MODEL`: the one tile succeeds and
      progress reaches 100, but the output is `round(1 * 0.25) = 0` pixels
      wide, so the final copy throws. */
  lemma TinyImageFailsAfterEveryTile(opts: UpscaleOptions)
    ensures var r := UpscaleImage(Blank(1, 1), QUARTER_MODEL, opts);
      r.image == Failure(EMPTY_SOURCE_ERROR) && r.reports == [100.0]
  {
    var src := Blank(1, 1);
    TinyProbe();
    TinyPass();
    UpscaleFailsOnEmptyOutput(src, QUARTER_MODEL, opts);
    UpscaleProgress(src, QUARTER_MODEL, opts);
    assert UpscaleImage(src, QUARTER_MODEL, opts).reports == ProgressSeq(1, 1);
  }

  lemma TinyProbe()
    ensures Probed(Blank(1, 1), QUARTER_MODEL) && !OutputNonEmpty(Blank(1, 1), QUARTER_MODEL)
  {
    var src := Blank(1, 1);
    assert ProbeHeight(src, QUARTER_MODEL) == 16;
    assert PatchScale(16) == 0.25;
    assert src.width as real * 0.25 == 0.25;
  }

  lemma TinyPass()
    requires Probed(Blank(1, 1), QUARTER_MODEL)
    ensures |PassOf(Blank(1, 1), QUARTER_MODEL).jobs| == 1
    ensures PassOf(Blank(1, 1), QUARTER_MODEL).SucceedsFrom(0)
  {
    var pass := PassOf(Blank(1, 1), QUARTER_MODEL);
    TileCount(1, 1, PATCH, 0);
    assert pass.jobs[0] in pass.jobs;
    assert pass.Outcome(0).Success?;
  }

  /** A call that fails after the probe stops at the first failing tile in
      grid order, and returns its error. */
  lemma UpscaleStopsAtFirstFailure(src: Canvas, model: PatchModel, opts: UpscaleOptions, j: nat)
    requires src.Valid() && Probed(src, model)
    ensures var r, pass := UpscaleImage(src, model, opts), PassOf(src, model);
      r.image.Failure? && !pass.SucceedsFrom(0) ==>
        && |r.reports| < |pass.jobs|
        && pass.Outcome(|r.reports|) == Failure(r.image.error)
        && (j < |r.reports| ==> pass.Outcome(j).Success?)
  {
    var pass := PassOf(src, model);
    var st := Progress(StartCanvas(src, ProbeHeight(src, model)), 0, []);
    UpscaleIsWalk(src, model, opts);
    WalkSucceeds(pass, 0, st);
    WalkStops(pass, 0, st);
    if Walk(pass, 0, st).image.Failure? && j < |Walk(pass, 0, st).reports| {
      WalkStopsFirst(pass, 0, st, j);
    }
  }

  /** The picture: each output pixel shows the last tile result drawn
      over it (in grid order, at its rounded scaled position), and is
      transparent black where no tile result reaches. */
  lemma UpscaleLastWins(src: Canvas, model: PatchModel, opts: UpscaleOptions, i: nat, j: nat)
    requires src.Valid()
    requires UpscaleImage(src, model, opts).image.Success?
    requires i < UpscaleImage(src, model, opts).image.value.height
    requires j < UpscaleImage(src, model, opts).image.value.width
    ensures Probed(src, model) && PassOf(src, model).SucceedsFrom(0)
    ensures UpscaleImage(src, model, opts).image.value.At(i, j)
      == Shown(PassOf(src, model).PlacementsFrom(0), i, j, Transparent)
  {
    UpscaleSucceeds(src, model, opts);
    var pass := PassOf(src, model);
    var start := StartCanvas(src, ProbeHeight(src, model));
    UpscaleIsWalk(src, model, opts);
    WalkPaints(pass, 0, Progress(start, 0, []));
    assert UpscaleImage(src, model, opts).image == Walk(pass, 0, Progress(start, 0, [])).image;
    PaintAllLastWins(start, pass.PlacementsFrom(0), i, j);
  }
}
