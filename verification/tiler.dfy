/** `runTiled` of src/lib/tiler.ts: walk the tile plan of `makeTiles`, feed
    each tile to the model, and paste each result into an output canvas
    `scale` times the source size. Later tiles overwrite earlier ones. */
module Tiler {
  import opened Common
  import opened Images
  import opened Tensors
  import opened Onnx
  import opened Tiling

  /** `session.run` with one input and one output; it may reject. */
  type Backend = Tensor -> Result<ValidTensor, string>

  /** The `opts` argument; `expects` defaults to NHWC. */
  datatype Options = Options(tileSize: int, overlap: int, expects: Option<Layout>, scale: real)

  /** The tensor fed to the model for tile `t`: its pixels read from the
      source, packed NHWC, and permuted to NCHW when the model expects it. */
  function TileInput(src: Canvas, t: TileJob, expects: Layout): Tensor
    requires src.Valid() && t.sw >= 1 && t.sh >= 1
  {
    if expects == NCHW then NHWCtoNCHW(Packed(src, t)) else Packed(src, t)
  }

  /** The tile's window of the source, packed NHWC. */
  function Packed(src: Canvas, t: TileJob): (r: Tensor)
    requires src.Valid() && t.sw >= 1 && t.sh >= 1
    ensures r.Valid() && r.dims == [1, t.sh, t.sw, 3]
  {
    ImageDataToNHWC(GetImageData(src, t.sx, t.sy, t.sw, t.sh))
  }

  /** The model's answer for an input, decoded to pixels. */
  function TileOutput(backend: Backend, input: Tensor): (r: Result<ImageData, string>)
    ensures r.Success? ==> r.value.Valid()
  {
    var out :- backend(input);
    TensorToImageData(out)
  }

  /** Everything one run works from: the plan, the input of each tile and
      what the model makes of it, and the scale. The model is a pure
      function, so the answer for tile `k` is the same whether it is
      computed when the loop reaches it or beforehand. */
  datatype Job = Job(tiles: seq<TileJob>, inputs: seq<Tensor>, outputs: seq<Result<ImageData, string>>, scale: real) {
    predicate Valid() {
      && |inputs| == |tiles| && |outputs| == |tiles|
      && forall k :: 0 <= k < |outputs| && outputs[k].Success? ==> outputs[k].value.Valid()
    }

    /** The tensor fed to the model for tile `k`. */
    function Input(k: nat): Tensor
      requires Valid() && k < |tiles|
    {
      inputs[k]
    }

    /** The model's answer for tile `k`, decoded to pixels. */
    function Output(k: nat): (r: Result<ImageData, string>)
      requires Valid() && k < |tiles|
      ensures r.Success? ==> r.value.Valid()
    {
      outputs[k]
    }

    /** Where tile `k`'s output is pasted: `(floor(sx * scale), floor(sy * scale))`. */
    function Placement(k: nat): (p: Placed)
      requires Valid() && k < |tiles| && Output(k).Success?
      ensures p.img.Valid()
    {
      Placed(Output(k).value, Scaled(tiles[k].sx, scale), Scaled(tiles[k].sy, scale))
    }

    /** Every tile from `k` on is answered and decodes. */
    predicate SucceedsFrom(k: nat)
      requires Valid()
    {
      forall j :: k <= j < |tiles| ==> Output(j).Success?
    }

    /** The placements of tiles `k, k + 1, ...`, in plan order. */
    function PlacementsFrom(k: nat): (ps: seq<Placed>)
      requires Valid() && k <= |tiles| && SucceedsFrom(k)
      ensures |ps| == |tiles| - k && AllValid(ps)
      ensures forall j :: 0 <= j < |ps| ==> ps[j] == Placement(k + j)
    {
      var ps := seq(|tiles| - k, j requires 0 <= j < |tiles| - k => Placement(k + j));
      assert forall j :: 0 <= j < |ps| ==> ps[j].img.Valid() by {
        forall j | 0 <= j < |ps|
          ensures ps[j].img.Valid()
        {
          assert ps[j] == Placement(k + j);
        }
      }
      ps
    }
  }

  /** `Math.floor(v * scale)`. */
  function Scaled(v: int, scale: real): int {
    (v as real * scale).Floor
  }

  /** The canvas `runTiled` paints on: a fresh canvas whose `width` and
      `height` are set to `floor(width * scale)` and `floor(height * scale)`
      of the source. */
  function OutCanvas(src: Canvas, scale: real): (c: Canvas)
    requires src.Valid()
    ensures c.Valid()
    ensures c.width == CanvasSide(Scaled(src.width, scale), DEFAULT_CANVAS_WIDTH)
    ensures c.height == CanvasSide(Scaled(src.height, scale), DEFAULT_CANVAS_HEIGHT)
    ensures forall i, j :: 0 <= i < c.height && 0 <= j < c.width ==> c.At(i, j) == Transparent
  {
    Blank(CanvasSide(Scaled(src.width, scale), DEFAULT_CANVAS_WIDTH),
          CanvasSide(Scaled(src.height, scale), DEFAULT_CANVAS_HEIGHT))
  }

  /** The model calls made, in order, and the finished canvas or the error
      the run stopped with. */
  datatype Run = Run(calls: seq<Tensor>, canvas: Result<Canvas, string>)

  /** The loop body from tile `k` on, with the canvas painted so far and
      the model calls made so far. */
  function Walk(job: Job, k: nat, canvas: Canvas, calls: seq<Tensor>): (r: Run)
    requires job.Valid() && canvas.Valid() && k <= |job.tiles|
    ensures r.canvas.Success? ==>
      r.canvas.value.Valid() && r.canvas.value.width == canvas.width && r.canvas.value.height == canvas.height
    decreases |job.tiles| - k
  {
    if k == |job.tiles| then Run(calls, Success(canvas))
    else
      var calls' := calls + [job.Input(k)];
      match job.Output(k)
      case Failure(e) => Run(calls', Failure(e))
      case Success(_) => Walk(job, k + 1, Paint(job, k, canvas), calls')
  }

  /** The canvas after tile `k`'s output is pasted at its placement. */
  function Paint(job: Job, k: nat, canvas: Canvas): (r: Canvas)
    requires job.Valid() && canvas.Valid() && k < |job.tiles| && job.Output(k).Success?
    ensures r.Valid() && r.width == canvas.width && r.height == canvas.height
  {
    var p := job.Placement(k);
    PutImageData(canvas, p.img, p.dx, p.dy)
  }

  /** One turn of the loop. */
  lemma WalkStep(job: Job, k: nat, canvas: Canvas, calls: seq<Tensor>)
    requires job.Valid() && canvas.Valid() && k < |job.tiles|
    ensures job.Output(k).Success? ==>
      Walk(job, k, canvas, calls) == Walk(job, k + 1, Paint(job, k, canvas), calls + [job.Input(k)])
    ensures job.Output(k).Failure? ==>
      Walk(job, k, canvas, calls) == Run(calls + [job.Input(k)], Failure(job.Output(k).error))
  {
  }

  /** The job `runTiled` sets up: the plan of `makeTiles` with the same
      tile size and overlap, and NCHW only when asked for. */
  function PlanJob(src: Canvas, backend: Backend, opts: Options): (job: Job)
    requires src.Valid() && 1 <= opts.tileSize && opts.overlap < opts.tileSize
    ensures job.Valid() && job.scale == opts.scale
    ensures job.tiles == MakeTiles(src.width, src.height, opts.tileSize, opts.overlap)
    ensures forall k :: 0 <= k < |job.tiles| ==>
      && job.tiles[k].sw >= 1 && job.tiles[k].sh >= 1
      && job.Input(k) == TileInput(src, job.tiles[k], ExpectsOf(opts))
      && job.Output(k) == TileOutput(backend, job.Input(k))
  {
    var plan := MakeTiles(src.width, src.height, opts.tileSize, opts.overlap);
    TilesInBounds(src.width, src.height, opts.tileSize, opts.overlap);
    assert forall k :: 0 <= k < |plan| ==> plan[k] in plan;
    var inputs := seq(|plan|, k requires 0 <= k < |plan| => TileInput(src, plan[k], ExpectsOf(opts)));
    var outputs := seq(|plan|, k requires 0 <= k < |plan| => TileOutput(backend, inputs[k]));
    Job(plan, inputs, outputs, opts.scale)
  }

  /** The layout the model is fed: NCHW only when asked for. */
  function ExpectsOf(opts: Options): (l: Layout)
    ensures l == NCHW <==> opts.expects == Some(NCHW)
  {
    if opts.expects == Some(NCHW) then NCHW else NHWC
  }

  /** `runTiled(session, source, opts)`. */
  function RunTiled(src: Canvas, backend: Backend, opts: Options): (r: Run)
    requires src.Valid() && 1 <= opts.tileSize && opts.overlap < opts.tileSize
    ensures r.canvas.Success? ==>
      && r.canvas.value.Valid()
      && r.canvas.value.width == CanvasSide(Scaled(src.width, opts.scale), DEFAULT_CANVAS_WIDTH)
      && r.canvas.value.height == CanvasSide(Scaled(src.height, opts.scale), DEFAULT_CANVAS_HEIGHT)
    ensures r.canvas.Success? && 0 <= Scaled(src.width, opts.scale) <= MAX_CANVAS_SIDE ==>
      r.canvas.value.width == Scaled(src.width, opts.scale)
    ensures r.canvas.Success? && 0 <= Scaled(src.height, opts.scale) <= MAX_CANVAS_SIDE ==>
      r.canvas.value.height == Scaled(src.height, opts.scale)
  {
    var job := PlanJob(src, backend, opts);
    Walk(job, 0, OutCanvas(src, opts.scale), [])
  }

  // ----- what the walk does -----

  /** The walk calls the model once per tile, in plan order: the calls it
      adds are the inputs of tiles `k, k + 1, ...`. */
  lemma {:induction false} WalkCalls(job: Job, k: nat, canvas: Canvas, calls: seq<Tensor>)
    requires job.Valid() && canvas.Valid() && k <= |job.tiles|
    requires |calls| == k && forall j :: 0 <= j < k ==> calls[j] == job.Input(j)
    ensures var r := Walk(job, k, canvas, calls);
      && k <= |r.calls| <= |job.tiles|
      && forall j :: 0 <= j < |r.calls| ==> r.calls[j] == job.Input(j)
    decreases |job.tiles| - k
  {
    if k < |job.tiles| {
      WalkStep(job, k, canvas, calls);
      if job.Output(k).Success? {
        WalkCalls(job, k + 1, Paint(job, k, canvas), calls + [job.Input(k)]);
      }
    }
  }

  /** The walk finishes exactly when every remaining tile succeeds, and then
      it has called the model for every tile. */
  lemma {:induction false} WalkSucceeds(job: Job, k: nat, canvas: Canvas, calls: seq<Tensor>)
    requires job.Valid() && canvas.Valid() && k <= |job.tiles| && |calls| == k
    ensures var r := Walk(job, k, canvas, calls);
      && (r.canvas.Success? <==> job.SucceedsFrom(k))
      && (r.canvas.Success? ==> |r.calls| == |job.tiles|)
    decreases |job.tiles| - k
  {
    if k < |job.tiles| {
      WalkStep(job, k, canvas, calls);
      if job.Output(k).Success? {
        WalkSucceeds(job, k + 1, Paint(job, k, canvas), calls + [job.Input(k)]);
      }
    }
  }

  /** A failing walk stops right after the first failing tile and reports
      that tile's error. */
  lemma {:induction false} WalkStops(job: Job, k: nat, canvas: Canvas, calls: seq<Tensor>)
    requires job.Valid() && canvas.Valid() && k <= |job.tiles| && |calls| == k
    ensures var r := Walk(job, k, canvas, calls);
      r.canvas.Failure? ==>
        && k < |r.calls| <= |job.tiles|
        && job.Output(|r.calls| - 1).Failure?
        && r.canvas.error == job.Output(|r.calls| - 1).error
    decreases |job.tiles| - k
  {
    if k < |job.tiles| {
      WalkStep(job, k, canvas, calls);
      if job.Output(k).Success? {
        WalkStops(job, k + 1, Paint(job, k, canvas), calls + [job.Input(k)]);
      }
    }
  }

  /** ... and every tile before the failing one succeeded. */
  lemma {:induction false} WalkStopsFirst(job: Job, k: nat, canvas: Canvas, calls: seq<Tensor>)
    requires job.Valid() && canvas.Valid() && k <= |job.tiles| && |calls| == k
    ensures var r := Walk(job, k, canvas, calls);
      r.canvas.Failure? ==> forall j :: k <= j < |r.calls| - 1 && j < |job.tiles| ==> job.Output(j).Success?
    decreases |job.tiles| - k
  {
    if k < |job.tiles| {
      WalkStep(job, k, canvas, calls);
      if job.Output(k).Success? {
        WalkStopsFirst(job, k + 1, Paint(job, k, canvas), calls + [job.Input(k)]);
      }
    }
  }

  /** A walk that succeeds has painted the placements of its tiles in order. */
  lemma {:induction false} WalkPaints(job: Job, k: nat, canvas: Canvas, calls: seq<Tensor>)
    requires job.Valid() && canvas.Valid() && k <= |job.tiles| && job.SucceedsFrom(k)
    ensures Walk(job, k, canvas, calls).canvas == Success(PaintAll(canvas, job.PlacementsFrom(k)))
    decreases |job.tiles| - k
  {
    if k < |job.tiles| {
      PaintStep(job, k, canvas);
      WalkPaints(job, k + 1, Paint(job, k, canvas), calls + [job.Input(k)]);
    } else {
      assert job.PlacementsFrom(k) == [];
    }
  }

  /** Painting the placements from `k` on is painting tile `k`, then the rest. */
  lemma PaintStep(job: Job, k: nat, canvas: Canvas)
    requires job.Valid() && canvas.Valid() && k < |job.tiles| && job.SucceedsFrom(k)
    ensures job.SucceedsFrom(k + 1)
    ensures PaintAll(canvas, job.PlacementsFrom(k)) == PaintAll(Paint(job, k, canvas), job.PlacementsFrom(k + 1))
  {
    PlacementsStep(job, k);
  }

  /** The placements from `k` on are tile `k`'s followed by those from `k + 1`. */
  lemma PlacementsStep(job: Job, k: nat)
    requires job.Valid() && k < |job.tiles| && job.SucceedsFrom(k)
    ensures job.SucceedsFrom(k + 1)
    ensures job.PlacementsFrom(k)[0] == job.Placement(k)
    ensures job.PlacementsFrom(k)[1..] == job.PlacementsFrom(k + 1)
  {
    var ps := job.PlacementsFrom(k);
    assert ps[1..] == job.PlacementsFrom(k + 1);
  }

  // ----- properties of runTiled -----

  /** What a run of `job` looks like: the model is called once per tile,
      in plan order, with that tile's input; the run stops at the first
      failure and reports its error, and otherwise calls every tile. */
  predicate FollowsPlan(job: Job, r: Run)
    requires job.Valid()
  {
    && |r.calls| <= |job.tiles|
    && (forall k :: 0 <= k < |r.calls| ==> r.calls[k] == job.Input(k))
    && (r.canvas.Success? <==> job.SucceedsFrom(0))
    && (r.canvas.Success? ==> |r.calls| == |job.tiles|)
    && (r.canvas.Failure? ==>
          |r.calls| >= 1 && job.Output(|r.calls| - 1).Failure?
          && r.canvas.error == job.Output(|r.calls| - 1).error
          && forall k :: 0 <= k < |r.calls| - 1 ==> job.Output(k).Success?)
  }

  /** `runTiled` follows the plan of `makeTiles`. */
  lemma RunTiledCalls(src: Canvas, backend: Backend, opts: Options)
    requires src.Valid() && 1 <= opts.tileSize && opts.overlap < opts.tileSize
    ensures FollowsPlan(PlanJob(src, backend, opts), RunTiled(src, backend, opts))
  {
    var job := PlanJob(src, backend, opts);
    var blank := OutCanvas(src, opts.scale);
    assert RunTiled(src, backend, opts) == Walk(job, 0, blank, []);
    WalkFromStart(job, blank);
  }

  /** The whole walk, from the first tile and no calls made. */
  lemma WalkFromStart(job: Job, canvas: Canvas)
    requires job.Valid() && canvas.Valid()
    ensures FollowsPlan(job, Walk(job, 0, canvas, []))
  {
    WalkCalls(job, 0, canvas, []);
    WalkSucceeds(job, 0, canvas, []);
    WalkStops(job, 0, canvas, []);
    WalkStopsFirst(job, 0, canvas, []);
  }

  /** What tile `t` hands the model: its `sw x sh` pixels as `[1, sh, sw, 3]`,
      or as `[1, 3, sh, sw]` when the model expects NCHW. */
  lemma InputShape(src: Canvas, t: TileJob, expects: Layout)
    requires src.Valid() && t.sw >= 1 && t.sh >= 1
    ensures expects == NCHW ==> TileInput(src, t, expects).dims == [1, 3, t.sh, t.sw]
    ensures expects == NHWC ==> TileInput(src, t, expects).dims == [1, t.sh, t.sw, 3]
  {
  }

  /** Channel `c` of pixel `(i, j)`, packed NHWC, sits at `3 (i w + j) + c`. */
  lemma PackedAt(img: ImageData, i: nat, j: nat, c: nat)
    requires img.Valid() && i < img.height && j < img.width && c < 3
    ensures var nhwc, e := ImageDataToNHWC(img), (i * img.width + j) * 3 + c;
      e < |nhwc.data| && nhwc.data[e] == Normalize(Channel(img.At(i, j), c))
  {
    var p := i * img.width + j;
    IndexBound(i, j, img.height, img.width);
    MulLe(p + 1, img.PixelCount(), 3);
  }

  /** Channel `c` of pixel `(i, j)` of a `w x h` window at `(x, y)`, packed
      NHWC, is that source pixel's byte over 255, at `3 (i w + j) + c`. */
  lemma WindowPixels(src: Canvas, x: int, y: int, w: nat, h: nat, i: nat, j: nat, c: nat)
    requires src.Valid() && 1 <= w && 1 <= h && i < h && j < w && c < 3
    ensures var nhwc := ImageDataToNHWC(GetImageData(src, x, y, w, h));
      && i * w + j < h * w
      && (i * w + j) * 3 + c < |nhwc.data|
      && nhwc.data[(i * w + j) * 3 + c] == Normalize(Channel(ReadPixel(src, y + i, x + j), c))
  {
    var img := GetImageData(src, x, y, w, h);
    IndexBound(i, j, h, w);
    PackedAt(img, i, j, c);
  }

  /** The same value reaches the model: at `3 (i sw + j) + c` in NHWC, and at
      `c sh sw + i sw + j` in NCHW. */
  lemma InputPixels(src: Canvas, t: TileJob, expects: Layout, i: nat, j: nat, c: nat)
    requires src.Valid() && t.sw >= 1 && t.sh >= 1
    requires i < t.sh && j < t.sw && c < 3
    ensures expects == NHWC ==>
      var input, e := TileInput(src, t, expects), (i * t.sw + j) * 3 + c;
      e < |input.data| && input.data[e] == Normalize(Channel(ReadPixel(src, t.sy + i, t.sx + j), c))
    ensures expects == NCHW ==>
      var input, e := TileInput(src, t, expects), c * (t.sh * t.sw) + (i * t.sw + j);
      e < |input.data| && input.data[e] == Normalize(Channel(ReadPixel(src, t.sy + i, t.sx + j), c))
  {
    if expects == NCHW {
      PlanarInputPixel(src, t, i, j, c);
    } else {
      WindowPixels(src, t.sx, t.sy, t.sw, t.sh, i, j, c);
    }
  }

  lemma PlanarInputPixel(src: Canvas, t: TileJob, i: nat, j: nat, c: nat)
    requires src.Valid() && t.sw >= 1 && t.sh >= 1
    requires i < t.sh && j < t.sw && c < 3
    ensures var input, e := TileInput(src, t, NCHW), c * (t.sh * t.sw) + (i * t.sw + j);
      e < |input.data| && input.data[e] == Normalize(Channel(ReadPixel(src, t.sy + i, t.sx + j), c))
  {
    WindowPixels(src, t.sx, t.sy, t.sw, t.sh, i, j, c);
    PlanarPixel(Packed(src, t), t.sh, t.sw, c, i * t.sw + j, Normalize(Channel(ReadPixel(src, t.sy + i, t.sx + j), c)));
  }

  /** Permuting to NCHW moves value `c` of pixel `p` to `c P + p`. */
  lemma PlanarPixel(nhwc: Tensor, h: nat, w: nat, c: nat, p: nat, v: real)
    requires nhwc.Valid() && nhwc.dims == [1, h, w, 3] && c < 3 && p < h * w
    requires p * 3 + c < |nhwc.data| && nhwc.data[p * 3 + c] == v
    ensures c * (h * w) + p < |NHWCtoNCHW(nhwc).data|
    ensures NHWCtoNCHW(nhwc).data[c * (h * w) + p] == v
  {
    NHWCtoNCHWAt(nhwc, c, p);
  }

  /** Last write wins: every pixel of the result holds the pixel of the last
      tile, in plan order, whose output was pasted over it at
      `(floor(sx * scale), floor(sy * scale))`, and stays transparent black
      where no output landed. No blending takes place. */
  lemma RunTiledLastWins(src: Canvas, backend: Backend, opts: Options, i: nat, j: nat)
    requires src.Valid() && 1 <= opts.tileSize && opts.overlap < opts.tileSize
    requires RunTiled(src, backend, opts).canvas.Success?
    requires i < RunTiled(src, backend, opts).canvas.value.height && j < RunTiled(src, backend, opts).canvas.value.width
    ensures var job := PlanJob(src, backend, opts);
      && job.SucceedsFrom(0)
      && RunTiled(src, backend, opts).canvas.value.At(i, j) == Shown(job.PlacementsFrom(0), i, j, Transparent)
  {
    var job := PlanJob(src, backend, opts);
    var blank := OutCanvas(src, opts.scale);
    assert RunTiled(src, backend, opts) == Walk(job, 0, blank, []);
    WalkSucceeds(job, 0, blank, []);
    WalkPaints(job, 0, blank, []);
    PaintAllLastWins(blank, job.PlacementsFrom(0), i, j);
    assert blank.At(i, j) == Transparent;
  }

  /** A negative scale, which nothing in `runTiled` rules out, makes the
      sides `floor(width * scale)` negative. A canvas does not take them:
      the output keeps its default 300 x 150 whatever the source's size,
      and every tile is pasted at `(floor(sx * scale), floor(sy * scale))`,
      left of and above the origin once it is not in the first column or
      row. */
  lemma NegativeScale(src: Canvas, backend: Backend, opts: Options)
    requires src.Valid() && 1 <= opts.tileSize && opts.overlap < opts.tileSize
    requires opts.scale < 0.0 && 1 <= src.width && 1 <= src.height
    requires -0x8000_0000 as real <= src.width as real * opts.scale
    requires -0x8000_0000 as real <= src.height as real * opts.scale
    ensures var r := RunTiled(src, backend, opts);
      r.canvas.Success? ==>
        r.canvas.value.width == DEFAULT_CANVAS_WIDTH && r.canvas.value.height == DEFAULT_CANVAS_HEIGHT
    ensures var job := PlanJob(src, backend, opts);
      forall k :: 0 <= k < |job.tiles| && job.Output(k).Success? ==>
        && job.Placement(k).dx <= 0 && job.Placement(k).dy <= 0
        && (job.tiles[k].sx > 0 ==> job.Placement(k).dx < 0)
        && (job.tiles[k].sy > 0 ==> job.Placement(k).dy < 0)
  {
    NegativeScaleCanvas(src, opts.scale);
    var job := PlanJob(src, backend, opts);
    TilesInBounds(src.width, src.height, opts.tileSize, opts.overlap);
    assert forall k :: 0 <= k < |job.tiles| ==> job.tiles[k] in job.tiles;
    NegativeScalePlacements(job);
  }

  /** With a negative scale the output canvas is 300 x 150. */
  lemma NegativeScaleCanvas(src: Canvas, scale: real)
    requires src.Valid() && scale < 0.0 && 1 <= src.width && 1 <= src.height
    requires -0x8000_0000 as real <= src.width as real * scale
    requires -0x8000_0000 as real <= src.height as real * scale
    ensures OutCanvas(src, scale).width == DEFAULT_CANVAS_WIDTH
    ensures OutCanvas(src, scale).height == DEFAULT_CANVAS_HEIGHT
  {
    ScaledNegative(src.width, scale);
    ScaledNegative(src.height, scale);
  }

  /** With a negative scale, tiles at non-negative offsets are pasted at
      offsets of at most 0, and below 0 once the offset is positive. */
  lemma NegativeScalePlacements(job: Job)
    requires job.Valid() && job.scale < 0.0
    requires forall k :: 0 <= k < |job.tiles| ==> 0 <= job.tiles[k].sx && 0 <= job.tiles[k].sy
    ensures forall k :: 0 <= k < |job.tiles| && job.Output(k).Success? ==>
      && job.Placement(k).dx <= 0 && job.Placement(k).dy <= 0
      && (job.tiles[k].sx > 0 ==> job.Placement(k).dx < 0)
      && (job.tiles[k].sy > 0 ==> job.Placement(k).dy < 0)
  {
    forall k | 0 <= k < |job.tiles| && job.Output(k).Success?
      ensures job.Placement(k).dx <= 0 && job.Placement(k).dy <= 0
      ensures job.tiles[k].sx > 0 ==> job.Placement(k).dx < 0
      ensures job.tiles[k].sy > 0 ==> job.Placement(k).dy < 0
    {
      ScaledNonPositive(job.tiles[k].sx, job.scale);
      ScaledNonPositive(job.tiles[k].sy, job.scale);
    }
  }

  /** A positive side times a negative scale floors to a negative side,
      no lower than the product's own bound. */
  lemma ScaledNegative(v: int, scale: real)
    requires 1 <= v && scale < 0.0 && -0x8000_0000 as real <= v as real * scale
    ensures -0x8000_0000 <= Scaled(v, scale) < 0
  {
    assert v as real * scale < 0.0;
  }

  /** A non-negative offset times a negative scale floors to at most 0,
      and below 0 once the offset is positive. */
  lemma ScaledNonPositive(v: int, scale: real)
    requires 0 <= v && scale < 0.0
    ensures Scaled(v, scale) <= 0
    ensures 0 < v ==> Scaled(v, scale) < 0
  {
    if 0 < v {
      assert v as real * scale < 0.0;
    } else {
      assert v as real * scale == 0.0;
    }
  }
}
