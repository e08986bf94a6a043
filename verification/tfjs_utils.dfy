/** The tensor helpers of src/utils/tfjs-utils.ts on the spatial axes of an
    NHWC image: constant, reflection and replication padding, the alpha
    border of an `ImageData`, the seam-blending mask and blend, and the
    eight-way test-time augmentation split and merge. */
module TfjsUtils {
  import opened Common
  import opened Grids
  import opened Images

  // ----- pad -----

  /** `pad`: `tf.pad` on H and W with a constant. */
  function Pad<T>(g: Grid<T>, top: nat, bottom: nat, left: nat, right: nat, fill: T): (r: Grid<T>)
    requires g.Valid()
    ensures r.Valid() && r.height == g.height + top + bottom && r.width == g.width + left + right
  {
    PadConst(g, top, bottom, left, right, fill)
  }

  // ----- reflectionPad -----

  /** `reflectionPad`: mirror-pad both sides of each axis by the larger of
      its two paddings, then slice away the surplus. */
  function ReflectionPad<T>(g: Grid<T>, top: nat, bottom: nat, left: nat, right: nat): (r: Result<Grid<T>, string>)
    requires g.Valid()
    ensures r.Success? <==> top < g.height && bottom < g.height && left < g.width && right < g.width
    ensures r.Success? ==>
      r.value.Valid() && r.value.height == g.height + top + bottom && r.value.width == g.width + left + right
  {
    var maxTopBottom, maxLeftRight := Max(top, bottom), Max(left, right);
    var padded :- MirrorPad(g, maxTopBottom, maxTopBottom, maxLeftRight, maxLeftRight);
    var h, w := padded.height, padded.width;
    var startY, startX := maxTopBottom - top, maxLeftRight - left;
    var endY, endX := h - (maxTopBottom - bottom), w - (maxLeftRight - right);
    Success(Slice(padded, startY, startX, endY - startY, endX - startX))
  }

  // ----- replicationPad -----

  /** Index `k` of an axis of length `n`, clamped to the axis: the edge
      element repeats outwards. */
  function Nearest(k: int, n: nat): (r: nat)
    requires n >= 1
    ensures r < n
    ensures 0 <= k < n ==> r == k
  {
    if k < 0 then 0 else if k >= n then n - 1 else k
  }

  /** Edge replication as a definition: output cell `(i, j)` is the input
      cell nearest to `(i - top, j - left)`. */
  function Replicate<T>(g: Grid<T>, top: nat, bottom: nat, left: nat, right: nat): (r: Grid<T>)
    requires g.Valid() && g.height >= 1 && g.width >= 1
    ensures r.Valid() && r.height == g.height + top + bottom && r.width == g.width + left + right
  {
    Build(g.height + top + bottom, g.width + left + right,
      (i: nat, j: nat) requires i < g.height + top + bottom && j < g.width + left + right =>
        g.At(Nearest(i - top, g.height), Nearest(j - left, g.width)))
  }

  /** Row `r` repeated `n` times down: the `tf.tile` of the one-row slice
      at `r` (`RowBandIsTile`). */
  function RowBand<T>(g: Grid<T>, r: nat, n: nat): (b: Grid<T>)
    requires g.Valid() && r < g.height
    ensures b.Valid() && b.height == n && b.width == g.width
    ensures forall i, j {:trigger b.At(i, j)} :: 0 <= i < n && 0 <= j < g.width ==> b.At(i, j) == g.At(r, j)
  {
    Build(n, g.width, (i: nat, j: nat) requires j < g.width => g.At(r, j))
  }

  /** Column `c` repeated `n` times across: the `tf.tile` of the
      one-column slice at `c` (`ColBandIsTile`). */
  function ColBand<T>(g: Grid<T>, c: nat, n: nat): (b: Grid<T>)
    requires g.Valid() && c < g.width
    ensures b.Valid() && b.height == g.height && b.width == n
    ensures forall i, j {:trigger b.At(i, j)} :: 0 <= i < g.height && 0 <= j < n ==> b.At(i, j) == g.At(i, c)
  {
    Build(g.height, n, (i: nat, j: nat) requires i < g.height => g.At(i, c))
  }

  /** The top rows: row 0 of `g` repeated `top` times above it. */
  function AddTop<T>(g: Grid<T>, top: nat): (r: Grid<T>)
    requires g.Valid() && g.height >= 1 && g.width >= 1
    ensures r.Valid() && r.height == g.height + top && r.width == g.width
  {
    if top > 0 then ConcatRows(RowBand(g, 0, top), g) else g
  }

  /** The bottom rows: the last row of the input `g` repeated `bottom`
      times below `out`. */
  function AddBottom<T>(out: Grid<T>, g: Grid<T>, bottom: nat): (r: Grid<T>)
    requires out.Valid() && g.Valid() && g.height >= 1 && g.width >= 1 && out.width == g.width
    ensures r.Valid() && r.height == out.height + bottom && r.width == out.width
  {
    if bottom > 0 then ConcatRows(out, RowBand(g, g.height - 1, bottom)) else out
  }

  /** The left columns: column 0 of `out` repeated `left` times. */
  function AddLeft<T>(out: Grid<T>, left: nat): (r: Grid<T>)
    requires out.Valid() && out.height >= 1 && out.width >= 1
    ensures r.Valid() && r.height == out.height && r.width == out.width + left
  {
    if left > 0 then ConcatCols(ColBand(out, 0, left), out) else out
  }

  /** The right columns: column `col` of `out` repeated `right` times. */
  function AddRight<T>(out: Grid<T>, col: nat, right: nat): (r: Grid<T>)
    requires out.Valid() && out.height >= 1 && col < out.width
    ensures r.Valid() && r.height == out.height && r.width == out.width + right
  {
    if right > 0 then ConcatCols(out, ColBand(out, col, right)) else out
  }

  /** Top and bottom: rows `0` and `h - 1` of the input repeated. */
  function PadRows<T>(g: Grid<T>, top: nat, bottom: nat): (r: Grid<T>)
    requires g.Valid() && g.height >= 1 && g.width >= 1
    ensures r.Valid() && r.height == g.height + top + bottom && r.width == g.width
  {
    AddBottom(AddTop(g, top), g, bottom)
  }

  /** `replicationPad` as written: the right-hand columns copy column
      `w2 - 1` of the grid that already carries the left-hand columns, so
      with a left padding they copy a column `left` places inside the
      right edge. */
  function ReplicationPadAsWritten<T>(g: Grid<T>, top: nat, bottom: nat, left: nat, right: nat): (r: Grid<T>)
    requires g.Valid() && g.height >= 1 && g.width >= 1
    ensures r.Valid() && r.height == g.height + top + bottom && r.width == g.width + left + right
  {
    var rows := PadRows(g, top, bottom);
    var w2 := rows.width;
    AddRight(AddLeft(rows, left), w2 - 1, right)
  }

  /** `replicationPad` with the right-hand columns taken from the last
      column of the grid they are appended to. */
  function ReplicationPad<T>(g: Grid<T>, top: nat, bottom: nat, left: nat, right: nat): (r: Grid<T>)
    requires g.Valid() && g.height >= 1 && g.width >= 1
    ensures r.Valid() && r.height == g.height + top + bottom && r.width == g.width + left + right
  {
    AddRight(AddLeft(PadRows(g, top, bottom), left), g.width + left - 1, right)
  }

  // ----- alphaBorderPadding -----

  /** Pixel `(i, j)` of the bordered image. */
  function BorderPixel(img: ImageData, padding: nat, i: nat, j: nat): Pixel
    requires img.Valid()
  {
    if padding <= i < padding + img.height && padding <= j < padding + img.width then img.At(i - padding, j - padding)
    else Transparent
  }

  /** The pixels of the bordered image in row-major order, rows of `newW`. */
  function BorderPixels(img: ImageData, padding: nat, newW: nat, newH: nat): (ps: seq<Pixel>)
    requires img.Valid() && newW >= 1
    ensures |ps| == newH * newW
  {
    seq(newH * newW, q requires 0 <= q < newH * newW => BorderPixel(img, padding, q / newW, q % newW))
  }

  /** `alphaBorderPadding`: the image inside a transparent border of
      `padding` pixels. */
  function AlphaBorderPadding(img: ImageData, padding: nat): (r: ImageData)
    requires img.Valid()
    ensures r.Valid() && r.width == img.width + 2 * padding && r.height == img.height + 2 * padding
  {
    var newW, newH := img.width + 2 * padding, img.height + 2 * padding;
    FromPixels(newW, newH, BorderPixels(img, padding, newW, newH))
  }

  /** A transparent canvas of the bordered size with the source drawn at
      `(p, p)`. */
  function BorderCanvas(img: ImageData, padding: nat): (c: Canvas)
    requires img.Valid()
    ensures c.Valid() && c.width == img.width + 2 * padding && c.height == img.height + 2 * padding
  {
    PutImageData(Blank(img.width + 2 * padding, img.height + 2 * padding), img, padding, padding)
  }

  /** That canvas read back whole. */
  function DrawnBordered(img: ImageData, padding: nat): (r: ImageData)
    requires img.Valid()
    ensures r.Valid() && r.width == img.width + 2 * padding && r.height == img.height + 2 * padding
  {
    GetImageData(BorderCanvas(img, padding), 0, 0, img.width + 2 * padding, img.height + 2 * padding)
  }

  // ----- seam blending -----

  /** Distance of cell `(y, x)` to the nearest edge of an `h x w` grid. */
  function EdgeDistance(y: nat, x: nat, h: nat, w: nat): int {
    Min(Min(y, h - 1 - y), Min(x, w - 1 - x))
  }

  /** What `tf.linspace` throws when asked for no values. */
  const LINSPACE_EMPTY := "The number of values should be positive."

  /** `createSeamBlendMask`: the edge distance over `overlap`, clipped to
      [0, 1]. `tf.linspace(0, n - 1, n)` refuses `n = 0`, so an empty side
      throws. A zero overlap divides by zero (NaN on the outer ring) and is
      not modelled. */
  function SeamBlendMask(height: nat, width: nat, overlap: real): (r: Result<Grid<real>, string>)
    requires overlap != 0.0
    ensures r.Success? <==> height >= 1 && width >= 1
    ensures r.Failure? ==> r.error == LINSPACE_EMPTY
    ensures r.Success? ==> r.value.Valid() && r.value.height == height && r.value.width == width
    ensures r.Success? ==> forall y, x :: 0 <= y < height && 0 <= x < width ==> 0.0 <= r.value.At(y, x) <= 1.0
  {
    if height == 0 || width == 0 then Failure(LINSPACE_EMPTY)
    else
      Success(Build(height, width,
        (y: nat, x: nat) => ClampReal(EdgeDistance(y, x, height, width) as real / overlap, 0.0, 1.0)))
  }

  /** `blendPatchWithMask`: `dst * (1 - mask) + src * mask`, cell by cell. */
  function BlendPatchWithMask(dst: Grid<real>, src: Grid<real>, mask: Grid<real>): (r: Grid<real>)
    requires dst.Valid() && src.Valid() && mask.Valid()
    requires src.height == dst.height && src.width == dst.width && mask.height == dst.height && mask.width == dst.width
    ensures r.Valid() && r.height == dst.height && r.width == dst.width
  {
    Build(dst.height, dst.width, (i: nat, j: nat) requires i < dst.height && j < dst.width =>
      dst.At(i, j) * (1.0 - mask.At(i, j)) + src.At(i, j) * mask.At(i, j))
  }

  // ----- test-time augmentation -----

  /** The members of `tf.image` the split and merge call. */
  datatype ImageOp = FlipLeftRight | FlipUpDown

  /** The members of `tf.image` a TensorFlow.js build exports, among those
      the helpers call. */
  type Namespace = set<ImageOp>

  /** TensorFlow.js exports `tf.image.flipLeftRight`, and no
      `tf.image.flipUpDown`. */
  const TF_IMAGE: Namespace := {FlipLeftRight}

  /** The namespace the helpers need: an up-down flip is `tf.reverse(x, 1)`
      on the height axis. */
  const WITH_FLIP_UP_DOWN: Namespace := {FlipLeftRight, FlipUpDown}

  const FLIP_UP_DOWN_MISSING := "tf.image.flipUpDown is not a function"

  /** Calling `tf.image.<op>`: a member that is not exported is
      `undefined`, and calling it throws a `TypeError`. */
  function CallImageOp<T>(ns: Namespace, op: ImageOp, g: Grid<T>): (r: Result<Grid<T>, string>)
    requires g.Valid()
    ensures r.Success? <==> op in ns
    ensures r.Success? ==> r.value == (if op == FlipLeftRight then FlipLR(g) else FlipUD(g))
  {
    if op !in ns then
      Failure(if op == FlipLeftRight then "tf.image.flipLeftRight is not a function" else FLIP_UP_DOWN_MISSING)
    else if op == FlipLeftRight then Success(FlipLR(g))
    else Success(FlipUD(g))
  }

  /** `ttaSplit` call by call, against the namespace `ns`. */
  function TtaSplitIn<T>(ns: Namespace, g: Grid<T>): (r: Result<seq<Grid<T>>, string>)
    requires g.Valid()
  {
    var lr :- CallImageOp(ns, FlipLeftRight, g);
    var ud :- CallImageOp(ns, FlipUpDown, g);
    // the second `flipLeftRight(input)` recomputes `lr`
    var lrud :- CallImageOp(ns, FlipUpDown, lr);
    var t := Transpose(g);
    var tlr :- CallImageOp(ns, FlipLeftRight, t);
    var tud :- CallImageOp(ns, FlipUpDown, t);
    var tlrud :- CallImageOp(ns, FlipUpDown, tlr);
    Success([g, lr, ud, lrud, t, tlr, tud, tlrud])
  }

  /** The calls `ttaMerge` makes to undo augmentation `k` of `p`, against
      the namespace `ns`. */
  function UndoIn(ns: Namespace, k: nat, p: Grid<real>): (r: Result<Grid<real>, string>)
    requires k < 8 && p.Valid()
    ensures r.Success? ==> r.value.Valid()
    decreases k
  {
    if k == 0 then Success(p)
    else if k == 1 then CallImageOp(ns, FlipLeftRight, p)
    else if k == 2 then CallImageOp(ns, FlipUpDown, p)
    else if k == 3 then
      var l :- CallImageOp(ns, FlipLeftRight, p);
      CallImageOp(ns, FlipUpDown, l)
    else
      var u :- UndoIn(ns, k - 4, p);
      Success(Transpose(u))
  }

  /** The undo calls for predictions `k` to 7, in the order `ttaMerge`
      makes them; the first that throws ends the merge. */
  function UndoAllIn(ns: Namespace, preds: seq<Grid<real>>, k: nat): (r: Result<seq<Grid<real>>, string>)
    requires |preds| == 8 && ValidGrids(preds) && k <= 8
    ensures r.Success? ==> |r.value| == 8 - k && ValidGrids(r.value)
    decreases 8 - k
  {
    if k == 8 then Success([])
    else
      var u :- UndoIn(ns, k, preds[k]);
      var rest :- UndoAllIn(ns, preds, k + 1);
      Success([u] + rest)
  }

  /** `ttaMerge` call by call, against the namespace `ns`. */
  function TtaMergeIn(ns: Namespace, preds: seq<Grid<real>>): (r: Result<Grid<real>, string>)
    requires ValidGrids(preds)
  {
    if |preds| != 8 then Failure("ttaMerge expects 8 tensors")
    else
      var all :- UndoAllIn(ns, preds, 0);
      if !SameShape(all) then Failure("shapes do not match") else Success(Mean(all))
  }

  /** As written, against the TensorFlow.js namespace, both helpers throw
      on every input that gets past the length check: the first
      `tf.image.flipUpDown` call is reached unconditionally. */
  lemma TtaAsWrittenThrows<T>(g: Grid<T>, preds: seq<Grid<real>>)
    requires g.Valid() && ValidGrids(preds)
    ensures TtaSplitIn(TF_IMAGE, g) == Failure(FLIP_UP_DOWN_MISSING)
    ensures TtaMergeIn(TF_IMAGE, preds).Failure?
    ensures |preds| == 8 ==> TtaMergeIn(TF_IMAGE, preds) == Failure(FLIP_UP_DOWN_MISSING)
  {
    if |preds| == 8 {
      assert UndoIn(TF_IMAGE, 2, preds[2]) == Failure(FLIP_UP_DOWN_MISSING);
      assert UndoAllIn(TF_IMAGE, preds, 2) == Failure(FLIP_UP_DOWN_MISSING);
      assert UndoAllIn(TF_IMAGE, preds, 1) == Failure(FLIP_UP_DOWN_MISSING);
    }
  }

  /** The four flips of a grid: identity, left-right, up-down, both. The
      up-down flip is `tf.reverse(x, 1)` on the height axis, in place of the
      missing `tf.image.flipUpDown`. */
  function Flips<T>(g: Grid<T>): (fs: seq<Grid<T>>)
    requires g.Valid()
    ensures |fs| == 4 && fs[0] == g
    ensures forall k :: 0 <= k < 4 ==> fs[k].Valid() && fs[k].height == g.height && fs[k].width == g.width
  {
    [g, FlipLR(g), FlipUD(g), FlipUD(FlipLR(g))]
  }

  /** `ttaSplit`: the four flips of the input, then the four flips of its
      transpose; the identity comes first. */
  function TtaSplit<T>(g: Grid<T>): (vs: seq<Grid<T>>)
    requires g.Valid()
    ensures |vs| == 8 && vs[0] == g
    ensures forall k :: 0 <= k < 8 ==> vs[k].Valid()
  {
    Flips(g) + Flips(Transpose(g))
  }

  /** The step of `ttaMerge` that undoes augmentation `k`. */
  function Undo<T>(k: nat, p: Grid<T>): (r: Grid<T>)
    requires k < 8 && p.Valid()
    ensures r.Valid()
  {
    if k < 4 then Flips(p)[k] else Transpose(Flips(p)[k - 4])
  }

  predicate ValidGrids(ps: seq<Grid<real>>) {
    forall k :: 0 <= k < |ps| ==> ps[k].Valid()
  }

  /** The eight predictions with their augmentations undone. */
  function Undone(preds: seq<Grid<real>>): (rs: seq<Grid<real>>)
    requires |preds| == 8 && ValidGrids(preds)
    ensures |rs| == 8 && ValidGrids(rs)
  {
    seq(8, k requires 0 <= k < 8 => Undo(k, preds[k]))
  }

  /** All grids have the shape of the first. */
  predicate SameShape(rs: seq<Grid<real>>)
    requires |rs| >= 1
  {
    forall k :: 0 <= k < |rs| ==> rs[k].height == rs[0].height && rs[k].width == rs[0].width
  }

  /** Every grid has a cell `(i, j)`. */
  predicate Covers(rs: seq<Grid<real>>, i: nat, j: nat) {
    forall k :: 0 <= k < |rs| ==> rs[k].Valid() && i < rs[k].height && j < rs[k].width
  }

  /** `tf.addN` at cell `(i, j)`: the sum of the cells of all grids. */
  function CellSum(rs: seq<Grid<real>>, i: nat, j: nat): real
    requires Covers(rs, i, j)
    decreases |rs|
  {
    if rs == [] then 0.0 else rs[0].At(i, j) + CellSum(rs[1..], i, j)
  }

  /** `tf.div(tf.addN(all), all.length)`: the cell-wise mean. */
  function Mean(rs: seq<Grid<real>>): (m: Grid<real>)
    requires |rs| >= 1 && ValidGrids(rs) && SameShape(rs)
    ensures m.Valid() && m.height == rs[0].height && m.width == rs[0].width
  {
    Build(rs[0].height, rs[0].width,
      (i: nat, j: nat) requires i < rs[0].height && j < rs[0].width => CellSum(rs, i, j) / |rs| as real)
  }

  /** `ttaMerge`: exactly eight predictions, each un-augmented, averaged;
      `tf.addN` refuses predictions whose shapes disagree. */
  function TtaMerge(preds: seq<Grid<real>>): (r: Result<Grid<real>, string>)
    requires ValidGrids(preds)
    ensures r.Success? <==> |preds| == 8 && SameShape(Undone(preds))
    ensures r.Success? ==>
      r.value.Valid() && r.value.height == Undone(preds)[0].height && r.value.width == Undone(preds)[0].width
  {
    if |preds| != 8 then Failure("ttaMerge expects 8 tensors")
    else
      var rs := Undone(preds);
      if !SameShape(rs) then Failure("shapes do not match")
      else Success(Mean(rs))
  }
}
