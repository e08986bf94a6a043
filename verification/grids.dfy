/** Two-dimensional grids with explicit dimensions, and the tensor
    primitives the upscaler uses on the spatial axes of an NHWC tensor
    (`[1, H, W, C]`): constant pad, mirror pad, slice, concat, tile, flips
    and the H/W transpose. A cell stands for the channel vector of one
    pixel (or one channel value, when an operation acts on each plane
    alike). */
module Grids {
  import opened Common

  datatype Grid<T> = Grid(height: nat, width: nat, cells: seq<seq<T>>) {
    predicate Valid() {
      |cells| == height && forall i :: 0 <= i < height ==> |cells[i]| == width
    }

    /** The cell in row `i`, column `j`. */
    function At(i: nat, j: nat): T
      requires Valid() && i < height && j < width
    {
      cells[i][j]
    }
  }

  /** The grid whose cell `(i, j)` is `f(i, j)`. */
  function Build<T>(h: nat, w: nat, f: (nat, nat) --> T): (g: Grid<T>)
    requires forall i: nat, j: nat :: i < h && j < w ==> f.requires(i, j)
    ensures g.Valid() && g.height == h && g.width == w
    ensures forall i, j {:trigger g.At(i, j)} :: 0 <= i < h && 0 <= j < w ==> g.At(i, j) == f(i, j)
  {
    Grid(h, w, seq(h, i requires 0 <= i < h => seq(w, j requires 0 <= j < w => f(i, j))))
  }

  /** Two valid grids with the same dimensions and the same cells are equal. */
  lemma Extensionality<T>(a: Grid<T>, b: Grid<T>)
    requires a.Valid() && b.Valid() && a.height == b.height && a.width == b.width
    requires forall i, j :: 0 <= i < a.height && 0 <= j < a.width ==> a.At(i, j) == b.At(i, j)
    ensures a == b
  {
    forall i | 0 <= i < a.height
      ensures a.cells[i] == b.cells[i]
    {
      assert forall j :: 0 <= j < a.width ==> a.cells[i][j] == a.At(i, j) == b.At(i, j) == b.cells[i][j];
    }
    assert a.cells == b.cells;
  }

  /** `tf.pad` on the H and W axes with a constant. */
  function PadConst<T>(g: Grid<T>, top: nat, bottom: nat, left: nat, right: nat, fill: T): (r: Grid<T>)
    requires g.Valid()
    ensures r.Valid() && r.height == g.height + top + bottom && r.width == g.width + left + right
  {
    Build(g.height + top + bottom, g.width + left + right,
      (i: nat, j: nat) requires i < g.height + top + bottom && j < g.width + left + right =>
        if top <= i < top + g.height && left <= j < left + g.width then g.At(i - top, j - left) else fill)
  }

  /** The source index that `tf.mirrorPad(..., "reflect")` reads for output
      offset `k` (relative to the first input element) on an axis of length `n`:
      the edge element is not repeated. */
  function Reflect(k: int, n: nat): (r: int)
    requires n >= 1 && -(n - 1) <= k <= 2 * (n - 1)
    ensures 0 <= r < n
    ensures 0 <= k < n ==> r == k
  {
    if k < 0 then -k else if k >= n then 2 * (n - 1) - k else k
  }

  /** `tf.mirrorPad` in reflect mode on the H and W axes. tf rejects a
      padding that is not smaller than the axis it reflects. */
  function MirrorPad<T>(g: Grid<T>, top: nat, bottom: nat, left: nat, right: nat): (r: Result<Grid<T>, string>)
    requires g.Valid()
    ensures r.Success? <==> top < g.height && bottom < g.height && left < g.width && right < g.width
    ensures r.Success? ==>
      (r.value.Valid() && r.value.height == g.height + top + bottom && r.value.width == g.width + left + right)
  {
    if top < g.height && bottom < g.height && left < g.width && right < g.width then
      Success(Build(g.height + top + bottom, g.width + left + right,
        (i: nat, j: nat) requires i < g.height + top + bottom && j < g.width + left + right =>
          g.At(Reflect(i - top, g.height), Reflect(j - left, g.width))))
    else
      Failure("paddings must be less than the dimension size")
  }

  /** `tensor.slice([y, x], [h, w])` on the H and W axes. */
  function Slice<T>(g: Grid<T>, y: nat, x: nat, h: nat, w: nat): (r: Grid<T>)
    requires g.Valid() && y + h <= g.height && x + w <= g.width
    ensures r.Valid() && r.height == h && r.width == w
    ensures forall i, j :: 0 <= i < h && 0 <= j < w ==> r.At(i, j) == g.At(y + i, x + j)
  {
    Build(h, w, (i: nat, j: nat) requires i < h && j < w => g.At(y + i, x + j))
  }

  /** `tf.concat([a, b], 1)`: b stacked below a. */
  function ConcatRows<T>(a: Grid<T>, b: Grid<T>): (r: Grid<T>)
    requires a.Valid() && b.Valid() && a.width == b.width
    ensures r.Valid() && r.height == a.height + b.height && r.width == a.width
    ensures forall i, j {:trigger r.At(i, j)} :: 0 <= i < a.height && 0 <= j < a.width ==> r.At(i, j) == a.At(i, j)
    ensures forall i, j :: a.height <= i < a.height + b.height && 0 <= j < a.width ==> r.At(i, j) == b.At(i - a.height, j)
  {
    Grid(a.height + b.height, a.width, a.cells + b.cells)
  }

  /** `tf.concat([a, b], 2)`: b placed to the right of a. */
  function ConcatCols<T>(a: Grid<T>, b: Grid<T>): (r: Grid<T>)
    requires a.Valid() && b.Valid() && a.height == b.height
    ensures r.Valid() && r.height == a.height && r.width == a.width + b.width
    ensures forall i, j {:trigger r.At(i, j)} :: 0 <= i < a.height && 0 <= j < a.width ==> r.At(i, j) == a.At(i, j)
    ensures forall i, j :: 0 <= i < a.height && a.width <= j < a.width + b.width ==> r.At(i, j) == b.At(i, j - a.width)
  {
    Grid(a.height, a.width + b.width, seq(a.height, i requires 0 <= i < a.height => a.cells[i] + b.cells[i]))
  }

  /** `tensor.tile([1, rows, cols, 1])`: the grid repeated `rows` times down
      and `cols` times across. */
  function Repeat<T>(g: Grid<T>, rows: nat, cols: nat): (r: Grid<T>)
    requires g.Valid() && g.height >= 1 && g.width >= 1
    ensures r.Valid() && r.height == g.height * rows && r.width == g.width * cols
    ensures forall i, j :: 0 <= i < r.height && 0 <= j < r.width ==>
      r.At(i, j) == g.At(i % g.height, j % g.width)
  {
    Build(g.height * rows, g.width * cols, (i: nat, j: nat) requires i < g.height * rows && j < g.width * cols => g.At(i % g.height, j % g.width))
  }

  /** `tf.image.flipLeftRight`. */
  function FlipLR<T>(g: Grid<T>): (r: Grid<T>)
    requires g.Valid()
    ensures r.Valid() && r.height == g.height && r.width == g.width
    ensures forall i, j :: 0 <= i < g.height && 0 <= j < g.width ==> r.At(i, j) == g.At(i, g.width - 1 - j)
  {
    Build(g.height, g.width, (i: nat, j: nat) requires i < g.height && j < g.width => g.At(i, g.width - 1 - j))
  }

  /** `tf.image.flipUpDown`. */
  function FlipUD<T>(g: Grid<T>): (r: Grid<T>)
    requires g.Valid()
    ensures r.Valid() && r.height == g.height && r.width == g.width
    ensures forall i, j :: 0 <= i < g.height && 0 <= j < g.width ==> r.At(i, j) == g.At(g.height - 1 - i, j)
  {
    Build(g.height, g.width, (i: nat, j: nat) requires i < g.height && j < g.width => g.At(g.height - 1 - i, j))
  }

  /** `tf.transpose(t, [0, 2, 1, 3])`: rows and columns exchanged. */
  function Transpose<T>(g: Grid<T>): (r: Grid<T>)
    requires g.Valid()
    ensures r.Valid() && r.height == g.width && r.width == g.height
    ensures forall i, j {:trigger r.At(i, j)} :: 0 <= i < g.width && 0 <= j < g.height ==> r.At(i, j) == g.At(j, i)
  {
    Build(g.width, g.height, (i: nat, j: nat) requires i < g.width && j < g.height => g.At(j, i))
  }

  lemma FlipLRInvolution<T>(g: Grid<T>)
    requires g.Valid()
    ensures FlipLR(FlipLR(g)) == g
  {
    Extensionality(FlipLR(FlipLR(g)), g);
  }

  lemma FlipUDInvolution<T>(g: Grid<T>)
    requires g.Valid()
    ensures FlipUD(FlipUD(g)) == g
  {
    Extensionality(FlipUD(FlipUD(g)), g);
  }

  lemma TransposeInvolution<T>(g: Grid<T>)
    requires g.Valid()
    ensures Transpose(Transpose(g)) == g
  {
    Extensionality(Transpose(Transpose(g)), g);
  }

  lemma FlipsCommute<T>(g: Grid<T>)
    requires g.Valid()
    ensures FlipUD(FlipLR(g)) == FlipLR(FlipUD(g))
  {
    Extensionality(FlipUD(FlipLR(g)), FlipLR(FlipUD(g)));
  }
}
