/** The tile planner of src/utils/tiling.ts (`makeTiles`): two nested loops
    that step by `tileSize - overlap` and clip every tile at the right and
    bottom edges of the image. */
module Tiling {
  import opened Common

  /** One planned tile: origin `(sx, sy)` and clipped extent `sw x sh`. */
  datatype TileJob = TileJob(sx: int, sy: int, sw: int, sh: int)

  /** The inner loop for one value of `y`, from column `x` on. */
  function Row(width: nat, height: nat, tileSize: int, step: nat, x: nat, y: nat): seq<TileJob>
    requires step > 0
    decreases width - x
  {
    if x < width then
      [TileJob(x, y, Min(tileSize, width - x), Min(tileSize, height - y))]
        + Row(width, height, tileSize, step, x + step, y)
    else
      []
  }

  /** The outer loop, from row `y` on. */
  function Rows(width: nat, height: nat, tileSize: int, step: nat, y: nat): seq<TileJob>
    requires step > 0
    decreases height - y
  {
    if y < height then
      Row(width, height, tileSize, step, 0, y) + Rows(width, height, tileSize, step, y + step)
    else
      []
  }

  /** `makeTiles(width, height, tileSize, overlap)`. The loops only terminate
      when the step `tileSize - overlap` is positive. */
  function MakeTiles(width: nat, height: nat, tileSize: int, overlap: int): (tiles: seq<TileJob>)
    requires overlap < tileSize
  {
    Rows(width, height, tileSize, tileSize - overlap, 0)
  }

  // ----- vocabulary of the properties -----

  /** The tile lies inside the `width x height` image and is not empty. */
  predicate InBounds(t: TileJob, width: nat, height: nat) {
    && 0 <= t.sx < width && 0 <= t.sy < height
    && t.sw >= 1 && t.sh >= 1
    && t.sx + t.sw <= width && t.sy + t.sh <= height
  }

  predicate Covers(t: TileJob, px: int, py: int) {
    t.sx <= px < t.sx + t.sw && t.sy <= py < t.sy + t.sh
  }

  predicate CoveredBy(tiles: seq<TileJob>, px: int, py: int) {
    exists t :: t in tiles && Covers(t, px, py)
  }

  /** Row-major order: top to bottom, then left to right. */
  predicate Before(a: TileJob, b: TileJob) {
    a.sy < b.sy || (a.sy == b.sy && a.sx < b.sx)
  }

  predicate Ordered(tiles: seq<TileJob>) {
    forall i, j :: 0 <= i < j < |tiles| ==> Before(tiles[i], tiles[j])
  }

  /** Tile `k` is the last of its row: the next tile (if any) is on another row. */
  predicate LastInRow(tiles: seq<TileJob>, k: int)
    requires 0 <= k < |tiles|
  {
    k + 1 == |tiles| || tiles[k + 1].sy != tiles[k].sy
  }

  /** Tile `k` is the first of its row. */
  predicate FirstInRow(tiles: seq<TileJob>, k: int)
    requires 0 <= k < |tiles|
  {
    k == 0 || tiles[k - 1].sy != tiles[k].sy
  }

  /** The last tile of every row reaches the right edge. */
  predicate RowsEndAt(tiles: seq<TileJob>, width: int) {
    forall k :: 0 <= k < |tiles| && LastInRow(tiles, k) ==> tiles[k].sx + tiles[k].sw == width
  }

  /** The first tile of every row starts at the left edge. */
  predicate RowsStartAtZero(tiles: seq<TileJob>) {
    forall k :: 0 <= k < |tiles| && FirstInRow(tiles, k) ==> tiles[k].sx == 0
  }

  // ----- one row -----

  lemma {:induction false} RowShape(width: nat, height: nat, tileSize: int, step: nat, x: nat, y: nat)
    requires 0 < step <= tileSize && y < height
    ensures var r := Row(width, height, tileSize, step, x, y);
      && (|r| > 0 <==> x < width)
      && (forall t :: t in r ==> t.sy == y && t.sh == Min(tileSize, height - y) && x <= t.sx && InBounds(t, width, height))
      && (|r| > 0 ==> r[0].sx == x && r[|r| - 1].sx + r[|r| - 1].sw == width)
      && (forall i, j :: 0 <= i < j < |r| ==> r[i].sx < r[j].sx)
    decreases width - x
  {
    if x < width {
      RowShape(width, height, tileSize, step, x + step, y);
    }
  }

  lemma {:induction false} RowCovers(width: nat, height: nat, tileSize: int, step: nat, x: nat, y: nat, px: int, py: int)
    requires 0 < step <= tileSize && y < height
    requires x <= px < width && y <= py < y + Min(tileSize, height - y)
    ensures CoveredBy(Row(width, height, tileSize, step, x, y), px, py)
    decreases width - x
  {
    var r := Row(width, height, tileSize, step, x, y);
    if px < x + Min(tileSize, width - x) {
      assert Covers(r[0], px, py);
    } else {
      RowCovers(width, height, tileSize, step, x + step, y, px, py);
      var t :| t in Row(width, height, tileSize, step, x + step, y) && Covers(t, px, py);
      assert t in r;
    }
  }

  lemma {:induction false} RowLength(width: nat, height: nat, tileSize: int, step: nat, x: nat, y: nat)
    requires step > 0
    ensures |Row(width, height, tileSize, step, x, y)| == if x < width then CeilDiv(width - x, step) else 0
    decreases width - x
  {
    if x < width {
      RowLength(width, height, tileSize, step, x + step, y);
      CeilDivStep(width - x, step);
    }
  }

  /** `ceil(n / s)` counts one step and the rest. */
  lemma CeilDivStep(n: nat, s: nat)
    requires s > 0 && n > 0
    ensures CeilDiv(n, s) == if n > s then 1 + CeilDiv(n - s, s) else 1
  {
    var r := CeilDiv(n, s);
    if n > s {
      var r' := CeilDiv(n - s, s);
      MulDistrib(r' - 1, 1, s);
      MulDistrib(r', 1, s);
      CeilDivUnique(n, s, r, r' + 1);
    } else {
      CeilDivUnique(n, s, r, 1);
    }
  }

  lemma CeilDivUnique(n: int, s: int, a: int, b: int)
    requires s > 0
    requires (a - 1) * s < n <= a * s && (b - 1) * s < n <= b * s
    ensures a == b
  {
    if a < b {
      MulLe(a, b - 1, s);
    } else if b < a {
      MulLe(b, a - 1, s);
    }
  }

  // ----- the whole plan -----

  /** Every tile of a row is inside the image, whatever the step. */
  lemma {:induction false} RowInBounds(width: nat, height: nat, tileSize: int, step: nat, x: nat, y: nat)
    requires step > 0 && tileSize >= 1 && y < height
    ensures forall t :: t in Row(width, height, tileSize, step, x, y) ==> t.sy == y && InBounds(t, width, height)
    decreases width - x
  {
    if x < width {
      RowInBounds(width, height, tileSize, step, x + step, y);
    }
  }

  lemma {:induction false} RowsInBounds(width: nat, height: nat, tileSize: int, step: nat, y: nat)
    requires step > 0 && tileSize >= 1
    ensures forall t :: t in Rows(width, height, tileSize, step, y) ==> y <= t.sy && InBounds(t, width, height)
    decreases height - y
  {
    if y < height {
      RowInBounds(width, height, tileSize, step, 0, y);
      RowsInBounds(width, height, tileSize, step, y + step);
    }
  }

  /** The first tile of a non-empty remainder of the plan starts row `y` at column 0. */
  lemma RowsHead(width: nat, height: nat, tileSize: int, step: nat, y: nat)
    requires 0 < step <= tileSize && y < height && width > 0
    ensures var r := Rows(width, height, tileSize, step, y);
      |r| > 0 && r[0].sx == 0 && r[0].sy == y
  {
    RowShape(width, height, tileSize, step, 0, y);
  }

  lemma {:induction false} RowsOrdered(width: nat, height: nat, tileSize: int, step: nat, y: nat)
    requires 0 < step <= tileSize
    ensures Ordered(Rows(width, height, tileSize, step, y))
    decreases height - y
  {
    if y < height {
      var a := Row(width, height, tileSize, step, 0, y);
      var b := Rows(width, height, tileSize, step, y + step);
      RowShape(width, height, tileSize, step, 0, y);
      RowsInBounds(width, height, tileSize, step, y + step);
      RowsOrdered(width, height, tileSize, step, y + step);
      var r := a + b;
      forall i, j | 0 <= i < j < |r|
        ensures Before(r[i], r[j])
      {
        if j < |a| {
          assert r[i] == a[i] && r[j] == a[j];
        } else if i >= |a| {
          assert r[i] == b[i - |a|] && r[j] == b[j - |a|];
        } else {
          assert r[i] == a[i] && a[i] in a && r[j] == b[j - |a|] && r[j] in b;
        }
      }
    }
  }

  /** A single row followed by a plan that ends its rows at the right edge. */
  lemma EndsConcat(a: seq<TileJob>, b: seq<TileJob>, width: int)
    requires forall i, j :: 0 <= i < |a| && 0 <= j < |a| ==> a[i].sy == a[j].sy
    requires |a| > 0 ==> a[|a| - 1].sx + a[|a| - 1].sw == width
    requires RowsEndAt(b, width)
    ensures RowsEndAt(a + b, width)
  {
    var r := a + b;
    forall k | 0 <= k < |r|
      ensures LastInRow(r, k) ==> r[k].sx + r[k].sw == width
    {
      if k >= |a| {
        var k' := k - |a|;
        assert r[k] == b[k'];
        if k + 1 < |r| { assert r[k + 1] == b[k' + 1]; }
        assert LastInRow(r, k) ==> LastInRow(b, k');
      } else if k + 1 < |a| {
        assert r[k + 1].sy == a[k + 1].sy == a[k].sy == r[k].sy;
      } else {
        assert r[k] == a[|a| - 1];
      }
    }
  }

  /** A single row starting at column 0 followed by a plan whose rows start at column 0. */
  lemma StartsConcat(a: seq<TileJob>, b: seq<TileJob>)
    requires forall i, j :: 0 <= i < |a| && 0 <= j < |a| ==> a[i].sy == a[j].sy
    requires |a| > 0 ==> a[0].sx == 0
    requires |b| > 0 ==> b[0].sx == 0
    requires RowsStartAtZero(b)
    ensures RowsStartAtZero(a + b)
  {
    var r := a + b;
    forall k | 0 <= k < |r|
      ensures FirstInRow(r, k) ==> r[k].sx == 0
    {
      if k > |a| {
        var k' := k - |a|;
        assert r[k] == b[k'] && r[k - 1] == b[k' - 1];
        assert FirstInRow(r, k) ==> FirstInRow(b, k');
      } else if 0 < k < |a| {
        assert r[k - 1].sy == a[k - 1].sy == a[k].sy == r[k].sy;
      }
    }
  }

  lemma {:induction false} RowsEnds(width: nat, height: nat, tileSize: int, step: nat, y: nat)
    requires 0 < step <= tileSize
    ensures var r := Rows(width, height, tileSize, step, y);
      && RowsEndAt(r, width)
      && (|r| > 0 ==> r[|r| - 1].sy + r[|r| - 1].sh == height)
    decreases height - y
  {
    if y < height {
      var a := Row(width, height, tileSize, step, 0, y);
      var b := Rows(width, height, tileSize, step, y + step);
      RowShape(width, height, tileSize, step, 0, y);
      RowsEnds(width, height, tileSize, step, y + step);
      assert forall i :: 0 <= i < |a| ==> a[i] in a;
      EndsConcat(a, b, width);
      if y + step < height && width > 0 {
        RowsHead(width, height, tileSize, step, y + step);
      }
      if |b| == 0 {
        if |a| > 0 {
          assert a[|a| - 1] in a;
        }
      } else {
        assert (a + b)[|a + b| - 1] == b[|b| - 1];
      }
    }
  }

  lemma {:induction false} RowsStart(width: nat, height: nat, tileSize: int, step: nat, y: nat)
    requires 0 < step <= tileSize
    ensures RowsStartAtZero(Rows(width, height, tileSize, step, y))
    decreases height - y
  {
    if y < height {
      var a := Row(width, height, tileSize, step, 0, y);
      var b := Rows(width, height, tileSize, step, y + step);
      RowShape(width, height, tileSize, step, 0, y);
      RowsStart(width, height, tileSize, step, y + step);
      assert forall i :: 0 <= i < |a| ==> a[i] in a;
      if |b| > 0 {
        assert y + step < height && width > 0 by {
          RowsInBounds(width, height, tileSize, step, y + step);
          assert b[0] in b;
        }
        RowsHead(width, height, tileSize, step, y + step);
      }
      StartsConcat(a, b);
    }
  }

  lemma {:induction false} RowsCover(width: nat, height: nat, tileSize: int, step: nat, y: nat, px: int, py: int)
    requires 0 < step <= tileSize
    requires 0 <= px < width && y <= py < height
    ensures CoveredBy(Rows(width, height, tileSize, step, y), px, py)
    decreases height - y
  {
    var a := Row(width, height, tileSize, step, 0, y);
    var b := Rows(width, height, tileSize, step, y + step);
    if py < y + Min(tileSize, height - y) {
      RowCovers(width, height, tileSize, step, 0, y, px, py);
      var t :| t in a && Covers(t, px, py);
      assert t in a + b;
    } else {
      RowsCover(width, height, tileSize, step, y + step, px, py);
      var t :| t in b && Covers(t, px, py);
      assert t in a + b;
    }
  }

  lemma {:induction false} RowsLength(width: nat, height: nat, tileSize: int, step: nat, y: nat)
    requires step > 0
    ensures |Rows(width, height, tileSize, step, y)|
      == if y < height then CeilDiv(height - y, step) * CeilDiv(width, step) else 0
    decreases height - y
  {
    if y < height {
      RowLength(width, height, tileSize, step, 0, y);
      RowsLength(width, height, tileSize, step, y + step);
      CeilDivStep(height - y, step);
      if y + step < height {
        MulDistrib(1, CeilDiv(height - y - step, step), CeilDiv(width, step));
      }
    }
  }

  // ----- properties of makeTiles -----

  /** Every planned tile is non-empty and lies inside the image, for any
      overlap below the tile size, negative ones included. */
  lemma TilesInBounds(width: nat, height: nat, tileSize: int, overlap: int)
    requires 1 <= tileSize && overlap < tileSize
    ensures forall t :: t in MakeTiles(width, height, tileSize, overlap) ==>
      InBounds(t, width, height) && t.sw <= tileSize && t.sh <= tileSize
  {
    var s := tileSize - overlap;
    RowsInBounds(width, height, tileSize, s, 0);
    forall t | t in MakeTiles(width, height, tileSize, overlap)
      ensures t.sw <= tileSize && t.sh <= tileSize
    {
      RowsSizes(width, height, tileSize, s, 0, t);
    }
  }

  lemma {:induction false} RowsSizes(width: nat, height: nat, tileSize: int, step: nat, y: nat, t: TileJob)
    requires step > 0 && t in Rows(width, height, tileSize, step, y)
    ensures t.sw <= tileSize && t.sh <= tileSize
    decreases height - y
  {
    if t in Row(width, height, tileSize, step, 0, y) {
      RowSizes(width, height, tileSize, step, 0, y, t);
    } else {
      RowsSizes(width, height, tileSize, step, y + step, t);
    }
  }

  lemma {:induction false} RowSizes(width: nat, height: nat, tileSize: int, step: nat, x: nat, y: nat, t: TileJob)
    requires step > 0 && t in Row(width, height, tileSize, step, x, y)
    ensures t.sw <= tileSize && t.sh <= tileSize
    decreases width - x
  {
    if t != Row(width, height, tileSize, step, x, y)[0] {
      RowSizes(width, height, tileSize, step, x + step, y, t);
    }
  }

  /** The union of the tiles is exactly the `width x height` rectangle. */
  lemma TilesCoverExactly(width: nat, height: nat, tileSize: int, overlap: int, px: int, py: int)
    requires 0 <= overlap < tileSize
    ensures CoveredBy(MakeTiles(width, height, tileSize, overlap), px, py)
      <==> 0 <= px < width && 0 <= py < height
  {
    RowsInBounds(width, height, tileSize, tileSize - overlap, 0);
    if 0 <= px < width && 0 <= py < height {
      RowsCover(width, height, tileSize, tileSize - overlap, 0, px, py);
    }
  }

  /** The plan is in strict row-major order (so no tile repeats), every row
      starts at column 0 and ends at the right edge, and the last row ends at
      the bottom edge. */
  lemma TilesRowMajor(width: nat, height: nat, tileSize: int, overlap: int)
    requires 0 <= overlap < tileSize
    ensures var tiles := MakeTiles(width, height, tileSize, overlap);
      && Ordered(tiles)
      && RowsStartAtZero(tiles)
      && RowsEndAt(tiles, width)
      && (|tiles| > 0 ==> tiles[|tiles| - 1].sy + tiles[|tiles| - 1].sh == height)
  {
    RowsOrdered(width, height, tileSize, tileSize - overlap, 0);
    RowsStart(width, height, tileSize, tileSize - overlap, 0);
    RowsEnds(width, height, tileSize, tileSize - overlap, 0);
  }

  /** The plan has `ceil(W / s) * ceil(H / s)` tiles, `s = tileSize - overlap`. */
  lemma TileCount(width: nat, height: nat, tileSize: int, overlap: int)
    requires overlap < tileSize
    ensures |MakeTiles(width, height, tileSize, overlap)|
      == CeilDiv(width, tileSize - overlap) * CeilDiv(height, tileSize - overlap)
  {
    var step := tileSize - overlap;
    RowsLength(width, height, tileSize, step, 0);
    var a, b := CeilDiv(width, step), CeilDiv(height, step);
    if height == 0 {
      assert b == 0;
    } else {
      assert b * a == a * b;
    }
  }

  /** The plan is empty exactly when the image has no pixels. */
  lemma NoTilesIffEmpty(width: nat, height: nat, tileSize: int, overlap: int)
    requires overlap < tileSize
    ensures MakeTiles(width, height, tileSize, overlap) == [] <==> width == 0 || height == 0
  {
    TileCount(width, height, tileSize, overlap);
    var a, b := CeilDiv(width, tileSize - overlap), CeilDiv(height, tileSize - overlap);
    if a > 0 && b > 0 {
      MulLe(1, a, b);
    }
  }

  /** 100 x 100 with tile 64 and overlap 16: columns at 0, 48 and 96 with
      widths 64, 52 and 4, the same rows, nine tiles. */
  lemma Example100By64Overlap16()
    ensures MakeTiles(100, 100, 64, 16) == [
      TileJob(0, 0, 64, 64), TileJob(48, 0, 52, 64), TileJob(96, 0, 4, 64),
      TileJob(0, 48, 64, 52), TileJob(48, 48, 52, 52), TileJob(96, 48, 4, 52),
      TileJob(0, 96, 64, 4), TileJob(48, 96, 52, 4), TileJob(96, 96, 4, 4)]
  {
    assert Row(100, 100, 64, 48, 144, 0) == [];
    assert Row(100, 100, 64, 48, 144, 48) == [];
    assert Row(100, 100, 64, 48, 144, 96) == [];
    assert Rows(100, 100, 64, 48, 144) == [];
  }

  /** A trailing sliver can lie wholly inside its predecessor: with overlap,
      a tile larger than the image still yields two tiles per axis. */
  lemma SliverInsidePredecessor()
    ensures MakeTiles(50, 50, 64, 16) == [
      TileJob(0, 0, 50, 50), TileJob(48, 0, 2, 50),
      TileJob(0, 48, 50, 2), TileJob(48, 48, 2, 2)]
  {
    assert Row(50, 50, 64, 48, 96, 0) == [];
    assert Row(50, 50, 64, 48, 96, 48) == [];
    assert Rows(50, 50, 64, 48, 96) == [];
  }

  /** A negative overlap steps further than a tile reaches, leaving gaps:
      a 10 x 10 image with tile size 4 and overlap -2 gets four tiles, all
      inside the image, and pixel (4, 4) lies in none of them. */
  lemma NegativeOverlapLeavesGaps()
    ensures MakeTiles(10, 10, 4, -2) == [
      TileJob(0, 0, 4, 4), TileJob(6, 0, 4, 4), TileJob(0, 6, 4, 4), TileJob(6, 6, 4, 4)]
    ensures !CoveredBy(MakeTiles(10, 10, 4, -2), 4, 4)
  {
    assert Row(10, 10, 4, 6, 12, 0) == [];
    assert Row(10, 10, 4, 6, 12, 6) == [];
    assert Rows(10, 10, 4, 6, 12) == [];
  }
}
