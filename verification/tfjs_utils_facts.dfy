/** Properties of the tensor helpers of src/utils/tfjs-utils.ts: what each
    padding puts in every cell, the seam mask's ramp and blend bounds, and
    the round trip of the test-time augmentation. */
module TfjsUtilsFacts {
  import opened Common
  import opened Grids
  import opened Images
  import opened TfjsUtils

  // ----- pad -----

  /** Cropping the padding away gives the input back: the input sits at
      `(top, left)` of the padded grid. */
  lemma PadCrop<T>(g: Grid<T>, top: nat, bottom: nat, left: nat, right: nat, fill: T)
    requires g.Valid()
    ensures Slice(Pad(g, top, bottom, left, right, fill), top, left, g.height, g.width) == g
  {
    var p := Pad(g, top, bottom, left, right, fill);
    var c := Slice(p, top, left, g.height, g.width);
    forall i, j | 0 <= i < g.height && 0 <= j < g.width
      ensures c.At(i, j) == g.At(i, j)
    {
      assert c.At(i, j) == p.At(top + i, left + j);
    }
    Extensionality(c, g);
  }

  /** Every cell of the padded grid outside the input's window is the fill. */
  lemma PadBorder<T>(g: Grid<T>, top: nat, bottom: nat, left: nat, right: nat, fill: T)
    requires g.Valid()
    ensures var p := Pad(g, top, bottom, left, right, fill);
      forall i, j :: 0 <= i < p.height && 0 <= j < p.width ==>
        (i < top || top + g.height <= i || j < left || left + g.width <= j) ==> p.At(i, j) == fill
  {
  }

  /** Padding a padded grid with the same fill is padding once by the
      summed amounts. */
  lemma PadTwice<T>(g: Grid<T>, t1: nat, b1: nat, l1: nat, r1: nat, t2: nat, b2: nat, l2: nat, r2: nat, fill: T)
    requires g.Valid()
    ensures Pad(Pad(g, t1, b1, l1, r1, fill), t2, b2, l2, r2, fill) == Pad(g, t1 + t2, b1 + b2, l1 + l2, r1 + r2, fill)
  {
    var inner := Pad(g, t1, b1, l1, r1, fill);
    var a, b := Pad(inner, t2, b2, l2, r2, fill), Pad(g, t1 + t2, b1 + b2, l1 + l2, r1 + r2, fill);
    forall i, j | 0 <= i < a.height && 0 <= j < a.width
      ensures a.At(i, j) == b.At(i, j)
    {
      PadTwiceCell(g, t1, b1, l1, r1, t2, b2, l2, r2, fill, i, j);
    }
    Extensionality(a, b);
  }

  lemma PadTwiceCell<T>(g: Grid<T>, t1: nat, b1: nat, l1: nat, r1: nat, t2: nat, b2: nat, l2: nat, r2: nat, fill: T, i: nat, j: nat)
    requires g.Valid()
    requires i < g.height + t1 + b1 + t2 + b2 && j < g.width + l1 + r1 + l2 + r2
    ensures Pad(Pad(g, t1, b1, l1, r1, fill), t2, b2, l2, r2, fill).At(i, j) == Pad(g, t1 + t2, b1 + b2, l1 + l2, r1 + r2, fill).At(i, j)
  {
    var inner := Pad(g, t1, b1, l1, r1, fill);
    PadCell(inner, t2, b2, l2, r2, fill, i, j);
    PadCell(g, t1 + t2, b1 + b2, l1 + l2, r1 + r2, fill, i, j);
    if t2 <= i < t2 + inner.height && l2 <= j < l2 + inner.width {
      PadCell(g, t1, b1, l1, r1, fill, i - t2, j - l2);
    }
  }

  lemma PadCell<T>(g: Grid<T>, top: nat, bottom: nat, left: nat, right: nat, fill: T, i: nat, j: nat)
    requires g.Valid() && i < g.height + top + bottom && j < g.width + left + right
    ensures Pad(g, top, bottom, left, right, fill).At(i, j) ==
      if top <= i < top + g.height && left <= j < left + g.width then g.At(i - top, j - left) else fill
  {
  }

  // ----- reflectionPad -----

  /** Padding by the larger amount and slicing is the same as mirror
      padding by the asked amounts directly. */
  lemma ReflectionPadIsMirrorPad<T>(g: Grid<T>, top: nat, bottom: nat, left: nat, right: nat)
    requires g.Valid()
    ensures ReflectionPad(g, top, bottom, left, right) == MirrorPad(g, top, bottom, left, right)
  {
    var a, b := ReflectionPad(g, top, bottom, left, right), MirrorPad(g, top, bottom, left, right);
    if a.Success? {
      forall i, j | 0 <= i < a.value.height && 0 <= j < a.value.width
        ensures a.value.At(i, j) == b.value.At(i, j)
      {
        ReflectionPadAt(g, top, bottom, left, right, i, j);
        MirrorPadAt(g, top, bottom, left, right, i, j);
      }
      Extensionality(a.value, b.value);
    }
  }

  /** Cell `(i, j)` of the reflection pad reflects `(i - top, j - left)`
      into the input. */
  lemma ReflectionPadAt<T>(g: Grid<T>, top: nat, bottom: nat, left: nat, right: nat, i: nat, j: nat)
    requires g.Valid() && top < g.height && bottom < g.height && left < g.width && right < g.width
    requires i < g.height + top + bottom && j < g.width + left + right
    ensures ReflectionPad(g, top, bottom, left, right).Success?
    ensures ReflectionPad(g, top, bottom, left, right).value.At(i, j) == g.At(Reflect(i - top, g.height), Reflect(j - left, g.width))
  {
    var maxTopBottom, maxLeftRight := Max(top, bottom), Max(left, right);
    var y, x := maxTopBottom - top + i, maxLeftRight - left + j;
    MirrorPadAt(g, maxTopBottom, maxTopBottom, maxLeftRight, maxLeftRight, y, x);
    assert y - maxTopBottom == i - top && x - maxLeftRight == j - left;
  }

  /** Cell `(i, j)` of a mirror pad reflects `(i - top, j - left)` into the
      input. */
  lemma MirrorPadAt<T>(g: Grid<T>, top: nat, bottom: nat, left: nat, right: nat, i: nat, j: nat)
    requires g.Valid() && top < g.height && bottom < g.height && left < g.width && right < g.width
    requires i < g.height + top + bottom && j < g.width + left + right
    ensures MirrorPad(g, top, bottom, left, right).Success?
    ensures MirrorPad(g, top, bottom, left, right).value.At(i, j) == g.At(Reflect(i - top, g.height), Reflect(j - left, g.width))
  {
  }

  // ----- replicationPad -----

  lemma ReplicateAt<T>(g: Grid<T>, top: nat, bottom: nat, left: nat, right: nat, i: nat, j: nat)
    requires g.Valid() && g.height >= 1 && g.width >= 1
    requires i < g.height + top + bottom && j < g.width + left + right
    ensures Replicate(g, top, bottom, left, right).At(i, j) == g.At(Nearest(i - top, g.height), Nearest(j - left, g.width))
  {
  }

  /** The band of added rows is `tf.tile` of the one-row slice. */
  lemma RowBandIsTile<T>(g: Grid<T>, r: nat, n: nat)
    requires g.Valid() && r < g.height && g.width >= 1
    ensures RowBand(g, r, n) == Repeat(Slice(g, r, 0, 1, g.width), n, 1)
  {
    var a, s := RowBand(g, r, n), Slice(g, r, 0, 1, g.width);
    var b := Repeat(s, n, 1);
    forall i, j | 0 <= i < n && 0 <= j < g.width
      ensures a.At(i, j) == b.At(i, j)
    {
      DivModUnique(i, 1, i, 0);
      DivModUnique(j, g.width, 0, j);
      assert b.At(i, j) == s.At(0, j);
    }
    Extensionality(a, b);
  }

  /** The band of added columns is `tf.tile` of the one-column slice. */
  lemma ColBandIsTile<T>(g: Grid<T>, c: nat, n: nat)
    requires g.Valid() && c < g.width && g.height >= 1
    ensures ColBand(g, c, n) == Repeat(Slice(g, 0, c, g.height, 1), 1, n)
  {
    var a, s := ColBand(g, c, n), Slice(g, 0, c, g.height, 1);
    var b := Repeat(s, 1, n);
    forall i, j | 0 <= i < g.height && 0 <= j < n
      ensures a.At(i, j) == b.At(i, j)
    {
      DivModUnique(i, g.height, 0, i);
      DivModUnique(j, 1, j, 0);
      assert b.At(i, j) == s.At(i, 0);
    }
    Extensionality(a, b);
  }

  lemma PadRowsAt<T>(g: Grid<T>, top: nat, bottom: nat, i: nat, j: nat)
    requires g.Valid() && g.height >= 1 && g.width >= 1 && i < g.height + top + bottom && j < g.width
    ensures PadRows(g, top, bottom).At(i, j) == g.At(Nearest(i - top, g.height), j)
  {
    var t := AddTop(g, top);
    if i < t.height {
      assert PadRows(g, top, bottom).At(i, j) == t.At(i, j);
    }
  }

  lemma AddLeftAt<T>(out: Grid<T>, left: nat, i: nat, j: nat)
    requires out.Valid() && out.height >= 1 && out.width >= 1 && i < out.height && j < out.width + left
    ensures AddLeft(out, left).At(i, j) == out.At(i, Nearest(j - left, out.width))
  {
  }

  /** The replication pad reads the left-padded rows at column `j`, or at
      the last column when `j` lies in the right band. */
  lemma ReplicationPadColumn<T>(g: Grid<T>, top: nat, bottom: nat, left: nat, right: nat, i: nat, j: nat)
    requires g.Valid() && g.height >= 1 && g.width >= 1
    requires i < g.height + top + bottom && j < g.width + left + right
    ensures ReplicationPad(g, top, bottom, left, right).At(i, j)
      == AddLeft(PadRows(g, top, bottom), left).At(i, Min(j, g.width + left - 1))
  {
    AddRightAt(AddLeft(PadRows(g, top, bottom), left), g.width + left - 1, right, i, j);
  }

  lemma AddRightAt<T>(out: Grid<T>, col: nat, right: nat, i: nat, j: nat)
    requires out.Valid() && out.height >= 1 && col < out.width && i < out.height && j < out.width + right
    ensures j < out.width ==> AddRight(out, col, right).At(i, j) == out.At(i, j)
    ensures j >= out.width ==> AddRight(out, col, right).At(i, j) == out.At(i, col)
  {
  }

  /** With a left padding the code as written copies the wrong column: one
      row `[1, 2, 3]` padded by one column either side ends in 2, where
      edge replication ends in 3. */
  lemma ReplicationPadAsWrittenWrongColumn()
    ensures var g := Grid(1, 3, [[1, 2, 3]]);
      && g.Valid()
      && ReplicationPadAsWritten(g, 0, 0, 1, 1).At(0, 4) == 2
      && Replicate(g, 0, 0, 1, 1).At(0, 4) == 3
  {
    var g := Grid(1, 3, [[1, 2, 3]]);
    var rows := PadRows(g, 0, 0);
    var withLeft := AddLeft(rows, 1);
    AddRightAt(withLeft, 2, 1, 0, 4);
    AddLeftAt(rows, 1, 0, 2);
    assert rows == g;
  }

  /** Without a left padding the column read is the right edge, and the
      code as written agrees with the corrected one. */
  lemma ReplicationPadAsWrittenWithoutLeft<T>(g: Grid<T>, top: nat, bottom: nat, right: nat)
    requires g.Valid() && g.height >= 1 && g.width >= 1
    ensures ReplicationPadAsWritten(g, top, bottom, 0, right) == ReplicationPad(g, top, bottom, 0, right)
  {
  }

  /** The corrected replication pad is edge replication: the interior is
      the input, added rows copy the first or last row, added columns the
      first or last column, corners the corner cells. */
  lemma ReplicationPadReplicates<T>(g: Grid<T>, top: nat, bottom: nat, left: nat, right: nat)
    requires g.Valid() && g.height >= 1 && g.width >= 1
    ensures ReplicationPad(g, top, bottom, left, right) == Replicate(g, top, bottom, left, right)
  {
    var a, b := ReplicationPad(g, top, bottom, left, right), Replicate(g, top, bottom, left, right);
    forall i, j | 0 <= i < a.height && 0 <= j < a.width
      ensures a.At(i, j) == b.At(i, j)
    {
      ReplicationPadAt(g, top, bottom, left, right, i, j);
      ReplicateAt(g, top, bottom, left, right, i, j);
    }
    Extensionality(a, b);
  }

  lemma ReplicationPadAt<T>(g: Grid<T>, top: nat, bottom: nat, left: nat, right: nat, i: nat, j: nat)
    requires g.Valid() && g.height >= 1 && g.width >= 1
    requires i < g.height + top + bottom && j < g.width + left + right
    ensures ReplicationPad(g, top, bottom, left, right).At(i, j) == g.At(Nearest(i - top, g.height), Nearest(j - left, g.width))
  {
    var rows := PadRows(g, top, bottom);
    var k := Min(j, g.width + left - 1);
    ReplicationPadColumn(g, top, bottom, left, right, i, j);
    AddLeftAt(rows, left, i, k);
    assert Nearest(k - left, g.width) == Nearest(j - left, g.width);
    PadRowsAt(g, top, bottom, i, Nearest(j - left, g.width));
  }

  // ----- alphaBorderPadding -----

  lemma BorderPixelsAt(img: ImageData, padding: nat, newW: nat, newH: nat, i: nat, j: nat)
    requires img.Valid() && i < newH && j < newW
    ensures i * newW + j < newH * newW && BorderPixels(img, padding, newW, newH)[i * newW + j] == BorderPixel(img, padding, i, j)
  {
    IndexBound(i, j, newH, newW);
    IndexDecode(i, j, newW);
  }

  /** Pixel `(i, j)` of the result is pixel `(i - p, j - p)` of the image,
      or transparent black in the border. */
  lemma AlphaBorderPaddingAt(img: ImageData, padding: nat, i: nat, j: nat)
    requires img.Valid() && i < img.height + 2 * padding && j < img.width + 2 * padding
    ensures AlphaBorderPadding(img, padding).At(i, j) == BorderPixel(img, padding, i, j)
  {
    var newW, newH := img.width + 2 * padding, img.height + 2 * padding;
    var ps := BorderPixels(img, padding, newW, newH);
    FromPixelsAt(newW, newH, ps, i, j);
    BorderPixelsAt(img, padding, newW, newH, i, j);
  }

  /** The copy loop byte by byte: byte `c` of source pixel `(y, x)` lands
      in pixel `(y + p, x + p)` of the bordered image, that is at offset
      `4 * ((y + p) * newW + (x + p)) + c`. */
  lemma AlphaBorderPaddingBytes(img: ImageData, padding: nat, y: nat, x: nat, c: nat)
    requires img.Valid() && y < img.height && x < img.width && c < 4
    ensures AlphaBorderPadding(img, padding).ByteAt(y + padding, x + padding, c) == img.ByteAt(y, x, c)
  {
    var out := AlphaBorderPadding(img, padding);
    AlphaBorderPaddingAt(img, padding, y + padding, x + padding);
    SamePixelSameBytes(out, y + padding, x + padding, img, y, x, c);
  }

  lemma SamePixelSameBytes(a: ImageData, i: nat, j: nat, b: ImageData, y: nat, x: nat, c: nat)
    requires a.Valid() && i < a.height && j < a.width && b.Valid() && y < b.height && x < b.width && c < 4
    requires a.At(i, j) == b.At(y, x)
    ensures a.ByteAt(i, j, c) == b.ByteAt(y, x, c)
  {
    AtBytes(a, i, j, c);
    AtBytes(b, y, x, c);
  }

  lemma DrawnBorderedAt(img: ImageData, padding: nat, i: nat, j: nat)
    requires img.Valid() && i < img.height + 2 * padding && j < img.width + 2 * padding
    ensures DrawnBordered(img, padding).At(i, j) == BorderPixel(img, padding, i, j)
  {
    var c := BorderCanvas(img, padding);
    if Under(img, padding, padding, i, j) {
      assert c.At(i, j) == img.At(i - padding, j - padding);
    } else {
      assert c.At(i, j) == Transparent;
    }
    ReadBackAt(c, i, j);
  }

  /** Reading a whole canvas back gives its pixels. */
  lemma ReadBackAt(c: Canvas, i: nat, j: nat)
    requires c.Valid() && i < c.height && j < c.width
    ensures GetImageData(c, 0, 0, c.width, c.height).At(i, j) == c.At(i, j)
  {
  }

  /** The copy loop gives the same image as drawing the source at `(p, p)`
      on a transparent canvas of the bordered size. */
  lemma AlphaBorderPaddingIsPut(img: ImageData, padding: nat)
    requires img.Valid()
    ensures AlphaBorderPadding(img, padding) == DrawnBordered(img, padding)
  {
    var a, b := AlphaBorderPadding(img, padding), DrawnBordered(img, padding);
    forall i, j | 0 <= i < a.height && 0 <= j < a.width
      ensures a.At(i, j) == b.At(i, j)
    {
      AlphaBorderPaddingAt(img, padding, i, j);
      DrawnBorderedAt(img, padding, i, j);
    }
    ImageDataExtensionalityAt(a, b);
  }

  // ----- seam blending -----

  lemma SeamBlendMaskAt(height: nat, width: nat, overlap: real, y: nat, x: nat)
    requires overlap != 0.0 && y < height && x < width
    ensures SeamBlendMask(height, width, overlap).Success?
    ensures SeamBlendMask(height, width, overlap).value.At(y, x)
      == ClampReal(EdgeDistance(y, x, height, width) as real / overlap, 0.0, 1.0)
  {
  }

  lemma QuotientFacts(d: real, overlap: real)
    requires d >= 0.0 && overlap != 0.0
    ensures d == 0.0 ==> d / overlap == 0.0
    ensures overlap > 0.0 && d >= overlap ==> d / overlap >= 1.0
    ensures overlap > 0.0 && d < overlap ==> 0.0 <= d / overlap < 1.0
    ensures overlap < 0.0 ==> d / overlap <= 0.0
  {
  }

  /** The mask is 0 on the outer ring, rises as the edge distance over the
      overlap, and is 1 from distance `overlap` inwards; a negative overlap
      gives 0 everywhere. */
  lemma SeamBlendMaskRamp(height: nat, width: nat, overlap: real, y: nat, x: nat)
    requires overlap != 0.0 && y < height && x < width
    ensures var m, d := SeamBlendMask(height, width, overlap).value.At(y, x), EdgeDistance(y, x, height, width) as real;
      && (y == 0 || y == height - 1 || x == 0 || x == width - 1 ==> m == 0.0)
      && (overlap > 0.0 && d < overlap ==> m == d / overlap)
      && (overlap > 0.0 && d >= overlap ==> m == 1.0)
      && (overlap < 0.0 ==> m == 0.0)
  {
    SeamBlendMaskAt(height, width, overlap, y, x);
    QuotientFacts(EdgeDistance(y, x, height, width) as real, overlap);
  }

  /** The mask is the same under an up-down and under a left-right
      mirroring. */
  lemma SeamBlendMaskSymmetric(height: nat, width: nat, overlap: real, y: nat, x: nat)
    requires overlap != 0.0 && y < height && x < width
    ensures var m := SeamBlendMask(height, width, overlap).value;
      m.At(y, x) == m.At(height - 1 - y, x) && m.At(y, x) == m.At(y, width - 1 - x)
  {
    SeamBlendMaskAt(height, width, overlap, y, x);
    SeamBlendMaskAt(height, width, overlap, height - 1 - y, x);
    SeamBlendMaskAt(height, width, overlap, y, width - 1 - x);
    assert EdgeDistance(y, x, height, width) == EdgeDistance(height - 1 - y, x, height, width);
    assert EdgeDistance(y, x, height, width) == EdgeDistance(y, width - 1 - x, height, width);
  }

  /** Where the mask is 1 the source wins, where it is 0 the destination
      stays, and in between the result lies between the two. */
  lemma BlendBetween(dst: Grid<real>, src: Grid<real>, mask: Grid<real>, i: nat, j: nat)
    requires dst.Valid() && src.Valid() && mask.Valid()
    requires src.height == dst.height && src.width == dst.width && mask.height == dst.height && mask.width == dst.width
    requires i < dst.height && j < dst.width
    ensures var r, m, a, b := BlendPatchWithMask(dst, src, mask).At(i, j), mask.At(i, j), dst.At(i, j), src.At(i, j);
      && (m == 1.0 ==> r == b)
      && (m == 0.0 ==> r == a)
      && (0.0 <= m <= 1.0 ==> (a <= b ==> a <= r <= b) && (b <= a ==> b <= r <= a))
  {
    var m, a, b := mask.At(i, j), dst.At(i, j), src.At(i, j);
    var r := BlendPatchWithMask(dst, src, mask).At(i, j);
    assert r == a * (1.0 - m) + b * m;
    if 0.0 <= m <= 1.0 {
      MulNonnegReal(1.0 - m, if a <= b then b - a else a - b);
      MulNonnegReal(m, if a <= b then b - a else a - b);
    }
  }

  lemma MulNonnegReal(x: real, y: real)
    requires x >= 0.0 && y >= 0.0
    ensures x * y >= 0.0
  {
  }

  // ----- test-time augmentation -----

  /** Each flip is its own inverse. */
  lemma FlipsInvolution<T>(x: Grid<T>, m: nat)
    requires x.Valid() && m < 4
    ensures Flips(Flips(x)[m])[m] == x
  {
    var y := Flips(x)[m];
    if m == 1 {
      assert y == FlipLR(x) && Flips(y)[1] == FlipLR(y);
      FlipLRInvolution(x);
    } else if m == 2 {
      assert y == FlipUD(x) && Flips(y)[2] == FlipUD(y);
      FlipUDInvolution(x);
    } else if m == 3 {
      var l := FlipLR(x);
      assert y == FlipUD(l) && Flips(y)[3] == FlipUD(FlipLR(y));
      FlipsCommute(l);
      assert FlipLR(y) == FlipUD(FlipLR(l)) by {
        FlipsCommute(l);
      }
      FlipLRInvolution(x);
      FlipUDInvolution(x);
    }
  }

  /** Every augmentation is undone by its step of the merge. */
  lemma UndoSplit<T>(g: Grid<T>, k: nat)
    requires g.Valid() && k < 8
    ensures Undo(k, TtaSplit(g)[k]) == g
  {
    if k < 4 {
      UndoSplitPlain(g, k);
    } else {
      UndoSplitTransposed(g, k);
    }
  }

  lemma UndoSplitPlain<T>(g: Grid<T>, k: nat)
    requires g.Valid() && k < 4
    ensures Undo(k, TtaSplit(g)[k]) == g
  {
    var p := TtaSplit(g)[k];
    assert p == Flips(g)[k];
    assert Undo(k, p) == Flips(p)[k];
    FlipsInvolution(g, k);
  }

  lemma UndoSplitTransposed<T>(g: Grid<T>, k: nat)
    requires g.Valid() && 4 <= k < 8
    ensures Undo(k, TtaSplit(g)[k]) == g
  {
    var t := Transpose(g);
    var p := TtaSplit(g)[k];
    assert p == Flips(t)[k - 4];
    assert Undo(k, p) == Transpose(Flips(p)[k - 4]);
    FlipsInvolution(t, k - 4);
    TransposeInvolution(g);
  }

  /** Each merged cell is the mean of the eight un-augmented predictions. */
  lemma TtaMergeAt(preds: seq<Grid<real>>, i: nat, j: nat)
    requires ValidGrids(preds) && |preds| == 8 && SameShape(Undone(preds))
    requires i < Undone(preds)[0].height && j < Undone(preds)[0].width
    ensures Covers(Undone(preds), i, j)
    ensures TtaMerge(preds).value.At(i, j) == CellSum(Undone(preds), i, j) / 8.0
  {
    TtaMergeUnfold(preds);
    MeanAt(Undone(preds), 8, i, j);
  }

  lemma TtaMergeUnfold(preds: seq<Grid<real>>)
    requires ValidGrids(preds) && |preds| == 8 && SameShape(Undone(preds))
    ensures TtaMerge(preds) == Success(Mean(Undone(preds)))
  {
  }

  /** Each cell of the mean is the cell sum over the number of grids,
      `n`. */
  lemma MeanAt(rs: seq<Grid<real>>, n: nat, i: nat, j: nat)
    requires |rs| == n >= 1 && ValidGrids(rs) && SameShape(rs) && i < rs[0].height && j < rs[0].width
    ensures Covers(rs, i, j) && Mean(rs).At(i, j) == CellSum(rs, i, j) / n as real
  {
  }

  /** With an up-down flip available, the call-by-call split is the eight
      augmentations of `TtaSplit`. */
  lemma TtaSplitWithFlip<T>(g: Grid<T>)
    requires g.Valid()
    ensures TtaSplitIn(WITH_FLIP_UP_DOWN, g) == Success(TtaSplit(g))
  {
    var ns := WITH_FLIP_UP_DOWN;
    var t := Transpose(g);
    var vs := [g, FlipLR(g), FlipUD(g), FlipUD(FlipLR(g)), t, FlipLR(t), FlipUD(t), FlipUD(FlipLR(t))];
    assert TtaSplitIn(ns, g) == Success(vs);
    assert TtaSplit(g) == Flips(g) + Flips(t);
    assert Flips(g) + Flips(t) == vs;
  }

  /** With an up-down flip available, the undo calls for one prediction
      compute `Undo`. */
  lemma UndoInWithFlip(k: nat, p: Grid<real>)
    requires k < 8 && p.Valid()
    ensures UndoIn(WITH_FLIP_UP_DOWN, k, p) == Success(Undo(k, p))
  {
    if k >= 4 {
      UndoInWithFlip(k - 4, p);
    }
  }

  /** With an up-down flip available, the undo calls from prediction `k` on
      succeed and give the rest of `Undone`. */
  lemma {:induction false} UndoAllInWithFlip(preds: seq<Grid<real>>, k: nat)
    requires |preds| == 8 && ValidGrids(preds) && k <= 8
    ensures UndoAllIn(WITH_FLIP_UP_DOWN, preds, k) == Success(Undone(preds)[k..])
    decreases 8 - k
  {
    if k < 8 {
      var all := Undone(preds);
      UndoInWithFlip(k, preds[k]);
      UndoAllInWithFlip(preds, k + 1);
      UndoAllInStep(WITH_FLIP_UP_DOWN, preds, k, all[k], all[k + 1..]);
      UndoneFrom(preds, k);
    } else {
      assert Undone(preds)[k..] == [];
    }
  }

  /** The undone grids from `k` on are grid `k`'s undo, then the rest. */
  lemma UndoneFrom(preds: seq<Grid<real>>, k: nat)
    requires |preds| == 8 && ValidGrids(preds) && k < 8
    ensures Undone(preds)[k] == Undo(k, preds[k])
    ensures Undone(preds)[k..] == [Undone(preds)[k]] + Undone(preds)[k + 1..]
  {
    var all := Undone(preds);
    assert all[k..] == [all[k]] + all[k + 1..];
  }

  /** One step of the undo calls: prediction `k`'s undo, then the rest. */
  lemma UndoAllInStep(ns: Namespace, preds: seq<Grid<real>>, k: nat, u: Grid<real>, rest: seq<Grid<real>>)
    requires |preds| == 8 && ValidGrids(preds) && k < 8
    requires UndoIn(ns, k, preds[k]) == Success(u) && UndoAllIn(ns, preds, k + 1) == Success(rest)
    ensures UndoAllIn(ns, preds, k) == Success([u] + rest)
  {
  }

  /** With an up-down flip available, the call-by-call merge undoes each
      augmentation as `Undo` does, and averages the same eight grids. */
  lemma TtaMergeWithFlip(preds: seq<Grid<real>>)
    requires ValidGrids(preds)
    ensures TtaMergeIn(WITH_FLIP_UP_DOWN, preds) == TtaMerge(preds)
  {
    if |preds| == 8 {
      var all := Undone(preds);
      assert UndoAllIn(WITH_FLIP_UP_DOWN, preds, 0) == Success(all) by {
        UndoAllInWithFlip(preds, 0);
        assert all[0..] == all;
      }
    }
  }

  /** Merging the split of a grid gives the grid back. */
  lemma TtaRoundTrip(g: Grid<real>)
    requires g.Valid()
    ensures TtaMerge(TtaSplit(g)) == Success(g)
  {
    var preds := TtaSplit(g);
    forall k | 0 <= k < 8
      ensures Undone(preds)[k] == g
    {
      UndoSplit(g, k);
    }
    MeanOfCopies(Undone(preds), g);
  }

  /** The round trip, call by call: with an up-down flip available the
      split succeeds, and merging its eight variants gives the grid back. */
  lemma TtaRoundTripWithFlip(g: Grid<real>)
    requires g.Valid()
    ensures TtaSplitIn(WITH_FLIP_UP_DOWN, g).Success?
    ensures ValidGrids(TtaSplitIn(WITH_FLIP_UP_DOWN, g).value)
    ensures TtaMergeIn(WITH_FLIP_UP_DOWN, TtaSplitIn(WITH_FLIP_UP_DOWN, g).value) == Success(g)
  {
    TtaSplitWithFlip(g);
    TtaMergeWithFlip(TtaSplit(g));
    TtaRoundTrip(g);
  }

  /** The mean of copies of a grid is the grid. */
  lemma MeanOfCopies(rs: seq<Grid<real>>, g: Grid<real>)
    requires |rs| >= 1 && ValidGrids(rs) && g.Valid()
    requires forall k :: 0 <= k < |rs| ==> rs[k] == g
    ensures SameShape(rs) && Mean(rs) == g
  {
    var m := Mean(rs);
    forall i, j | 0 <= i < g.height && 0 <= j < g.width
      ensures m.At(i, j) == g.At(i, j)
    {
      MeanAt(rs, |rs|, i, j);
      CellSumOfCopies(rs, g, i, j);
      DivCancel(|rs| as real, g.At(i, j));
    }
    Extensionality(m, g);
  }

  /** `n` copies of a grid sum to `n` times each cell. */
  lemma {:induction false} CellSumOfCopies(rs: seq<Grid<real>>, g: Grid<real>, i: nat, j: nat)
    requires g.Valid() && i < g.height && j < g.width
    requires forall k :: 0 <= k < |rs| ==> rs[k] == g
    ensures Covers(rs, i, j) && CellSum(rs, i, j) == |rs| as real * g.At(i, j)
    decreases |rs|
  {
    if rs != [] {
      CellSumOfCopies(rs[1..], g, i, j);
    }
  }

  lemma DivCancel(n: real, v: real)
    requires n > 0.0
    ensures (n * v) / n == v
  {
  }
}
