/** The layout conversions of src/lib/onnx.ts: RGBA `ImageData` to an NHWC
    float tensor, the NHWC to NCHW permutation, and a float tensor (either
    layout, recognised from its shape) back to `ImageData`. */
module Onnx {
  import opened Common
  import opened Images
  import opened Tensors

  // ----- index arithmetic of the two layouts -----

  /** Channel-major (planar) index `k * P + p` of channel `k` of pixel `p`. */
  lemma PlanarIndex(k: int, p: int, c: int, P: int)
    requires 0 <= k < c && 0 <= p < P
    ensures 0 <= k * P + p < c * P && (k * P + p) / P == k && (k * P + p) % P == p
  {
    IndexBound(k, p, c, P);
    IndexDecode(k, p, P);
  }

  /** Pixel-major (interleaved) index `p * c + k` of channel `k` of pixel `p`. */
  lemma InterleavedIndex(p: int, k: int, P: int, c: int)
    requires 0 <= k < c && 0 <= p < P
    ensures 0 <= p * c + k < P * c && (p * c + k) / c == p && (p * c + k) % c == k
  {
    IndexBound(p, k, P, c);
    IndexDecode(p, k, c);
  }

  /** The first batch of a tensor fits in the whole buffer. */
  lemma FirstBatch(n: nat, m: nat)
    requires n >= 1
    ensures m <= n * m
  {
    MulLe(1, n, m);
  }

  // ----- imageDataToNHWC -----

  lemma Regroup(a: nat, b: nat, c: nat)
    ensures a * (b * c) == (a * b) * c
  {}

  /** `imageDataToNHWC`: the RGB bytes of every pixel divided by 255, alpha
      dropped, as a `[1, H, W, 3]` tensor: channel `c` of pixel `p` lands at
      `3p + c`. */
  function ImageDataToNHWC(img: ImageData): (t: Tensor)
    requires img.Valid()
    ensures t.Valid() && t.dims == [1, img.height, img.width, 3]
    ensures |t.data| == img.PixelCount() * 3
    ensures forall p, c :: 0 <= p < img.PixelCount() && 0 <= c < 3 ==>
      t.data[p * 3 + c] == Normalize(Channel(img.PixelAt(p), c))
  {
    var P := img.PixelCount();
    var data := seq(P * 3, e requires 0 <= e < P * 3 => Normalize(img.data[4 * (e / 3) + e % 3]));
    assert forall p, c :: 0 <= p < P && 0 <= c < 3 ==> data[p * 3 + c] == Normalize(Channel(img.PixelAt(p), c)) by {
      forall p, c | 0 <= p < P && 0 <= c < 3
        ensures data[p * 3 + c] == Normalize(Channel(img.PixelAt(p), c))
      {
        DivModUnique(p * 3 + c, 3, p, c);
      }
    }
    Product4(1, img.height, img.width, 3);
    Regroup(img.height, img.width, 3);
    Tensor([1, img.height, img.width, 3], data)
  }

  // ----- NHWCtoNCHW and its inverse -----

  /** Element `e` of the planar copy of an interleaved buffer: only the
      first batch (`e < c * P`) is copied, the rest of the output stays 0. */
  function PlanarAt(src: seq<real>, n: nat, P: nat, c: nat, e: nat): real
    requires |src| == n * (P * c) && e < n * (c * P)
  {
    if e < c * P then
      IndexEncode(e, c, P);
      var k, p := e / P, e % P;
      IndexBound(p, k, P, c);
      FirstBatch(n, P * c);
      src[p * c + k]
    else 0.0
  }

  /** Element `e` of the interleaved copy of a planar buffer (first batch only). */
  function InterleavedAt(src: seq<real>, n: nat, P: nat, c: nat, e: nat): real
    requires |src| == n * (c * P) && e < n * (P * c)
  {
    if e < P * c then
      IndexEncode(e, P, c);
      var p, k := e / c, e % c;
      IndexBound(k, p, c, P);
      FirstBatch(n, c * P);
      src[k * P + p]
    else 0.0
  }

  /** `NHWCtoNCHW`: the `[n, h, w, c]` tensor re-laid out as `[n, c, h, w]`
      (the element placement is stated by `NHWCtoNCHWAt` and
      `NHWCtoNCHWTail`). */
  function NHWCtoNCHW(t: Tensor): (r: Tensor)
    requires t.Valid() && |t.dims| == 4
    ensures r.Valid() && r.dims == [t.dims[0], t.dims[3], t.dims[1], t.dims[2]]
  {
    var n, h, w, c := t.dims[0], t.dims[1], t.dims[2], t.dims[3];
    var P := h * w;
    Size4(t);
    Regroup(h, w, c);
    Product4(n, c, h, w);
    Tensor([n, c, h, w], seq(n * (c * P), e requires 0 <= e < n * (c * P) => PlanarAt(t.data, n, P, c, e)))
  }

  /** Channel `k` of pixel `p = i * w + j` moves from `p * c + k` to
      `k * h * w + p`. */
  lemma NHWCtoNCHWAt(t: Tensor, k: nat, p: nat)
    requires t.Valid() && |t.dims| == 4 && t.dims[0] >= 1
    requires k < t.dims[3] && p < t.dims[1] * t.dims[2]
    ensures var P, c := t.dims[1] * t.dims[2], t.dims[3];
      k * P + p < |NHWCtoNCHW(t).data| && p * c + k < |t.data| &&
      NHWCtoNCHW(t).data[k * P + p] == t.data[p * c + k]
  {
    var n, h, w, c := t.dims[0], t.dims[1], t.dims[2], t.dims[3];
    var P := h * w;
    Size4(t);
    Regroup(h, w, c);
    Product4(n, c, h, w);
    PlanarIndex(k, p, c, P);
    InterleavedIndex(p, k, P, c);
    FirstBatch(n, c * P);
  }

  /** Batches after the first are not copied: that part of the output is zero. */
  lemma NHWCtoNCHWTail(t: Tensor, e: nat)
    requires t.Valid() && |t.dims| == 4
    requires t.dims[3] * (t.dims[1] * t.dims[2]) <= e < |NHWCtoNCHW(t).data|
    ensures NHWCtoNCHW(t).data[e] == 0.0
  {
  }

  /** The reverse permutation, `[n, c, h, w]` to `[n, h, w, c]` (first batch
      only); not part of the source, it is the inverse `NHWCtoNCHW` is
      checked against. */
  function NCHWtoNHWC(t: Tensor): (r: Tensor)
    requires t.Valid() && |t.dims| == 4
    ensures r.Valid() && r.dims == [t.dims[0], t.dims[2], t.dims[3], t.dims[1]]
  {
    var n, c, h, w := t.dims[0], t.dims[1], t.dims[2], t.dims[3];
    var P := h * w;
    Size4(t);
    Product4(n, h, w, c);
    Regroup(h, w, c);
    Tensor([n, h, w, c], seq(n * (P * c), e requires 0 <= e < n * (P * c) => InterleavedAt(t.data, n, P, c, e)))
  }

  lemma NCHWtoNHWCAt(t: Tensor, k: nat, p: nat)
    requires t.Valid() && |t.dims| == 4 && t.dims[0] >= 1
    requires k < t.dims[1] && p < t.dims[2] * t.dims[3]
    ensures var P, c := t.dims[2] * t.dims[3], t.dims[1];
      p * c + k < |NCHWtoNHWC(t).data| && k * P + p < |t.data| &&
      NCHWtoNHWC(t).data[p * c + k] == t.data[k * P + p]
  {
    var n, c, h, w := t.dims[0], t.dims[1], t.dims[2], t.dims[3];
    var P := h * w;
    Size4(t);
    Product4(n, h, w, c);
    Regroup(h, w, c);
    PlanarIndex(k, p, c, P);
    InterleavedIndex(p, k, P, c);
    FirstBatch(n, P * c);
  }

  /** For a single image (`n = 1`) `NHWCtoNCHW` loses nothing: the inverse
      permutation restores the tensor. */
  lemma NHWCtoNCHWRoundTrip(t: Tensor)
    requires t.Valid() && |t.dims| == 4 && t.dims[0] == 1
    ensures NCHWtoNHWC(NHWCtoNCHW(t)) == t
  {
    var u := NHWCtoNCHW(t);
    var v := NCHWtoNHWC(u);
    var h, w, c := t.dims[1], t.dims[2], t.dims[3];
    var P := h * w;
    Size4(t);
    Regroup(h, w, c);
    forall e | 0 <= e < |t.data|
      ensures v.data[e] == t.data[e]
    {
      IndexEncode(e, P, c);
      var p, k := e / c, e % c;
      NCHWtoNHWCAt(u, k, p);
      NHWCtoNCHWAt(t, k, p);
    }
    assert v.data == t.data;
    assert v.dims == t.dims;
  }

  /** ... and the permutation is onto: every single-image planar tensor is
      the image of an interleaved one. */
  lemma NCHWtoNHWCRoundTrip(t: Tensor)
    requires t.Valid() && |t.dims| == 4 && t.dims[0] == 1
    ensures NHWCtoNCHW(NCHWtoNHWC(t)) == t
  {
    var u := NCHWtoNHWC(t);
    var v := NHWCtoNCHW(u);
    var c, h, w := t.dims[1], t.dims[2], t.dims[3];
    var P := h * w;
    Size4(t);
    forall e | 0 <= e < |t.data|
      ensures v.data[e] == t.data[e]
    {
      IndexEncode(e, c, P);
      var k, p := e / P, e % P;
      NHWCtoNCHWAt(u, k, p);
      NCHWtoNHWCAt(t, k, p);
    }
    assert v.data == t.data;
    assert v.dims == t.dims;
  }

  // ----- tensorToImageData -----

  /** `dims.length === 4 && dims[3] === 3` */
  predicate IsNHWC(dims: seq<nat>) {
    |dims| == 4 && dims[3] == 3
  }

  /** `dims.length === 4 && dims[1] === 3` */
  predicate IsNCHW(dims: seq<nat>) {
    |dims| == 4 && dims[1] == 3
  }

  /** Pixel `p` of an interleaved RGB buffer; the loop only writes pixels
      it has a triple for, the others stay transparent black. */
  function InterleavedPixel(data: seq<real>, p: nat): Pixel {
    if p * 3 + 2 < |data| then
      Pixel(UnitToByte(data[p * 3]), UnitToByte(data[p * 3 + 1]), UnitToByte(data[p * 3 + 2]), 255)
    else Transparent
  }

  /** A planar read: past the end of the buffer the value is NaN, which a
      `Uint8ClampedArray` stores as 0. */
  function PlaneByte(data: seq<real>, i: nat): Byte {
    if i < |data| then UnitToByte(data[i]) else 0
  }

  /** Pixel `p` of a planar RGB buffer with planes of `P` values. */
  function PlanarPixel(data: seq<real>, P: nat, p: nat): Pixel {
    Pixel(PlaneByte(data, p), PlaneByte(data, P + p), PlaneByte(data, 2 * P + p), 255)
  }

  /** `tensorToImageData`: a `[1, h, w, 3]` tensor is read interleaved,
      otherwise a `[1, 3, h, w]` tensor is read planar, anything else is
      rejected. With a zero width or height the pixel array is empty, and
      `new ImageData(array, w, h)` throws an InvalidStateError for it. */
  function TensorToImageData(t: Tensor): (r: Result<ImageData, string>)
    requires t.Valid()
    ensures r.Success? <==>
      (IsNHWC(t.dims) && t.dims[1] >= 1 && t.dims[2] >= 1) ||
      (!IsNHWC(t.dims) && IsNCHW(t.dims) && t.dims[2] >= 1 && t.dims[3] >= 1)
    ensures r.Success? ==> r.value.Valid()
    ensures r.Success? && IsNHWC(t.dims) ==> r.value.height == t.dims[1] && r.value.width == t.dims[2]
    ensures r.Success? && !IsNHWC(t.dims) ==> r.value.height == t.dims[2] && r.value.width == t.dims[3]
  {
    if IsNHWC(t.dims) then
      var h, w := t.dims[1], t.dims[2];
      if w == 0 || h == 0 then Failure("InvalidStateError")
      else Success(FromPixels(w, h, seq(h * w, p requires 0 <= p < h * w => InterleavedPixel(t.data, p))))
    else if IsNCHW(t.dims) then
      var h, w := t.dims[2], t.dims[3];
      if w == 0 || h == 0 then Failure("InvalidStateError")
      else Success(FromPixels(w, h, seq(h * w, p requires 0 <= p < h * w => PlanarPixel(t.data, h * w, p))))
    else
      Failure("Unsupported tensor shape")
  }

  /** An interleaved tensor with at least one image: pixel `p` is the
      clamped, rounded triple at `3p`, fully opaque. */
  lemma TensorToImageDataNHWC(t: Tensor, p: nat)
    requires t.Valid() && IsNHWC(t.dims) && t.dims[0] >= 1 && t.dims[1] >= 1 && t.dims[2] >= 1
    requires p < t.dims[1] * t.dims[2]
    ensures TensorToImageData(t).Success?
    ensures p * 3 + 2 < |t.data|
    ensures TensorToImageData(t).value.PixelAt(p) ==
      Pixel(UnitToByte(t.data[p * 3]), UnitToByte(t.data[p * 3 + 1]), UnitToByte(t.data[p * 3 + 2]), 255)
  {
    var n, h, w := t.dims[0], t.dims[1], t.dims[2];
    assert p * 3 + 2 < |t.data| by {
      Size4(t);
      Regroup(h, w, 3);
      FirstBatch(n, (h * w) * 3);
    }
  }

  /** A planar tensor with at least one image holds its three planes. */
  lemma PlanesFit(t: Tensor)
    requires t.Valid() && IsNCHW(t.dims) && t.dims[0] >= 1
    ensures 3 * (t.dims[2] * t.dims[3]) <= |t.data|
  {
    Size4(t);
    FirstBatch(t.dims[0], 3 * (t.dims[2] * t.dims[3]));
  }

  /** A planar tensor with at least one image: pixel `p` takes its three
      channels from the three planes, fully opaque. */
  lemma TensorToImageDataNCHW(t: Tensor, p: nat)
    requires t.Valid() && !IsNHWC(t.dims) && IsNCHW(t.dims) && t.dims[0] >= 1 && t.dims[2] >= 1 && t.dims[3] >= 1
    requires p < t.dims[2] * t.dims[3]
    ensures TensorToImageData(t).Success?
    ensures 2 * (t.dims[2] * t.dims[3]) + p < |t.data|
    ensures var P := t.dims[2] * t.dims[3];
      TensorToImageData(t).value.PixelAt(p) ==
        Pixel(UnitToByte(t.data[p]), UnitToByte(t.data[P + p]), UnitToByte(t.data[2 * P + p]), 255)
  {
    PlanesFit(t);
    var P := t.dims[2] * t.dims[3];
    assert TensorToImageData(t).value.PixelAt(p) == PlanarPixel(t.data, P, p);
  }

  /** Packing an image and unpacking the tensor gives the image back with
      every pixel made opaque. */
  lemma PackUnpackRoundTrip(img: ImageData)
    requires img.Valid()
    ensures TensorToImageData(ImageDataToNHWC(img)).Success?
    ensures var out := TensorToImageData(ImageDataToNHWC(img)).value;
      out.width == img.width && out.height == img.height &&
      forall p :: 0 <= p < img.PixelCount() ==> out.PixelAt(p) == img.PixelAt(p).(a := 255)
  {
    var t := ImageDataToNHWC(img);
    var out := TensorToImageData(t).value;
    forall p | 0 <= p < img.PixelCount()
      ensures out.PixelAt(p) == img.PixelAt(p).(a := 255)
    {
      TensorToImageDataNHWC(t, p);
      var px := img.PixelAt(p);
      assert t.data[p * 3 + 0] == Normalize(Channel(px, 0));
      assert t.data[p * 3 + 1] == Normalize(Channel(px, 1));
      assert t.data[p * 3 + 2] == Normalize(Channel(px, 2));
      NormalizeRoundTrip(px.r);
      NormalizeRoundTrip(px.g);
      NormalizeRoundTrip(px.b);
    }
  }

  /** Unpacking is layout-independent for single images whose width is not
      3: the planar copy decodes to the same `ImageData`. */
  lemma LayoutRoundTrip(t: Tensor)
    requires t.Valid() && |t.dims| == 4 && t.dims[0] == 1 && t.dims[3] == 3 && t.dims[2] != 3
    ensures TensorToImageData(NHWCtoNCHW(t)) == TensorToImageData(t)
  {
    var u := NHWCtoNCHW(t);
    var h, w := t.dims[1], t.dims[2];
    if w >= 1 && h >= 1 {
      var P := h * w;
      var a := seq(P, p requires 0 <= p < P => InterleavedPixel(t.data, p));
      var b := seq(P, p requires 0 <= p < P => PlanarPixel(u.data, P, p));
      forall p | 0 <= p < P
        ensures a[p] == b[p]
      {
        NHWCtoNCHWAt(t, 0, p);
        NHWCtoNCHWAt(t, 1, p);
        NHWCtoNCHWAt(t, 2, p);
      }
      assert a == b;
    }
  }

  /** With width 3 the shapes `[1, h, 3, 3]` and `[1, 3, h, 3]` collide:
      a one-row, three-pixel image converted to planar layout is read back
      as a three-row, one-pixel image. */
  lemma LayoutAmbiguityAtWidth3()
    ensures var t := Tensor([1, 1, 3, 3], seq(9, _ => 0.0));
      t.Valid() &&
      TensorToImageData(t).Success? && TensorToImageData(t).value.width == 3 &&
      TensorToImageData(NHWCtoNCHW(t)).Success? && TensorToImageData(NHWCtoNCHW(t)).value.width == 1
  {
    var t := Tensor([1, 1, 3, 3], seq(9, _ => 0.0));
    Product4(1, 1, 3, 3);
    Size4(t);
    assert NHWCtoNCHW(t).dims == [1, 3, 1, 3];
  }
}
