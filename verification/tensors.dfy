/** Float tensors as the ONNX runtime sees them: a shape and a flat,
    row-major buffer whose length is the product of the shape. */
module Tensors {

  /** The number of elements of a tensor of shape `dims`. */
  function Product(dims: seq<nat>): nat {
    if dims == [] then 1 else dims[0] * Product(dims[1..])
  }

  lemma Product4(a: nat, b: nat, c: nat, d: nat)
    ensures Product([a, b, c, d]) == a * (b * (c * d))
  {
    assert [a, b, c, d][1..] == [b, c, d];
    assert [b, c, d][1..] == [c, d];
    assert [c, d][1..] == [d];
    assert [d][1..] == [];
    assert Product([d]) == d;
    assert Product([c, d]) == c * d;
    assert Product([b, c, d]) == b * (c * d);
  }

  datatype Tensor = Tensor(dims: seq<nat>, data: seq<real>) {
    /** `new ort.Tensor('float32', data, dims)` accepts only a buffer of
        exactly the shape's size. */
    predicate Valid() {
      |data| == Product(dims)
    }
  }

  /** What an inference session hands back: the runtime only builds
      tensors whose buffer matches their shape. */
  type ValidTensor = t: Tensor | t.Valid() witness Tensor([], [0.0])

  /** The buffer length of a valid four-dimensional tensor. */
  lemma Size4(t: Tensor)
    requires t.Valid() && |t.dims| == 4
    ensures |t.data| == t.dims[0] * (t.dims[1] * (t.dims[2] * t.dims[3]))
  {
    assert t.dims == [t.dims[0], t.dims[1], t.dims[2], t.dims[3]];
    Product4(t.dims[0], t.dims[1], t.dims[2], t.dims[3]);
  }

  /** Where the channel axis of an image tensor sits. */
  datatype Layout = NHWC | NCHW
}
