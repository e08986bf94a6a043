/** Shared vocabulary of the upscaler model: failure-compatible results,
    integer helpers, bytes, and the rounding rules of JavaScript numbers and
    of `Uint8ClampedArray`, stated exactly over `real`. */
module Common {

  /** A value or an error; usable with `:-`. */
  datatype Result<+T, +E> = Success(value: T) | Failure(error: E) {
    predicate IsFailure() {
      Failure?
    }

    function PropagateFailure<U>(): Result<U, E>
      requires Failure?
    {
      Failure(error)
    }

    function Extract(): T
      requires Success?
    {
      value
    }
  }

  datatype Option<+T> = None | Some(value: T)

  /** One element of a `Uint8ClampedArray`. */
  type Byte = b: int | 0 <= b <= 255

  function Min(a: int, b: int): (r: int)
    ensures r <= a && r <= b && (r == a || r == b)
  {
    if a <= b then a else b
  }

  function Max(a: int, b: int): (r: int)
    ensures r >= a && r >= b && (r == a || r == b)
  {
    if a >= b then a else b
  }

  function Clamp(x: int, lo: int, hi: int): (r: int)
    requires lo <= hi
    ensures lo <= r <= hi
    ensures lo <= x <= hi ==> r == x
    ensures x < lo ==> r == lo
    ensures x > hi ==> r == hi
  {
    if x < lo then lo else if x > hi then hi else x
  }

  function ClampReal(x: real, lo: real, hi: real): (r: real)
    requires lo <= hi
    ensures lo <= r <= hi
    ensures lo <= x <= hi ==> r == x
    ensures x < lo ==> r == lo
    ensures x > hi ==> r == hi
  {
    if x < lo then lo else if x > hi then hi else x
  }

  /** Math.ceil(a / b) for a non-negative numerator and a positive divisor. */
  function CeilDiv(a: nat, b: nat): (r: nat)
    requires b > 0
    ensures (r - 1) * b < a <= r * b
  {
    var q := a / b;
    if a % b == 0 then (assert a == q * b; q) else (assert a == q * b + a % b; q + 1)
  }

  /** A non-empty extent needs at least one step. */
  lemma CeilDivPos(a: nat, b: nat)
    requires a >= 1 && b > 0
    ensures CeilDiv(a, b) >= 1
  {
  }

  /** Math.round: the nearest integer, halves rounded towards +infinity. */
  function Round(x: real): (r: int)
    ensures r as real - 0.5 <= x < r as real + 0.5
  {
    (x + 0.5).Floor
  }

  /** Storing a number into a `Uint8ClampedArray`: clamp to [0, 255], then
      round to nearest with ties to even. */
  function ToUint8Clamp(x: real): (r: Byte)
    ensures x <= 0.0 ==> r == 0
    ensures x >= 255.0 ==> r == 255
    ensures 0.0 < x < 255.0 ==> r as real - 0.5 <= x <= r as real + 0.5
  {
    if x <= 0.0 then 0
    else if x >= 255.0 then 255
    else
      var f := x.Floor;
      var d := x - f as real;
      if d < 0.5 then f
      else if d > 0.5 then f + 1
      else if f % 2 == 0 then f else f + 1
  }

  /** A colour byte mapped to [0, 1] (the `/ 255` of every packing loop). */
  function Normalize(b: int): real {
    b as real / 255.0
  }

  /** `Math.max(0, Math.min(255, Math.round(v * 255)))`, the unpacking used by
      onnx.ts and the worker. */
  function UnitToByte(v: real): (r: Byte)
    ensures 0.0 <= v <= 1.0 ==> r == Round(v * 255.0)
    ensures v <= 0.0 ==> r == 0
    ensures v >= 1.0 ==> r == 255
  {
    Clamp(Round(v * 255.0), 0, 255)
  }

  /** `Math.round(Math.max(0, Math.min(1, v)) * 255)`, the unpacking used by
      ortRunner.ts: clamping before rounding. */
  function UnitToByteClampFirst(v: real): (r: int)
    ensures 0 <= r <= 255
  {
    Round(ClampReal(v, 0.0, 1.0) * 255.0)
  }

  /** The two unpacking orders (clamp-then-round, round-then-clamp) agree on
      every input. */
  lemma UnpackOrdersAgree(v: real)
    ensures UnitToByteClampFirst(v) == UnitToByte(v)
  {
    if v < 0.0 {
      assert Round(v * 255.0) <= 0;
    } else if v > 1.0 {
      assert Round(v * 255.0) >= 255;
    }
  }

  /** Normalising a byte and unpacking it gives the byte back. */
  lemma NormalizeRoundTrip(b: Byte)
    ensures UnitToByte(Normalize(b)) == b
  {
    assert Normalize(b) * 255.0 == b as real;
  }

  // ----- integer arithmetic the index formulas need -----

  lemma MulNonneg(x: int, y: int)
    requires x >= 0 && y >= 0
    ensures x * y >= 0
  {}

  lemma MulDistrib(x: int, y: int, z: int)
    ensures (x + y) * z == x * z + y * z
  {}

  lemma MulLe(x: int, y: int, z: int)
    requires x <= y && z >= 0
    ensures x * z <= y * z
  {
    MulDistrib(x, y - x, z);
    MulNonneg(y - x, z);
  }

  lemma DivModUnique(a: int, b: int, q: int, r: int)
    requires b > 0 && 0 <= r < b && a == q * b + r
    ensures a / b == q && a % b == r
  {
    var q', r' := a / b, a % b;
    MulDistrib(q, -q', b);
    if q - q' >= 1 {
      MulLe(1, q - q', b);
    } else if q - q' <= -1 {
      MulLe(q - q', -1, b);
    }
  }

  /** Row-major index `i * w + j` of a cell inside an `h x w` block. */
  lemma IndexBound(i: int, j: int, h: int, w: int)
    requires 0 <= i < h && 0 <= j < w
    ensures 0 <= i * w + j < h * w
  {
    MulNonneg(i, w);
    MulLe(i + 1, h, w);
  }

  /** Decoding a row-major index recovers its row and column. */
  lemma IndexDecode(i: int, j: int, w: int)
    requires 0 <= j < w
    ensures (i * w + j) / w == i && (i * w + j) % w == j
  {
    DivModUnique(i * w + j, w, i, j);
  }

  /** Every index below `h * w` is the row-major index of some cell. */
  lemma IndexEncode(k: int, h: nat, w: int)
    requires 0 <= k < h * w
    ensures w > 0 && 0 <= k / w < h && k == (k / w) * w + k % w && 0 <= k % w < w
  {
    if w <= 0 {
      MulLe(0, h, -w);
      assert false;
    }
    if k / w >= h {
      MulLe(h, k / w, w);
      assert false;
    }
    if k / w < 0 {
      MulLe(k / w, -1, w);
      assert false;
    }
  }
}
