/**
 * The tensor values of src/tensor.rs: an immutable `Tensor` (flat buffer, shape,
 * strides), the mutable `VecTensor` that operations fill before freezing it, indexing,
 * rank padding (`unsqueeze_`), axis swap (`transpose`) and the triple-loop `matmul`.
 *
 * Element values are `real`: rounding, infinities and NaN of `f64` are not modelled.
 */
module Tensors {
  import opened Shapes

  /** `Tensor`: the buffer behind the `Rc` is shared and never written, so a value. */
  datatype Tensor = Tensor(data: seq<real>, shape: seq<nat>, stride: seq<nat>)

  /**
   * What every tensor built by the engine satisfies: one stride per axis, one element
   * per coordinate, and every coordinate within the shape lands inside the buffer.
   * Row-major strides satisfy it, and so do the permuted and padded strides that
   * `transpose` and `unsqueeze_` produce.
   */
  ghost predicate Valid(t: Tensor)
  {
    && |t.stride| == |t.shape|
    && |t.data| == Prod(t.shape)
    && forall c :: InBounds(c, t.shape) ==> FlatIdx(c, t.stride) < |t.data|
  }

  /**
   * `Tensor::at`: asserts that there is one index per axis, then reads the buffer at
   * the flat offset (which panics when the offset is past the end).
   */
  function At(t: Tensor, indices: seq<nat>): real
    requires |indices| == |t.shape|
    requires FlatIdx(indices, t.stride) < |t.data|
  {
    t.data[FlatIdx(indices, t.stride)]
  }

  /** A buffer of the right length with row-major strides is a valid tensor. */
  lemma RowMajorValid(data: seq<real>, shape: seq<nat>)
    requires |data| == Prod(shape)
    ensures Valid(Tensor(data, shape, PostfixProd(shape)))
  {
    forall c | InBounds(c, shape) ensures FlatIdx(c, PostfixProd(shape)) < |data| {
      FlatIdxBound(c, shape);
    }
  }

  /** `Tensor::from(x)`: the rank-0 tensor holding `x`. */
  function FromScalar(x: real): (t: Tensor)
    ensures Valid(t) && t.shape == [] && At(t, []) == x
  {
    assert forall c :: InBounds(c, []) ==> c == [];
    Tensor([x], [], [])
  }

  /** The frozen result of `VecTensor::zeroes(shape)`. */
  function ZeroTensor(shape: seq<nat>): (t: Tensor)
    ensures Valid(t) && t.shape == shape && t.stride == PostfixProd(shape)
    ensures forall c :: InBounds(c, shape) ==> At(t, c) == 0.0
  {
    RowMajorValid(seq(Prod(shape), _ => 0.0), shape);
    Tensor(seq(Prod(shape), _ => 0.0), shape, PostfixProd(shape))
  }

  /** `Tensor::ones(shape)`: every element 1. */
  function Ones(shape: seq<nat>): (t: Tensor)
    ensures Valid(t) && t.shape == shape
    ensures forall c :: InBounds(c, shape) ==> At(t, c) == 1.0
  {
    RowMajorValid(seq(Prod(shape), _ => 1.0), shape);
    Tensor(seq(Prod(shape), _ => 1.0), shape, PostfixProd(shape))
  }

  /** `n_elements`: the product of the shape. */
  function NElements(t: Tensor): (n: nat)
    requires Valid(t)
    ensures n == |t.data|
  {
    Prod(t.shape)
  }

  /** `size`: the shape. */
  function Size(t: Tensor): seq<nat>
  {
    t.shape
  }

  /** `Tensor::gt(t, k)`: 1 where the element exceeds `k`, 0 elsewhere, in the same layout. */
  function Gt(t: Tensor, k: real): (m: Tensor)
    requires Valid(t)
    ensures Valid(m) && m.shape == t.shape
    ensures forall c :: InBounds(c, t.shape) ==> At(m, c) == if At(t, c) > k then 1.0 else 0.0
  {
    Tensor(seq(|t.data|, i requires 0 <= i < |t.data| => if t.data[i] > k then 1.0 else 0.0), t.shape, t.stride)
  }

  /** `Tensor::relu(t)`: the element where it is positive, 0 elsewhere. */
  function Relu(t: Tensor): (u: Tensor)
    requires Valid(t)
    ensures Valid(u) && u.shape == t.shape
    ensures forall c :: InBounds(c, t.shape) ==> At(u, c) == if At(t, c) > 0.0 then At(t, c) else 0.0
  {
    Tensor(seq(|t.data|, i requires 0 <= i < |t.data| => if t.data[i] > 0.0 then t.data[i] else 0.0), t.shape, t.stride)
  }

  function Sum(s: seq<real>): real
  {
    if |s| == 0 then 0.0 else s[0] + Sum(s[1..])
  }

  /** Division of reals, with the `f64` infinities and NaN of a zero divisor replaced by 0. */
  function RealDiv(a: real, b: real): real
  {
    if b == 0.0 then 0.0 else a / b
  }

  /** `Tensor::mean(t)`: the rank-0 tensor holding the sum of the elements over their count. */
  function Mean(t: Tensor): (m: Tensor)
    requires Valid(t)
    ensures Valid(m) && m.shape == []
    ensures |t.data| > 0 ==> At(m, []) * (|t.data| as real) == Sum(t.data)
  {
    FromScalar(RealDiv(Sum(t.data), |t.data| as real))
  }

  // ---------------------------------------------------------------------------
  // VecTensor

  /** `VecTensor`: a tensor under construction whose buffer is written through `at_mut`. */
  class VecTensor {
    const data: array<real>
    const shape: seq<nat>
    const stride: seq<nat>

    /** Row-major strides over a buffer of one element per coordinate, so every coordinate can be written. */
    ghost predicate Valid()
    {
      && stride == PostfixProd(shape) && data.Length == Prod(shape)
      && forall c :: InBounds(c, shape) ==> FlatIdx(c, stride) < data.Length
    }

    /** `VecTensor::zeroes`: a zero buffer of `Prod(shape)` elements with row-major strides. */
    constructor Zeroes(shape: seq<nat>)
      ensures Valid()
      ensures this.shape == shape && stride == PostfixProd(shape)
      ensures fresh(data) && data.Length == Prod(shape)
      ensures ToTensor() == ZeroTensor(shape)
    {
      var capacity := Prod(shape);
      var st := GetPostfixProd(shape);
      this.shape := shape;
      stride := st;
      data := new real[capacity](_ => 0.0);
      new;
      assert data[..] == seq(capacity, _ => 0.0);
      forall c | InBounds(c, shape) ensures FlatIdx(c, stride) < data.Length {
        FlatIdxBound(c, shape);
      }
    }

    /** `*self.at_mut(indices) = v`: writes one element; an offset past the end panics. */
    method AtMut(indices: seq<nat>, v: real)
      requires FlatIdx(indices, stride) < data.Length
      modifies data
      ensures data[FlatIdx(indices, stride)] == v
      ensures forall o :: 0 <= o < data.Length && o != FlatIdx(indices, stride) ==> data[o] == old(data[o])
    {
      data[FlatIdx(indices, stride)] := v;
    }

    /** `to_tensor`: freezes the buffer. */
    function ToTensor(): Tensor
      reads data
    {
      Tensor(data[..], shape, stride)
    }
  }

  // ---------------------------------------------------------------------------
  // unsqueeze_

  /**
   * `unsqueeze_(dim)`: inserts an axis of size 1 with stride 1 at position `dim`
   * (`Vec::insert` panics past the end). The source updates a local copy in place;
   * here the updated value is returned.
   */
  function Unsqueeze(t: Tensor, dim: nat): Tensor
    requires dim <= |t.shape| && dim <= |t.stride|
  {
    Tensor(t.data, t.shape[..dim] + [1] + t.shape[dim..], t.stride[..dim] + [1] + t.stride[dim..])
  }

  /** The coordinate `c` with index 0 inserted at `dim`. */
  function InsertZero(c: seq<nat>, dim: nat): seq<nat>
    requires dim <= |c|
  {
    c[..dim] + [0] + c[dim..]
  }

  lemma {:induction false} FlatIdxInsertZero(c: seq<nat>, st: seq<nat>, dim: nat)
    requires |c| == |st| && dim <= |c|
    ensures FlatIdx(InsertZero(c, dim), st[..dim] + [1] + st[dim..]) == FlatIdx(c, st)
  {
    var c', st' := InsertZero(c, dim), st[..dim] + [1] + st[dim..];
    if dim == 0 {
      assert c'[1..] == c && st'[1..] == st;
    } else {
      assert c'[1..] == InsertZero(c[1..], dim - 1);
      assert st'[1..] == st[1..][..dim - 1] + [1] + st[1..][dim - 1..];
      FlatIdxInsertZero(c[1..], st[1..], dim - 1);
    }
  }

  /** Unsqueezing keeps the tensor valid and reads the old element at the widened coordinate. */
  lemma UnsqueezeAt(t: Tensor, dim: nat)
    requires Valid(t) && dim <= |t.shape|
    ensures Valid(Unsqueeze(t, dim))
    ensures Unsqueeze(t, dim).shape == t.shape[..dim] + [1] + t.shape[dim..]
    ensures forall c :: InBounds(c, t.shape) ==>
      InBounds(InsertZero(c, dim), Unsqueeze(t, dim).shape) && At(Unsqueeze(t, dim), InsertZero(c, dim)) == At(t, c)
  {
    var u := Unsqueeze(t, dim);
    assert t.shape == t.shape[..dim] + t.shape[dim..];
    ProdAppend(t.shape[..dim] + [1], t.shape[dim..]);
    ProdAppend(t.shape[..dim], [1]);
    ProdAppend(t.shape[..dim], t.shape[dim..]);
    forall c | InBounds(c, t.shape)
      ensures InBounds(InsertZero(c, dim), u.shape) && FlatIdx(InsertZero(c, dim), u.stride) == FlatIdx(c, t.stride)
    {
      UnsqueezeCoord(t, dim, c);
    }
    forall c' | InBounds(c', u.shape) ensures FlatIdx(c', u.stride) < |u.data| {
      UnsqueezeInside(t, dim, c');
    }
  }

  lemma UnsqueezeCoord(t: Tensor, dim: nat, c: seq<nat>)
    requires Valid(t) && dim <= |t.shape| && InBounds(c, t.shape)
    ensures InBounds(InsertZero(c, dim), Unsqueeze(t, dim).shape)
    ensures FlatIdx(InsertZero(c, dim), Unsqueeze(t, dim).stride) == FlatIdx(c, t.stride)
  {
    var u := Unsqueeze(t, dim);
    FlatIdxInsertZero(c, t.stride, dim);
    var c' := InsertZero(c, dim);
    forall k | 0 <= k < |c'| ensures c'[k] < u.shape[k] {
      if k < dim {
        assert c'[k] == c[k] && u.shape[k] == t.shape[k];
      } else if k > dim {
        assert c'[k] == c[k - 1] && u.shape[k] == t.shape[k - 1];
      }
    }
  }

  /** Every coordinate of the unsqueezed shape has 0 on the new axis and comes from one of the old shape. */
  lemma UnsqueezeInside(t: Tensor, dim: nat, c': seq<nat>)
    requires Valid(t) && dim <= |t.shape| && InBounds(c', Unsqueeze(t, dim).shape)
    ensures FlatIdx(c', Unsqueeze(t, dim).stride) < |t.data|
  {
    var u := Unsqueeze(t, dim);
    var c := c'[..dim] + c'[dim + 1..];
    assert c'[dim] == 0 by { assert c'[dim] < u.shape[dim]; }
    assert InsertZero(c, dim) == c';
    assert InBounds(c, t.shape) by {
      forall k | 0 <= k < |c| ensures c[k] < t.shape[k] {
        if k < dim {
          assert c[k] == c'[k] && u.shape[k] == t.shape[k];
        } else {
          assert c[k] == c'[k + 1] && u.shape[k + 1] == t.shape[k];
        }
      }
    }
    FlatIdxInsertZero(c, t.stride, dim);
  }

  // ---------------------------------------------------------------------------
  // transpose

  /** The sequence with entries `a` and `b` exchanged. */
  function Swap<T>(s: seq<T>, a: nat, b: nat): seq<T>
    requires a < |s| && b < |s|
  {
    s[a := s[b]][b := s[a]]
  }

  /**
   * `transpose(a, b)`: a copy sharing the buffer, with shape and stride entries `a`
   * and `b` exchanged (indexing past the rank panics).
   */
  function Transpose(t: Tensor, a: nat, b: nat): (u: Tensor)
    requires a < |t.shape| && b < |t.shape| && a < |t.stride| && b < |t.stride|
    ensures u.data == t.data
    ensures |u.shape| == |t.shape| && |u.stride| == |t.stride|
    ensures u.shape[a] == t.shape[b] && u.shape[b] == t.shape[a]
    ensures u.stride[a] == t.stride[b] && u.stride[b] == t.stride[a]
    ensures forall k :: 0 <= k < |t.shape| && k != a && k != b ==> u.shape[k] == t.shape[k]
    ensures forall k :: 0 <= k < |t.stride| && k != a && k != b ==> u.stride[k] == t.stride[k]
  {
    Tensor(t.data, Swap(t.shape, a, b), Swap(t.stride, a, b))
  }

  lemma SwapSymmetric<T>(s: seq<T>, a: nat, b: nat)
    requires a < |s| && b < |s|
    ensures Swap(s, a, b) == Swap(s, b, a)
  {
  }

  /** Replacing one index and its stride changes the offset by the difference of their products. */
  lemma {:induction false} FlatIdxUpdate(c: seq<nat>, st: seq<nat>, k: nat, x: nat, y: nat)
    requires |c| == |st| && k < |c|
    ensures FlatIdx(c[k := x], st[k := y]) + c[k] * st[k] == FlatIdx(c, st) + x * y
  {
    if k == 0 {
      assert c[k := x][1..] == c[1..] && st[k := y][1..] == st[1..];
    } else {
      assert c[k := x][1..] == c[1..][k - 1 := x] && st[k := y][1..] == st[1..][k - 1 := y];
      FlatIdxUpdate(c[1..], st[1..], k - 1, x, y);
    }
  }

  /** Replacing one size: the two products scale by the replaced sizes. */
  lemma {:induction false} ProdUpdate(s: seq<nat>, k: nat, x: nat, y: nat)
    requires k < |s|
    ensures Prod(s[k := x]) * y == Prod(s[k := y]) * x
  {
    if k == 0 {
      assert s[k := x][1..] == s[1..] && s[k := y][1..] == s[1..];
    } else {
      assert s[k := x][1..] == s[1..][k - 1 := x] && s[k := y][1..] == s[1..][k - 1 := y];
      ProdUpdate(s[1..], k - 1, x, y);
      var p, q := Prod(s[1..][k - 1 := x]), Prod(s[1..][k - 1 := y]);
      assert Prod(s[k := x]) == s[0] * p && Prod(s[k := y]) == s[0] * q;
      ScaleBoth(s[0], p, q, x, y);
    }
  }

  lemma ScaleBoth(a: nat, p: nat, q: nat, x: nat, y: nat)
    requires p * y == q * x
    ensures (a * p) * y == (a * q) * x
  {
    assert (a * p) * y == a * (p * y);
    assert (a * q) * x == a * (q * x);
  }

  /** Exchanging the same two positions of the indices and of the strides keeps the offset. */
  lemma {:induction false} FlatIdxSwap(c: seq<nat>, st: seq<nat>, a: nat, b: nat)
    requires |c| == |st| && a < |c| && b < |c|
    ensures FlatIdx(Swap(c, a, b), Swap(st, a, b)) == FlatIdx(c, st)
  {
    if a != b {
      var c1, st1 := c[a := c[b]], st[a := st[b]];
      FlatIdxUpdate(c, st, a, c[b], st[b]);
      FlatIdxUpdate(c1, st1, b, c[a], st[a]);
      assert c1[b] * st1[b] == c[b] * st[b];
      assert Swap(c, a, b) == c1[b := c[a]] && Swap(st, a, b) == st1[b := st[a]];
    } else {
      assert Swap(c, a, b) == c && Swap(st, a, b) == st;
    }
  }

  lemma {:induction false} ProdSwap(s: seq<nat>, a: nat, b: nat)
    requires a < |s| && b < |s|
    ensures Prod(Swap(s, a, b)) == Prod(s)
  {
    if a > b {
      SwapSymmetric(s, a, b);
      ProdSwap(s, b, a);
    } else if a < b {
      if a > 0 {
        assert Swap(s, a, b)[1..] == Swap(s[1..], a - 1, b - 1);
        assert Swap(s, a, b)[0] == s[0];
        ProdSwap(s[1..], a - 1, b - 1);
      } else {
        var t := s[1..];
        assert Swap(s, a, b)[1..] == t[b - 1 := s[0]];
        ProdUpdate(t, b - 1, s[0], s[b]);
        assert t[b - 1 := s[b]] == t;
        assert Swap(s, a, b)[0] == s[b];
        assert Prod(Swap(s, a, b)) == s[b] * Prod(t[b - 1 := s[0]]);
        assert Prod(s) == s[0] * Prod(t);
      }
    } else {
      assert Swap(s, a, b) == s;
    }
  }

  lemma SwapInBounds(c: seq<nat>, shape: seq<nat>, a: nat, b: nat)
    requires InBounds(c, shape) && a < |shape| && b < |shape|
    ensures InBounds(Swap(c, a, b), Swap(shape, a, b))
  {
  }

  /**
   * Transposing keeps the tensor valid, and the element at a coordinate with the two
   * indices exchanged is the original element: `at(t.transpose(0, 1), [j, i]) == at(t, [i, j])`.
   */
  lemma TransposeAt(t: Tensor, a: nat, b: nat)
    requires Valid(t) && a < |t.shape| && b < |t.shape|
    ensures Valid(Transpose(t, a, b))
    ensures forall c :: InBounds(c, t.shape) ==>
      InBounds(Swap(c, a, b), Transpose(t, a, b).shape) && At(Transpose(t, a, b), Swap(c, a, b)) == At(t, c)
  {
    var u := Transpose(t, a, b);
    ProdSwap(t.shape, a, b);
    forall c | InBounds(c, t.shape)
      ensures InBounds(Swap(c, a, b), u.shape) && FlatIdx(Swap(c, a, b), u.stride) == FlatIdx(c, t.stride)
    {
      SwapInBounds(c, t.shape, a, b);
      FlatIdxSwap(c, t.stride, a, b);
    }
    forall c' | InBounds(c', u.shape) ensures FlatIdx(c', u.stride) < |u.data| {
      var c := Swap(c', a, b);
      assert Swap(u.shape, a, b) == t.shape;
      SwapInBounds(c', u.shape, a, b);
      assert Swap(c, a, b) == c';
      FlatIdxSwap(c, t.stride, a, b);
    }
  }

  // ---------------------------------------------------------------------------
  // matmul

  /** What `matmul` asserts, beside the validity of both operands. */
  ghost predicate MatMulReady(l: Tensor, r: Tensor)
  {
    Valid(l) && Valid(r) && |l.shape| == 2 && |r.shape| == 2 && l.shape[1] == r.shape[0]
  }

  /** The accumulator of entry (i, j) after `k` steps of the inner loop: sum of `l + r` as written. */
  function MatMulSum(l: Tensor, r: Tensor, i: nat, j: nat, k: nat): real
    requires MatMulReady(l, r) && i < l.shape[0] && j < r.shape[1] && k <= l.shape[1]
  {
    if k == 0 then 0.0
    else
      assert InBounds([i, k - 1], l.shape) && InBounds([k - 1, j], r.shape);
      MatMulSum(l, r, i, j, k - 1) + (At(l, [i, k - 1]) + At(r, [k - 1, j]))
  }

  /** The row-major [h, w] result of `matmul`, entry (i, j) being the full inner sum. */
  function MatMulSpec(l: Tensor, r: Tensor): (t: Tensor)
    requires MatMulReady(l, r)
    ensures |t.data| == l.shape[0] * r.shape[1]
    ensures t.shape == [l.shape[0], r.shape[1]] && t.stride == PostfixProd(t.shape)
  {
    var h, w, n := l.shape[0], r.shape[1], l.shape[1];
    Tensor(
      seq(h * w, o requires 0 <= o < h * w => OffsetBounds(o, h, w); MatMulSum(l, r, o / w, o % w, n)),
      [h, w], PostfixProd([h, w]))
  }

  lemma RowMajor2(h: nat, w: nat, i: nat, j: nat)
    ensures PostfixProd([h, w]) == [w, 1]
    ensures FlatIdx([i, j], [w, 1]) == i * w + j
    ensures Prod([h, w]) == h * w
  {
    assert [h, w][1..] == [w];
    assert [h, w][2..] == [];
    assert [w][1..] == [];
    assert Prod([w]) == w;
    assert PostfixProd([h, w])[0] == w && PostfixProd([h, w])[1] == 1;
    assert [i, j][1..] == [j];
    assert [w, 1][1..] == [1];
    assert [j][1..] == [] && [1][1..] == [];
    assert FlatIdx([j], [1]) == j;
    assert Prod([h, w]) == h * Prod([w]);
  }

  /** Entry (i, j) of the [h, w] result sits at offset i * w + j, past the first i rows. */
  lemma MatMulEntry(l: Tensor, r: Tensor, i: nat, j: nat)
    requires MatMulReady(l, r) && i < l.shape[0] && j < r.shape[1]
    ensures FlatIdx([i, j], PostfixProd([l.shape[0], r.shape[1]])) == i * r.shape[1] + j
    ensures i * r.shape[1] + j < l.shape[0] * r.shape[1]
    ensures MatMulSpec(l, r).data[i * r.shape[1] + j] == MatMulSum(l, r, i, j, l.shape[1])
  {
    var h, w := l.shape[0], r.shape[1];
    RowMajor2(h, w, i, j);
    DivModOfSum(i, w, j);
    NextBlockBound(i, h, w);
  }

  /** The result of `matmul` is a valid [h, w] tensor whose entry (i, j) is `MatMulSum` over the inner dimension. */
  lemma MatMulAt(l: Tensor, r: Tensor)
    requires MatMulReady(l, r)
    ensures Valid(MatMulSpec(l, r))
    ensures forall i, j :: i < l.shape[0] && j < r.shape[1] ==>
      InBounds([i, j], MatMulSpec(l, r).shape) && At(MatMulSpec(l, r), [i, j]) == MatMulSum(l, r, i, j, l.shape[1])
  {
    var h, w := l.shape[0], r.shape[1];
    var t := MatMulSpec(l, r);
    RowMajor2(h, w, 0, 0);
    RowMajorValid(t.data, t.shape);
    forall i: nat, j: nat | i < h && j < w
      ensures At(t, [i, j]) == MatMulSum(l, r, i, j, l.shape[1])
    {
      RowMajor2(h, w, i, j);
      DivModOfSum(i, w, j);
      MulMonotone(i + 1, h, w);
    }
  }

  function RowSum(l: Tensor, i: nat, k: nat): real
    requires Valid(l) && |l.shape| == 2 && i < l.shape[0] && k <= l.shape[1]
  {
    if k == 0 then 0.0
    else
      assert InBounds([i, k - 1], l.shape);
      RowSum(l, i, k - 1) + At(l, [i, k - 1])
  }

  function ColSum(r: Tensor, j: nat, k: nat): real
    requires Valid(r) && |r.shape| == 2 && j < r.shape[1] && k <= r.shape[0]
  {
    if k == 0 then 0.0
    else
      assert InBounds([k - 1, j], r.shape);
      ColSum(r, j, k - 1) + At(r, [k - 1, j])
  }

  /**
   * As written, `matmul` accumulates `l + r` rather than `l * r`: entry (i, j) is the
   * sum of row i of the left operand plus the sum of column j of the right operand.
   */
  lemma {:induction false} MatMulAsWritten(l: Tensor, r: Tensor, i: nat, j: nat, k: nat)
    requires MatMulReady(l, r) && i < l.shape[0] && j < r.shape[1] && k <= l.shape[1]
    ensures MatMulSum(l, r, i, j, k) == RowSum(l, i, k) + ColSum(r, j, k)
  {
    if k > 0 {
      MatMulAsWritten(l, r, i, j, k - 1);
    }
  }

  /** The innermost loop of `matmul`: accumulates `lhs[i, k] + rhs[k, j]` over `k`. */
  method EntrySum(lhs: Tensor, rhs: Tensor, i: nat, j: nat) returns (sum: real)
    requires MatMulReady(lhs, rhs) && i < lhs.shape[0] && j < rhs.shape[1]
    ensures sum == MatMulSum(lhs, rhs, i, j, lhs.shape[1])
  {
    sum := 0.0;
    for k := 0 to lhs.shape[1]
      invariant sum == MatMulSum(lhs, rhs, i, j, k)
    {
      assert InBounds([i, k], lhs.shape) && InBounds([k, j], rhs.shape);
      var lv := At(lhs, [i, k]);
      var rv := At(rhs, [k, j]);
      sum := sum + (lv + rv);
    }
  }

  /**
   * `Tensor::matmul`: asserts rank-2 operands with matching inner dimension, then fills a
   * zero [h, w] buffer entry by entry, each entry accumulated over the inner dimension.
   */
  method MatMul(lhs: Tensor, rhs: Tensor) returns (t: Tensor)
    requires MatMulReady(lhs, rhs)
    ensures t == MatMulSpec(lhs, rhs)
  {
    var h := lhs.shape[0];
    var w := rhs.shape[1];
    var innerDim := lhs.shape[1];
    ghost var spec := MatMulSpec(lhs, rhs);
    var out := new VecTensor.Zeroes([h, w]);
    RowMajor2(h, w, 0, 0);
    for i := 0 to h
      invariant forall o :: 0 <= o < i * w ==> out.data[o] == spec.data[o]
    {
      NextBlockBound(i, h, w);
      MulSucc(i, w);
      for j := 0 to w
        invariant forall o :: 0 <= o < i * w + j ==> out.data[o] == spec.data[o]
      {
        var sum := EntrySum(lhs, rhs, i, j);
        MatMulEntry(lhs, rhs, i, j);
        out.AtMut([i, j], sum);
      }
    }
    t := out.ToTensor();
  }
}
