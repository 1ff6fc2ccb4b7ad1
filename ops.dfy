/**
 * The operations of the tensor graph (src/ops.rs): what each one computes going
 * forward and the gradient it hands to its operands going backward (`get_grads`).
 *
 * Every gradient rule is stated as written. `matmul` adds where a product is meant,
 * `mul(l, r)`/`div(l, r)` hand their operands to the map exchanged, the squaring
 * gradient ignores its input, and the mean gradient divides the element count by
 * the upstream value. The lemmas here spell out what each rule then yields, element
 * by element.
 */
module Ops {
  import opened Shapes
  import opened Tensors
  import opened Broadcast
  import opened Elementwise

  /** The implementors of `BinaryOp`. */
  datatype BinaryOp = MMulOp | AddOp | SubOp | MulOp

  /** The implementors of `UnaryOp`; `ReluOp` keeps which input elements were positive. */
  datatype UnaryOp = SqrOp | ReluOp(inputGtZeroMask: Tensor)

  /** The implementors of `ReduceOp`; `MeanOp` keeps the element count of its input. */
  datatype ReduceOp = MeanOp(inputNElements: nat)

  function BinaryName(op: BinaryOp): string
  {
    match op
    case MMulOp => "MatMul"
    case AddOp => "Add"
    case SubOp => "Sub"
    case MulOp => "Mul"
  }

  function UnaryName(op: UnaryOp): string
  {
    match op
    case SqrOp => "Sqr"
    case ReluOp(_) => "Relu"
  }

  function ReduceName(op: ReduceOp): string
  {
    match op
    case MeanOp(_) => "Mean"
  }

  /** The names tell the binary operations apart, and the unary ones up to the relu mask. */
  lemma NamesDistinct(a: BinaryOp, b: BinaryOp, u: UnaryOp, v: UnaryOp)
    ensures BinaryName(a) == BinaryName(b) <==> a == b
    ensures UnaryName(u) == UnaryName(v) <==> u.SqrOp? == v.SqrOp?
    ensures BinaryName(a) != UnaryName(u) && BinaryName(a) != "Mean" && UnaryName(u) != "Mean"
  {
    assert "MatMul"[1] != "Mul"[1];
    assert "Sqr"[0] != "Relu"[0];
  }

  // ---------------------------------------------------------------------------
  // Helpers about scalars and transposes

  /** A rank-0 operand broadcasts against every shape. */
  lemma ScalarBroadcasts(s: seq<nat>)
    ensures BroadcastSpec(s, []).Some? && BroadcastSpec([], s).Some?
  {
    var n := Max(|s|, 0);
    var ones := PadShape([], n);
    assert forall k :: 0 <= k < n ==> ones[k] == 1;
  }

  /** A valid rank-0 tensor is the one built from its only element. */
  lemma ScalarTensor(t: Tensor)
    requires Valid(t) && t.shape == []
    ensures t == FromScalar(At(t, []))
  {
    assert InBounds([], []);
    assert t.data == [t.data[0]];
  }

  lemma TransposeShape2(t: Tensor)
    requires Valid(t) && |t.shape| == 2
    ensures Valid(Transpose(t, 0, 1)) && Transpose(t, 0, 1).shape == [t.shape[1], t.shape[0]]
  {
    TransposeAt(t, 0, 1);
  }

  /** Entry (j, i) of the transpose is entry (i, j) of the matrix. */
  lemma TransposeEntry(t: Tensor, i: nat, j: nat)
    requires Valid(t) && |t.shape| == 2 && i < t.shape[0] && j < t.shape[1]
    ensures Valid(Transpose(t, 0, 1)) && Transpose(t, 0, 1).shape == [t.shape[1], t.shape[0]]
    ensures At(Transpose(t, 0, 1), [j, i]) == At(t, [i, j])
  {
    TransposeAt(t, 0, 1);
    assert InBounds([i, j], t.shape);
    assert Swap([i, j], 0, 1) == [j, i];
  }

  /** Summing column `j` of the transpose is summing row `j` of the matrix. */
  lemma {:induction false} ColSumTranspose(t: Tensor, j: nat, k: nat)
    requires Valid(t) && |t.shape| == 2 && j < t.shape[0] && k <= t.shape[1]
    ensures Valid(Transpose(t, 0, 1)) && Transpose(t, 0, 1).shape == [t.shape[1], t.shape[0]]
    ensures ColSum(Transpose(t, 0, 1), j, k) == RowSum(t, j, k)
  {
    TransposeShape2(t);
    if k > 0 {
      ColSumTranspose(t, j, k - 1);
      TransposeEntry(t, j, k - 1);
    }
  }

  /** Summing row `i` of the transpose is summing column `i` of the matrix. */
  lemma {:induction false} RowSumTranspose(t: Tensor, i: nat, k: nat)
    requires Valid(t) && |t.shape| == 2 && i < t.shape[1] && k <= t.shape[0]
    ensures Valid(Transpose(t, 0, 1)) && Transpose(t, 0, 1).shape == [t.shape[1], t.shape[0]]
    ensures RowSum(Transpose(t, 0, 1), i, k) == ColSum(t, i, k)
  {
    TransposeShape2(t);
    if k > 0 {
      RowSumTranspose(t, i, k - 1);
      TransposeEntry(t, k - 1, i);
    }
  }

  // ---------------------------------------------------------------------------
  // Forward

  /** What `forward` demands of its operands: `unwrap` panics on a shape error and `matmul` asserts. */
  ghost predicate ForwardReady(op: BinaryOp, l: Tensor, r: Tensor)
  {
    match op
    case MMulOp => MatMulReady(l, r)
    case _ => MapDefined(r, l) && BroadcastSpec(l.shape, r.shape).Some?
  }

  /** The element function of an element-wise operation, as the map applies it: right element first. */
  function Combine(op: BinaryOp): (real, real) -> real
    requires !op.MMulOp?
  {
    match op
    case AddOp => Plus
    case SubOp => Minus
    case MulOp => Times
  }

  /**
   * `forward` of the four binary operations: `mmul` yields the [h, w] matrix whose
   * entry (i, j) is row sum i of `l` plus column sum j of `r`; `add`, `sub` and `mul`
   * yield the broadcast of their element function over (`r`, `l`).
   */
  function Forward(op: BinaryOp, l: Tensor, r: Tensor): (t: Tensor)
    requires ForwardReady(op, l, r)
    ensures Valid(t)
    ensures op.MMulOp? ==>
      && t.shape == [l.shape[0], r.shape[1]]
      && forall i, j :: i < l.shape[0] && j < r.shape[1] ==>
        InBounds([i, j], t.shape) && At(t, [i, j]) == RowSum(l, i, l.shape[1]) + ColSum(r, j, l.shape[1])
    ensures !op.MMulOp? ==> MapsPointwise(Ok(t), r, l, Combine(op))
  {
    match op
    case MMulOp =>
      MatMulRowColSums(l, r);
      MatMulSpec(l, r)
    case AddOp => Add(l, r).value
    case SubOp => Sub(l, r).value
    case MulOp => Mul(l, r).value
  }

  lemma MatMulRowColSums(l: Tensor, r: Tensor)
    requires MatMulReady(l, r)
    ensures Valid(MatMulSpec(l, r))
    ensures forall i, j :: i < l.shape[0] && j < r.shape[1] ==>
      InBounds([i, j], MatMulSpec(l, r).shape) &&
      At(MatMulSpec(l, r), [i, j]) == RowSum(l, i, l.shape[1]) + ColSum(r, j, l.shape[1])
  {
    MatMulAt(l, r);
    forall i, j | i < l.shape[0] && j < r.shape[1]
      ensures MatMulSum(l, r, i, j, l.shape[1]) == RowSum(l, i, l.shape[1]) + ColSum(r, j, l.shape[1])
    {
      MatMulAsWritten(l, r, i, j, l.shape[1]);
    }
  }

  // ---------------------------------------------------------------------------
  // MMulOp

  /** What the two `mmul` calls of the gradient assert. */
  ghost predicate MMulGradsReady(up: Tensor, l: Tensor, r: Tensor)
  {
    && Valid(up) && Valid(l) && Valid(r)
    && |up.shape| == 2 && |l.shape| == 2 && |r.shape| == 2
    && up.shape[1] == r.shape[1] && l.shape[0] == up.shape[0]
  }

  /** `MMulOp::get_grads`: (`upstream` times the transpose of `r`, the transpose of `l` times `upstream`). */
  function MMulGrads(up: Tensor, l: Tensor, r: Tensor): (g: (Tensor, Tensor))
    requires MMulGradsReady(up, l, r)
    ensures Valid(g.0) && g.0.shape == [up.shape[0], r.shape[0]]
    ensures Valid(g.1) && g.1.shape == [l.shape[1], up.shape[1]]
  {
    TransposeShape2(r);
    TransposeShape2(l);
    var rT, lT := Transpose(r, 0, 1), Transpose(l, 0, 1);
    MatMulAt(up, rT);
    MatMulAt(lT, up);
    (MatMulSpec(up, rT), MatMulSpec(lT, up))
  }

  /** With the upstream shaped like the forward result, each gradient is shaped like its operand. */
  lemma MMulGradsShapes(up: Tensor, l: Tensor, r: Tensor)
    requires MatMulReady(l, r) && Valid(up) && up.shape == Forward(MMulOp, l, r).shape
    ensures MMulGradsReady(up, l, r)
    ensures MMulGrads(up, l, r).0.shape == l.shape && MMulGrads(up, l, r).1.shape == r.shape
  {
  }

  /** Entry (i, j) of the left gradient is row sum i of `upstream` plus row sum j of `r` (the sums of `l + r` that `matmul` accumulates). */
  lemma MMulGradsLeftAt(up: Tensor, l: Tensor, r: Tensor, i: nat, j: nat)
    requires MMulGradsReady(up, l, r) && i < up.shape[0] && j < r.shape[0]
    ensures InBounds([i, j], MMulGrads(up, l, r).0.shape)
    ensures At(MMulGrads(up, l, r).0, [i, j]) == RowSum(up, i, up.shape[1]) + RowSum(r, j, up.shape[1])
  {
    TransposeShape2(r);
    var rT := Transpose(r, 0, 1);
    MatMulRowColSums(up, rT);
    ColSumTranspose(r, j, up.shape[1]);
  }

  /** Entry (i, j) of the right gradient is column sum i of `l` plus column sum j of `upstream`. */
  lemma MMulGradsRightAt(up: Tensor, l: Tensor, r: Tensor, i: nat, j: nat)
    requires MMulGradsReady(up, l, r) && i < l.shape[1] && j < up.shape[1]
    ensures InBounds([i, j], MMulGrads(up, l, r).1.shape)
    ensures At(MMulGrads(up, l, r).1, [i, j]) == ColSum(l, i, up.shape[0]) + ColSum(up, j, up.shape[0])
  {
    TransposeShape2(l);
    var lT := Transpose(l, 0, 1);
    MatMulRowColSums(lT, up);
    RowSumTranspose(l, i, up.shape[0]);
  }

  // ---------------------------------------------------------------------------
  // AddOp and SubOp

  /** `AddOp::get_grads`: the upstream gradient, unchanged, for both operands. */
  function AddGrads(up: Tensor, l: Tensor, r: Tensor): (g: (Tensor, Tensor))
    ensures g.0 == up && g.1 == up
  {
    (up, up)
  }

  /** `SubOp::get_grads`: the upstream for `l`, and `mul(upstream, from(-1))` for `r`. */
  function SubGrads(up: Tensor, l: Tensor, r: Tensor): (g: (Tensor, Tensor))
    requires MapDefined(FromScalar(-1.0), up)
    ensures g.0 == up
    ensures Valid(g.1) && g.1.shape == OutShape(up.shape, [])
    ensures MapsPointwise(Ok(g.1), FromScalar(-1.0), up, Times)
  {
    ScalarBroadcasts(up.shape);
    (up, Mul(up, FromScalar(-1.0)).value)
  }

  /** On an upstream with no empty axis, the gradient of `r` is the negated upstream, in its shape. */
  lemma SubGradsNegate(up: Tensor, l: Tensor, r: Tensor)
    requires Valid(up) && Prod(up.shape) > 0
    ensures MapDefined(FromScalar(-1.0), up)
    ensures SubGrads(up, l, r).1.shape == up.shape
    ensures forall c :: InBounds(c, up.shape) ==> At(SubGrads(up, l, r).1, c) == -At(up, c)
  {
    MapScalarRight(-1.0, up, Times);
  }

  // ---------------------------------------------------------------------------
  // MulOp

  /** What the two `mul(_, upstream)` calls of the gradient demand. */
  ghost predicate MulGradsReady(up: Tensor, l: Tensor, r: Tensor)
  {
    && MapDefined(up, r) && BroadcastSpec(r.shape, up.shape).Some?
    && MapDefined(up, l) && BroadcastSpec(l.shape, up.shape).Some?
  }

  /** `MulOp::get_grads`: (`mul(r, upstream)`, `mul(l, upstream)`), the product rule. */
  function MulGrads(up: Tensor, l: Tensor, r: Tensor): (g: (Tensor, Tensor))
    requires MulGradsReady(up, l, r)
    ensures Valid(g.0) && g.0.shape == OutShape(r.shape, up.shape)
    ensures Valid(g.1) && g.1.shape == OutShape(l.shape, up.shape)
    ensures MapsPointwise(Ok(g.0), up, r, Times)
    ensures MapsPointwise(Ok(g.1), up, l, Times)
  {
    (Mul(r, up).value, Mul(l, up).value)
  }

  /** On operands and upstream of one shape, the gradient of `l` is `upstream * r` and that of `r` is `upstream * l`. */
  lemma MulGradsProductRule(up: Tensor, l: Tensor, r: Tensor)
    requires Valid(up) && Valid(l) && Valid(r) && l.shape == up.shape && r.shape == up.shape
    ensures MulGradsReady(up, l, r)
    ensures MulGrads(up, l, r).0.shape == up.shape && MulGrads(up, l, r).1.shape == up.shape
    ensures forall c :: InBounds(c, up.shape) ==>
      At(MulGrads(up, l, r).0, c) == At(up, c) * At(r, c) && At(MulGrads(up, l, r).1, c) == At(up, c) * At(l, c)
  {
    MulGradsSameShape(up, l, r);
    forall c | InBounds(c, up.shape)
      ensures At(MulGrads(up, l, r).0, c) == At(up, c) * At(r, c) && At(MulGrads(up, l, r).1, c) == At(up, c) * At(l, c)
    {
      MulGradsAt(up, l, r, c);
    }
  }

  lemma MulGradsSameShape(up: Tensor, l: Tensor, r: Tensor)
    requires Valid(up) && Valid(l) && Valid(r) && l.shape == up.shape && r.shape == up.shape
    ensures MulGradsReady(up, l, r)
    ensures MulGrads(up, l, r).0.shape == up.shape && MulGrads(up, l, r).1.shape == up.shape
  {
    var d0 := SameShapeReady(up, r);
    var d1 := SameShapeReady(up, l);
  }

  lemma MulGradsAt(up: Tensor, l: Tensor, r: Tensor, c: seq<nat>)
    requires Valid(up) && Valid(l) && Valid(r) && l.shape == up.shape && r.shape == up.shape && InBounds(c, up.shape)
    ensures MulGradsReady(up, l, r)
    ensures MulGrads(up, l, r).0.shape == up.shape && MulGrads(up, l, r).1.shape == up.shape
    ensures At(MulGrads(up, l, r).0, c) == At(up, c) * At(r, c) && At(MulGrads(up, l, r).1, c) == At(up, c) * At(l, c)
  {
    MulGradsSameShape(up, l, r);
    MapSameShapeAt(up, r, Times, c);
    MapSameShapeAt(up, l, Times, c);
  }

  // ---------------------------------------------------------------------------
  // SqrOp

  /** `SqrOp::get_grads`: `mul(from(2), upstream)`, which does not read the input. */
  function SqrGrads(up: Tensor, arg: Tensor): (g: Tensor)
    requires MapDefined(up, FromScalar(2.0))
    ensures Valid(g) && g.shape == OutShape([], up.shape)
    ensures MapsPointwise(Ok(g), up, FromScalar(2.0), Times)
  {
    ScalarBroadcasts(up.shape);
    Mul(FromScalar(2.0), up).value
  }

  /** The squaring gradient is twice the upstream, whatever the input was. */
  lemma SqrGradsDouble(up: Tensor, arg: Tensor, other: Tensor)
    requires Valid(up) && Prod(up.shape) > 0
    ensures MapDefined(up, FromScalar(2.0))
    ensures SqrGrads(up, arg).shape == up.shape
    ensures forall c :: InBounds(c, up.shape) ==> At(SqrGrads(up, arg), c) == 2.0 * At(up, c)
    ensures SqrGrads(up, arg) == SqrGrads(up, other)
  {
    MapScalarLeft(up, 2.0, Times);
  }

  // ---------------------------------------------------------------------------
  // MeanOp

  /** What the `div` and the `mul` of the mean gradient demand. */
  ghost predicate MeanGradsReady(n: nat, up: Tensor, arg: Tensor)
  {
    && Valid(arg) && MapDefined(FromScalar(n as real), up)
    && BroadcastSpec(up.shape, []).Some?
    && var up2 := Div(up, FromScalar(n as real)).value;
      MapDefined(Ones(Size(arg)), up2) && BroadcastSpec(up2.shape, Size(arg)).Some?
  }

  /**
   * `MeanOp::get_grads`: `div(upstream, from(n))` spread over the input's shape by
   * `mul(_, ones(arg.size()))`. The map divides its right operand by its left one,
   * so each element is `n / upstream[c']`.
   */
  function MeanGrads(op: ReduceOp, up: Tensor, arg: Tensor): (g: Tensor)
    requires op.MeanOp? && MeanGradsReady(op.inputNElements, up, arg)
    ensures Valid(g) && g.shape == OutShape(Div(up, FromScalar(op.inputNElements as real)).value.shape, arg.shape)
    ensures MapsPointwise(Ok(g), Ones(Size(arg)), Div(up, FromScalar(op.inputNElements as real)).value, Times)
  {
    var up2 := Div(up, FromScalar(op.inputNElements as real)).value;
    Mul(up2, Ones(Size(arg))).value
  }

  /**
   * A rank-0 upstream (the mean of the forward pass) and an input with no empty axis:
   * the gradient has the input's shape and every element is `n / upstream`, not the
   * `upstream / n` the documentation of the operation describes.
   */
  lemma MeanGradsAsWritten(n: nat, up: Tensor, arg: Tensor)
    requires Valid(up) && up.shape == [] && Valid(arg) && Prod(arg.shape) > 0
    ensures MeanGradsReady(n, up, arg)
    ensures MeanGrads(MeanOp(n), up, arg).shape == arg.shape
    ensures forall c :: InBounds(c, arg.shape) ==> At(MeanGrads(MeanOp(n), up, arg), c) == RealDiv(n as real, At(up, []))
  {
    var u := At(up, []);
    ScalarTensor(up);
    ScalarBroadcasts([]);
    MapScalarRight(n as real, up, Quotient);
    assert InBounds([], []);
    var up2 := Div(up, FromScalar(n as real)).value;
    ScalarTensor(up2);
    var q := At(up2, []);
    assert q == RealDiv(n as real, u);
    MapScalarLeft(Ones(arg.shape), q, Times);
    forall c | InBounds(c, arg.shape) ensures At(MeanGrads(MeanOp(n), up, arg), c) == RealDiv(n as real, u) {
      assert At(Ones(arg.shape), c) == 1.0;
    }
  }

  // ---------------------------------------------------------------------------
  // ReluOp

  /** `ReluOp::get_grads`: `mul(mask, upstream)`. */
  function ReluGrads(op: UnaryOp, up: Tensor, arg: Tensor): (g: Tensor)
    requires op.ReluOp? && MapDefined(up, op.inputGtZeroMask) && BroadcastSpec(op.inputGtZeroMask.shape, up.shape).Some?
    ensures Valid(g) && g.shape == OutShape(op.inputGtZeroMask.shape, up.shape)
    ensures MapsPointwise(Ok(g), up, op.inputGtZeroMask, Times)
  {
    Mul(op.inputGtZeroMask, up).value
  }

  /** With the mask of `gt(x, 0)` and an upstream of the same shape, the gradient passes the upstream where `x` was positive and 0 elsewhere. */
  lemma ReluGradsGate(x: Tensor, up: Tensor)
    requires Valid(x) && Valid(up) && up.shape == x.shape
    ensures MapDefined(up, Gt(x, 0.0)) && BroadcastSpec(Gt(x, 0.0).shape, up.shape).Some?
    ensures ReluGrads(ReluOp(Gt(x, 0.0)), up, x).shape == x.shape
    ensures forall c :: InBounds(c, x.shape) ==>
      At(ReluGrads(ReluOp(Gt(x, 0.0)), up, x), c) == if At(x, c) > 0.0 then At(up, c) else 0.0
  {
    ReluGradsShape(x, up);
    forall c | InBounds(c, x.shape)
      ensures At(ReluGrads(ReluOp(Gt(x, 0.0)), up, x), c) == if At(x, c) > 0.0 then At(up, c) else 0.0
    {
      ReluGradsAt(x, up, c);
    }
  }

  lemma ReluGradsShape(x: Tensor, up: Tensor)
    requires Valid(x) && Valid(up) && up.shape == x.shape
    ensures MapDefined(up, Gt(x, 0.0)) && BroadcastSpec(Gt(x, 0.0).shape, up.shape).Some?
    ensures ReluGrads(ReluOp(Gt(x, 0.0)), up, x).shape == x.shape
  {
    var dirs := SameShapeReady(up, Gt(x, 0.0));
  }

  lemma ReluGradsAt(x: Tensor, up: Tensor, c: seq<nat>)
    requires Valid(x) && Valid(up) && up.shape == x.shape && InBounds(c, x.shape)
    ensures MapDefined(up, Gt(x, 0.0)) && BroadcastSpec(Gt(x, 0.0).shape, up.shape).Some?
    ensures ReluGrads(ReluOp(Gt(x, 0.0)), up, x).shape == x.shape
    ensures At(ReluGrads(ReluOp(Gt(x, 0.0)), up, x), c) == if At(x, c) > 0.0 then At(up, c) else 0.0
  {
    var mask := Gt(x, 0.0);
    ReluGradsShape(x, up);
    MapSameShapeAt(up, mask, Times, c);
  }

  // ---------------------------------------------------------------------------
  // get_grads on the operation a node records

  /** What `get_grads` of the recorded binary operation demands of the upstream and the operand values. */
  ghost predicate BinaryGradsReady(op: BinaryOp, up: Tensor, l: Tensor, r: Tensor)
  {
    match op
    case MMulOp => MMulGradsReady(up, l, r)
    case AddOp => true
    case SubOp => MapDefined(FromScalar(-1.0), up)
    case MulOp => MulGradsReady(up, l, r)
  }

  /**
   * `op.get_grads(upstream, (l, r))` on the boxed `BinaryOp`: the rule of the
   * operation the node records, element by element for the three element-wise ones.
   */
  function BinaryGrads(op: BinaryOp, up: Tensor, l: Tensor, r: Tensor): (g: (Tensor, Tensor))
    requires BinaryGradsReady(op, up, l, r)
    ensures op.MMulOp? ==>
      && g.0.shape == [up.shape[0], r.shape[0]] && g.1.shape == [l.shape[1], up.shape[1]]
      && g == MMulGrads(up, l, r)
    ensures op.AddOp? ==> g.0 == up && g.1 == up
    ensures op.SubOp? ==> g.0 == up && MapsPointwise(Ok(g.1), FromScalar(-1.0), up, Times)
    ensures op.MulOp? ==> MapsPointwise(Ok(g.0), up, r, Times) && MapsPointwise(Ok(g.1), up, l, Times)
  {
    match op
    case MMulOp => MMulGrads(up, l, r)
    case AddOp => AddGrads(up, l, r)
    case SubOp => SubGrads(up, l, r)
    case MulOp => MulGrads(up, l, r)
  }

  /** What `get_grads` of the recorded unary operation demands of the upstream. */
  ghost predicate UnaryGradsReady(op: UnaryOp, up: Tensor)
  {
    match op
    case SqrOp => MapDefined(up, FromScalar(2.0))
    case ReluOp(mask) => MapDefined(up, mask) && BroadcastSpec(mask.shape, up.shape).Some?
  }

  /**
   * `op.get_grads(upstream, arg)` on the boxed `UnaryOp`: twice the upstream for
   * `SqrOp`, the upstream times the captured mask for `ReluOp`.
   */
  function UnaryGrads(op: UnaryOp, up: Tensor, arg: Tensor): (g: Tensor)
    requires UnaryGradsReady(op, up)
    ensures Valid(g)
    ensures op.SqrOp? ==> g.shape == OutShape([], up.shape) && MapsPointwise(Ok(g), up, FromScalar(2.0), Times)
    ensures op.ReluOp? ==>
      g.shape == OutShape(op.inputGtZeroMask.shape, up.shape) && MapsPointwise(Ok(g), up, op.inputGtZeroMask, Times)
  {
    match op
    case SqrOp => SqrGrads(up, arg)
    case ReluOp(_) => ReluGrads(op, up, arg)
  }

  /**
   * `op.get_grads(upstream, arg)` on the boxed `ReduceOp`, whose one implementor is
   * `MeanOp`: the upstream divided as written, spread over the operand's shape.
   */
  function ReduceGrads(op: ReduceOp, up: Tensor, arg: Tensor): (g: Tensor)
    requires MeanGradsReady(op.inputNElements, up, arg)
    ensures Valid(g) && g.shape == OutShape(Div(up, FromScalar(op.inputNElements as real)).value.shape, arg.shape)
    ensures MapsPointwise(Ok(g), Ones(Size(arg)), Div(up, FromScalar(op.inputNElements as real)).value, Times)
  {
    match op
    case MeanOp(_) => MeanGrads(op, up, arg)
  }
}
