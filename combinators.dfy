/**
 * The graph-building functions of src/ops.rs: each computes its value forward from
 * the values of its operands and wraps it in a new node with the operation that will
 * supply its gradient.
 */
module Combinators {
  import opened Shapes
  import opened Tensors
  import opened Broadcast
  import opened Elementwise
  import opened Ops
  import Graph

  /**
   * The function `create_binary_op!` generates: a binary node over `(l, r)` holding
   * the operation's `forward` of the operand values.
   */
  function BinaryNode(op: BinaryOp, l: Graph.Node, r: Graph.Node): (n: Graph.Node)
    requires Graph.ValuesValid(l) && Graph.ValuesValid(r) && ForwardReady(op, Graph.Val(l), Graph.Val(r))
    ensures Graph.ValuesValid(n) && n.BinaryOp? && n.bin.op == op && n.bin.args == (l, r)
    ensures Graph.Val(n) == Forward(op, Graph.Val(l), Graph.Val(r))
  {
    Graph.NewBinRes(op, (l, r), Forward(op, Graph.Val(l), Graph.Val(r)))
  }

  /** `add`: element by element, the right operand's element plus the left one's. */
  function AddNode(l: Graph.Node, r: Graph.Node): (n: Graph.Node)
    requires Graph.ValuesValid(l) && Graph.ValuesValid(r) && ForwardReady(AddOp, Graph.Val(l), Graph.Val(r))
    ensures Graph.ValuesValid(n) && n.BinaryOp? && n.bin.op == AddOp && n.bin.args == (l, r)
    ensures MapsPointwise(Ok(Graph.Val(n)), Graph.Val(r), Graph.Val(l), Plus)
  {
    BinaryNode(AddOp, l, r)
  }

  /** `mul`: element by element, the right operand's element times the left one's. */
  function MulNode(l: Graph.Node, r: Graph.Node): (n: Graph.Node)
    requires Graph.ValuesValid(l) && Graph.ValuesValid(r) && ForwardReady(MulOp, Graph.Val(l), Graph.Val(r))
    ensures Graph.ValuesValid(n) && n.BinaryOp? && n.bin.op == MulOp && n.bin.args == (l, r)
    ensures MapsPointwise(Ok(Graph.Val(n)), Graph.Val(r), Graph.Val(l), Times)
  {
    BinaryNode(MulOp, l, r)
  }

  /** `sub`: element by element, the right operand's element minus the left one's (the map's argument order). */
  function SubNode(l: Graph.Node, r: Graph.Node): (n: Graph.Node)
    requires Graph.ValuesValid(l) && Graph.ValuesValid(r) && ForwardReady(SubOp, Graph.Val(l), Graph.Val(r))
    ensures Graph.ValuesValid(n) && n.BinaryOp? && n.bin.op == SubOp && n.bin.args == (l, r)
    ensures MapsPointwise(Ok(Graph.Val(n)), Graph.Val(r), Graph.Val(l), Minus)
  {
    BinaryNode(SubOp, l, r)
  }

  /** `mmul`: the [h, w] matrix whose entry (i, j) is row sum i of `l` plus column sum j of `r`. */
  function MMulNode(l: Graph.Node, r: Graph.Node): (n: Graph.Node)
    requires Graph.ValuesValid(l) && Graph.ValuesValid(r) && MatMulReady(Graph.Val(l), Graph.Val(r))
    ensures Graph.ValuesValid(n) && n.BinaryOp? && n.bin.op == MMulOp && n.bin.args == (l, r)
    ensures var a, b := Graph.Val(l), Graph.Val(r);
      && Graph.Val(n).shape == [a.shape[0], b.shape[1]]
      && forall i, j :: i < a.shape[0] && j < b.shape[1] ==>
        InBounds([i, j], Graph.Val(n).shape) && At(Graph.Val(n), [i, j]) == RowSum(a, i, a.shape[1]) + ColSum(b, j, a.shape[1])
  {
    BinaryNode(MMulOp, l, r)
  }

  /** `sqr`: a `SqrOp` node holding the element-wise square of the operand. */
  function Sqr(x: Graph.Node): (n: Graph.Node)
    requires Graph.ValuesValid(x)
    ensures Graph.ValuesValid(n) && n.UnaryOp? && n.unr.op == SqrOp && n.unr.arg == x
    ensures Graph.Val(n).shape == Graph.Val(x).shape
    ensures forall c :: InBounds(c, Graph.Val(x).shape) ==>
      At(Graph.Val(n), c) == At(Graph.Val(x), c) * At(Graph.Val(x), c)
  {
    var v := Graph.Val(x);
    MapSameShape(v, v, Times);
    Graph.NewUnrRes(SqrOp, x, Mul(v, v).value)
  }

  /** `neg`: the operand times `from(-1)`, in a node tagged with `SqrOp`. */
  function Neg(x: Graph.Node): (n: Graph.Node)
    requires Graph.ValuesValid(x) && MapDefined(FromScalar(-1.0), Graph.Val(x))
    ensures Graph.ValuesValid(n) && n.UnaryOp? && n.unr.op == SqrOp && n.unr.arg == x
    ensures MapsPointwise(Ok(Graph.Val(n)), FromScalar(-1.0), Graph.Val(x), Times)
  {
    var v := Graph.Val(x);
    ScalarBroadcasts(v.shape);
    Graph.NewUnrRes(SqrOp, x, Mul(v, FromScalar(-1.0)).value)
  }

  /** On an operand with no empty axis, `neg` negates every element. */
  lemma NegNegates(x: Graph.Node)
    requires Graph.ValuesValid(x) && Prod(Graph.Val(x).shape) > 0
    ensures MapDefined(FromScalar(-1.0), Graph.Val(x))
    ensures Graph.Val(Neg(x)).shape == Graph.Val(x).shape
    ensures forall c :: InBounds(c, Graph.Val(x).shape) ==> At(Graph.Val(Neg(x)), c) == -At(Graph.Val(x), c)
  {
    MapScalarRight(-1.0, Graph.Val(x), Times);
  }

  lemma NegNegatesAt(x: Graph.Node, c: seq<nat>)
    requires Graph.ValuesValid(x) && Prod(Graph.Val(x).shape) > 0 && InBounds(c, Graph.Val(x).shape)
    ensures MapDefined(FromScalar(-1.0), Graph.Val(x))
    ensures Graph.Val(Neg(x)).shape == Graph.Val(x).shape
    ensures At(Graph.Val(Neg(x)), c) == -At(Graph.Val(x), c)
  {
    MapScalarRightAt(-1.0, Graph.Val(x), Times, c);
  }

  /**
   * `neg` and `sqr` build nodes with the same operation over the same operand, yet
   * at each element `neg` holds `-a` and `sqr` holds `a * a`, which differ wherever
   * `a` is positive.
   */
  lemma NegTaggedAsSqr(x: Graph.Node, c: seq<nat>)
    requires Graph.ValuesValid(x) && Prod(Graph.Val(x).shape) > 0 && InBounds(c, Graph.Val(x).shape)
    ensures MapDefined(FromScalar(-1.0), Graph.Val(x))
    ensures Neg(x).unr.op == Sqr(x).unr.op && Neg(x).unr.arg == Sqr(x).unr.arg
    ensures Graph.Val(Neg(x)).shape == Graph.Val(x).shape && Graph.Val(Sqr(x)).shape == Graph.Val(x).shape
    ensures At(Graph.Val(Neg(x)), c) == -At(Graph.Val(x), c)
    ensures At(Graph.Val(Sqr(x)), c) == At(Graph.Val(x), c) * At(Graph.Val(x), c)
    ensures At(Graph.Val(x), c) > 0.0 ==> At(Graph.Val(Neg(x)), c) != At(Graph.Val(Sqr(x)), c)
  {
    NegNegatesAt(x, c);
    SqrAt(x, c);
    PositiveSquare(At(Graph.Val(x), c));
  }

  /** A positive number squared is positive. */
  lemma PositiveSquare(a: real)
    ensures a > 0.0 ==> Times(a, a) > 0.0
  {
    if a > 0.0 {
      calc {
        Times(a, a);
      ==
        a * a;
      >
        0.0 * a;
      }
    }
  }

  /**
   * The gradient `get_grads` hands back through a `neg` node is the squaring rule its
   * tag selects: twice the upstream, where the derivative of the negation would be
   * minus the upstream.
   */
  lemma NegGradient(x: Graph.Node, up: Tensor, c: seq<nat>)
    requires Graph.ValuesValid(x) && Prod(Graph.Val(x).shape) > 0
    requires Valid(up) && Prod(up.shape) > 0 && InBounds(c, up.shape)
    ensures MapDefined(FromScalar(-1.0), Graph.Val(x))
    ensures UnaryGradsReady(Neg(x).unr.op, up)
    ensures UnaryGrads(Neg(x).unr.op, up, Graph.Val(x)).shape == up.shape
    ensures At(UnaryGrads(Neg(x).unr.op, up, Graph.Val(x)), c) == 2.0 * At(up, c)
    ensures At(up, c) != 0.0 ==> At(UnaryGrads(Neg(x).unr.op, up, Graph.Val(x)), c) != -At(up, c)
  {
    NegNegates(x);
    SqrGradsDouble(up, Graph.Val(x), Graph.Val(x));
  }

  lemma SqrAt(x: Graph.Node, c: seq<nat>)
    requires Graph.ValuesValid(x) && InBounds(c, Graph.Val(x).shape)
    ensures Graph.Val(Sqr(x)).shape == Graph.Val(x).shape
    ensures At(Graph.Val(Sqr(x)), c) == At(Graph.Val(x), c) * At(Graph.Val(x), c)
  {
  }

  /** `relu`: a `ReluOp` node recording `gt(x, 0)` as its mask and holding the element-wise relu. */
  function ReluNode(x: Graph.Node): (n: Graph.Node)
    requires Graph.ValuesValid(x)
    ensures Graph.ValuesValid(n) && n.UnaryOp? && n.unr.arg == x
    ensures n.unr.op == ReluOp(Gt(Graph.Val(x), 0.0))
    ensures Graph.Val(n).shape == Graph.Val(x).shape
    ensures forall c :: InBounds(c, Graph.Val(x).shape) ==>
      At(Graph.Val(n), c) == if At(Graph.Val(x), c) > 0.0 then At(Graph.Val(x), c) else 0.0
  {
    var v := Graph.Val(x);
    Graph.NewUnrRes(ReluOp(Gt(v, 0.0)), x, Relu(v))
  }

  /**
   * The gradient the relu node hands back, for an upstream shaped like its value, is
   * the upstream where the operand was positive and 0 elsewhere: the derivative of relu.
   */
  lemma ReluNodeGradient(x: Graph.Node, up: Tensor)
    requires Graph.ValuesValid(x) && Valid(up) && up.shape == Graph.Val(x).shape
    ensures UnaryGradsReady(ReluNode(x).unr.op, up)
    ensures UnaryGrads(ReluNode(x).unr.op, up, Graph.Val(x)).shape == up.shape
    ensures forall c :: InBounds(c, up.shape) ==>
      At(UnaryGrads(ReluNode(x).unr.op, up, Graph.Val(x)), c) == if At(Graph.Val(x), c) > 0.0 then At(up, c) else 0.0
  {
    ReluGradsGate(Graph.Val(x), up);
  }

  /** `mean`: a `MeanOp` node recording the operand's element count and holding its mean. */
  function MeanNode(x: Graph.Node): (n: Graph.Node)
    requires Graph.ValuesValid(x)
    ensures Graph.ValuesValid(n) && n.ReduceOp? && n.red.arg == x
    ensures n.red.op == MeanOp(|Graph.Val(x).data|)
    ensures Graph.Val(n).shape == []
    ensures |Graph.Val(x).data| > 0 ==> At(Graph.Val(n), []) * (|Graph.Val(x).data| as real) == Sum(Graph.Val(x).data)
  {
    var v := Graph.Val(x);
    Graph.NewRedRes(MeanOp(NElements(v)), x, Mean(v))
  }

  /**
   * The gradient the mean node hands back for a rank-0 upstream `u`, over an operand
   * with no empty axis, is `n / u` at every element of the operand, `n` its element count.
   */
  lemma MeanNodeGradient(x: Graph.Node, up: Tensor)
    requires Graph.ValuesValid(x) && Valid(up) && up.shape == [] && Prod(Graph.Val(x).shape) > 0
    ensures MeanNode(x).red.op == MeanOp(|Graph.Val(x).data|)
    ensures MeanGradsReady(|Graph.Val(x).data|, up, Graph.Val(x))
    ensures ReduceGrads(MeanNode(x).red.op, up, Graph.Val(x)).shape == Graph.Val(x).shape
    ensures forall c :: InBounds(c, Graph.Val(x).shape) ==>
      At(ReduceGrads(MeanNode(x).red.op, up, Graph.Val(x)), c) == RealDiv(|Graph.Val(x).data| as real, At(up, []))
  {
    MeanGradsAsWritten(|Graph.Val(x).data|, up, Graph.Val(x));
  }
}
