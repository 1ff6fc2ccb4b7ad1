/**
 * The expression graph of src/node.rs: a `Node` is a parameter tensor or the result
 * of an operation, keeping the operation, its operands and the value computed forward.
 *
 * Operands are held behind `Rc` in the source; here they are values, so a node used
 * twice appears twice as a subtree.
 */
module Graph {
  import opened Tensors
  import Ops

  /** `ParamsMap`: the parameter tensors, by name. */
  datatype ParamsMap = ParamsMap(entries: map<string, Tensor>)

  /** `ParamsMap::new`: no parameter is registered. */
  function NewParamsMap(): (p: ParamsMap)
    ensures forall name :: name !in p.entries
  {
    ParamsMap(map[])
  }

  datatype Node =
    | BinaryOp(bin: BinaryOpResult)
    | UnaryOp(unr: UnaryOpResult)
    | ReduceOp(red: ReduceOpResult)
    | TensorParam(tensor: Tensor, name: string)

  datatype BinaryOpResult = BinaryOpResult(op: Ops.BinaryOp, args: (Node, Node), value: Tensor)
  datatype UnaryOpResult = UnaryOpResult(op: Ops.UnaryOp, arg: Node, value: Tensor)
  datatype ReduceOpResult = ReduceOpResult(op: Ops.ReduceOp, arg: Node, value: Tensor)

  /** The operands of a node, in order; a parameter has none. */
  function Children(n: Node): (cs: seq<Node>)
    ensures n.TensorParam? <==> cs == []
  {
    match n
    case BinaryOp(res) => [res.args.0, res.args.1]
    case UnaryOp(res) => [res.arg]
    case ReduceOp(res) => [res.arg]
    case TensorParam(_, _) => []
  }

  /** Every tensor stored in the graph, at every node, is a valid tensor. */
  ghost predicate ValuesValid(n: Node)
  {
    match n
    case BinaryOp(res) => Valid(res.value) && ValuesValid(res.args.0) && ValuesValid(res.args.1)
    case UnaryOp(res) => Valid(res.value) && ValuesValid(res.arg)
    case ReduceOp(res) => Valid(res.value) && ValuesValid(res.arg)
    case TensorParam(t, _) => Valid(t)
  }

  /** `val`: the tensor a node stands for, its own tensor for a parameter and the stored result otherwise. */
  function Val(n: Node): (t: Tensor)
    ensures ValuesValid(n) ==> Valid(t)
    ensures n.TensorParam? ==> t == n.tensor
  {
    match n
    case TensorParam(t, _) => t
    case BinaryOp(res) => res.value
    case UnaryOp(res) => res.value
    case ReduceOp(res) => res.value
  }

  /** `new_unr_res`: a unary node standing for `value`, with the one operand `arg`. */
  function NewUnrRes(op: Ops.UnaryOp, arg: Node, value: Tensor): (n: Node)
    ensures n.UnaryOp? && n.unr.op == op
    ensures Val(n) == value && Children(n) == [arg]
    ensures ValuesValid(n) <==> Valid(value) && ValuesValid(arg)
  {
    UnaryOp(UnaryOpResult(op, arg, value))
  }

  /** `new_bin_res`: a binary node standing for `value`, with the operands `args` in order. */
  function NewBinRes(op: Ops.BinaryOp, args: (Node, Node), value: Tensor): (n: Node)
    ensures n.BinaryOp? && n.bin.op == op
    ensures Val(n) == value && Children(n) == [args.0, args.1]
    ensures ValuesValid(n) <==> Valid(value) && ValuesValid(args.0) && ValuesValid(args.1)
  {
    BinaryOp(BinaryOpResult(op, args, value))
  }

  /** `new_red_res`: a reducing node standing for `value`, with the one operand `arg`. */
  function NewRedRes(op: Ops.ReduceOp, arg: Node, value: Tensor): (n: Node)
    ensures n.ReduceOp? && n.red.op == op
    ensures Val(n) == value && Children(n) == [arg]
    ensures ValuesValid(n) <==> Valid(value) && ValuesValid(arg)
  {
    ReduceOp(ReduceOpResult(op, arg, value))
  }
}
