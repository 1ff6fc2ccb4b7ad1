/**
 * Reverse-mode differentiation of src/backward.rs, over scalar expressions: the
 * backward pass turns an expression into a trace of the same shape whose leaves carry
 * the derivative of the output by that parameter occurrence, and `accum_grads` sums
 * those leaf derivatives per parameter name into a `GradMap`.
 *
 * The backward pass of the source is written against scalar nodes (`Node::Param` with
 * an `f64` value, operations whose `get_grads` returns the local derivatives at the
 * operand values); it is modelled on those, apart from the tensor nodes of `Graph`.
 */
module Backward {

  /** A binary operation of the scalar graph: its name and its local derivatives at the operand values. */
  datatype ScalarBinaryOp = ScalarBinaryOp(opName: string, getGrads: (real, real) -> (real, real))

  /** A unary operation of the scalar graph: its name and its local derivative at the operand value. */
  datatype ScalarUnaryOp = ScalarUnaryOp(opName: string, getGrads: real -> real)

  datatype Node =
    | BinaryOpResult(binOp: ScalarBinaryOp, args: (Node, Node), value: real)
    | UnaryOpResult(unOp: ScalarUnaryOp, arg: Node, value: real)
    | Param(val: real, name: string)

  /** `get_grads` of a binary operation: the local derivatives by each operand at the operand values. */
  function BinaryGrads(op: ScalarBinaryOp, l: real, r: real): (real, real)
  {
    op.getGrads(l, r)
  }

  /** `get_grads` of a unary operation: the local derivative at the operand value. */
  function UnaryGrads(op: ScalarUnaryOp, x: real): real
  {
    op.getGrads(x)
  }

  /** One step of the chain rule: a local derivative times the derivative flowing down from above. */
  function Chain(local: real, upstream: real): real
  {
    local * upstream
  }

  function Val(n: Node): real
  {
    match n
    case BinaryOpResult(_, _, value) => value
    case UnaryOpResult(_, _, value) => value
    case Param(val, _) => val
  }

  /** `DTrace`: `BinOpTrace`, `UnaryOpTrace` and the parameter leaf `DParamDX`. */
  datatype DTrace =
    | BinOp(arg1: DTrace, arg2: DTrace, opName: string, originalVal: real)
    | UnaryOp(arg: DTrace, opName: string, originalVal: real)
    | DParamDX(dVal: real, paramName: string, paramVal: real, varName: string)

  // ---------------------------------------------------------------------------
  // The backward pass

  /**
   * `back_impl`: a parameter becomes a leaf holding the upstream derivative; an
   * operation scales the upstream by each operand's local derivative and recurses.
   */
  function BackImpl(n: Node, upstream: real): (t: DTrace)
    ensures t.DParamDX? <==> n.Param?
    ensures n.Param? ==> t.dVal == upstream && t.paramName == n.name
  {
    match n
    case BinaryOpResult(op, args, value) =>
      var g := BinaryGrads(op, Val(args.0), Val(args.1));
      BinOp(BackImpl(args.0, Chain(g.0, upstream)), BackImpl(args.1, Chain(g.1, upstream)), op.opName, value)
    case UnaryOpResult(op, arg, value) =>
      UnaryOp(BackImpl(arg, Chain(UnaryGrads(op, Val(arg)), upstream)), op.opName, value)
    case Param(val, name) =>
      DParamDX(upstream, name, val, name)
  }

  /** `backwards`: the pass seeded with derivative 1 at the output. */
  function Backwards(n: Node): (t: DTrace)
    ensures Mirrors(n, t)
  {
    BackImplMirrors(n, 1.0);
    BackImpl(n, 1.0)
  }

  /** The trace has the expression's shape, with each operation's name and value and each parameter's name and value. */
  ghost predicate Mirrors(n: Node, t: DTrace)
  {
    match n
    case BinaryOpResult(op, args, value) =>
      t.BinOp? && t.opName == op.opName && t.originalVal == value && Mirrors(args.0, t.arg1) && Mirrors(args.1, t.arg2)
    case UnaryOpResult(op, arg, value) =>
      t.UnaryOp? && t.opName == op.opName && t.originalVal == value && Mirrors(arg, t.arg)
    case Param(val, name) =>
      t.DParamDX? && t.paramName == name && t.varName == name && t.paramVal == val
  }

  lemma {:induction false} BackImplMirrors(n: Node, upstream: real)
    ensures Mirrors(n, BackImpl(n, upstream))
  {
    if n.BinaryOpResult? {
      var t := BackImpl(n, upstream);
      assert t.arg1 == BackImpl(n.args.0, Chain(BinaryGrads(n.binOp, Val(n.args.0), Val(n.args.1)).0, upstream));
      assert t.arg2 == BackImpl(n.args.1, Chain(BinaryGrads(n.binOp, Val(n.args.0), Val(n.args.1)).1, upstream));
      assert t.opName == n.binOp.opName && t.originalVal == n.value;
      BackImplMirrors(n.args.0, Chain(BinaryGrads(n.binOp, Val(n.args.0), Val(n.args.1)).0, upstream));
      BackImplMirrors(n.args.1, Chain(BinaryGrads(n.binOp, Val(n.args.0), Val(n.args.1)).1, upstream));
    } else if n.UnaryOpResult? {
      var t := BackImpl(n, upstream);
      assert t.arg == BackImpl(n.arg, Chain(UnaryGrads(n.unOp, Val(n.arg)), upstream));
      assert t.opName == n.unOp.opName && t.originalVal == n.value;
      BackImplMirrors(n.arg, Chain(UnaryGrads(n.unOp, Val(n.arg)), upstream));
    }
  }

  // ---------------------------------------------------------------------------
  // Leaves and paths

  /** The (parameter name, derivative) pairs at the leaves of a trace, left to right. */
  function Leaves(t: DTrace): seq<(string, real)>
  {
    match t
    case BinOp(arg1, arg2, _, _) => Leaves(arg1) + Leaves(arg2)
    case UnaryOp(arg, _, _) => Leaves(arg)
    case DParamDX(dVal, paramName, _, _) => [(paramName, dVal)]
  }

  /** A path from the output to a parameter occurrence: the parameter's name and the local derivatives on the way. */
  datatype Path = Path(name: string, factors: seq<real>)

  function Prepend(g: real, ps: seq<Path>): (qs: seq<Path>)
    ensures |qs| == |ps|
  {
    seq(|ps|, i requires 0 <= i < |ps| => Path(ps[i].name, [g] + ps[i].factors))
  }

  /** Every path from `n` down to a parameter, left to right. */
  function Paths(n: Node): seq<Path>
  {
    match n
    case BinaryOpResult(op, args, _) =>
      Prepend(BinaryGrads(op, Val(args.0), Val(args.1)).0, Paths(args.0))
        + Prepend(BinaryGrads(op, Val(args.0), Val(args.1)).1, Paths(args.1))
    case UnaryOpResult(op, arg, _) =>
      Prepend(UnaryGrads(op, Val(arg)), Paths(arg))
    case Param(_, name) => [Path(name, [])]
  }

  function Product(s: seq<real>): real
  {
    if |s| == 0 then 1.0 else s[0] * Product(s[1..])
  }

  /** What the chain rule assigns to each path: its name and upstream times the product of its factors. */
  function Scaled(upstream: real, ps: seq<Path>): (ls: seq<(string, real)>)
    ensures |ls| == |ps|
  {
    seq(|ps|, i requires 0 <= i < |ps| => Scale(upstream, ps[i]))
  }

  function Scale(upstream: real, p: Path): (string, real)
  {
    (p.name, Chain(Product(p.factors), upstream))
  }

  /** The number of parameter occurrences below `n`; a parameter used twice counts twice. */
  function ParamCount(n: Node): nat
  {
    match n
    case BinaryOpResult(_, args, _) => ParamCount(args.0) + ParamCount(args.1)
    case UnaryOpResult(_, arg, _) => ParamCount(arg)
    case Param(_, _) => 1
  }

  /** The names of the parameters occurring below `n`. */
  function ParamNames(n: Node): set<string>
  {
    match n
    case BinaryOpResult(_, args, _) => ParamNames(args.0) + ParamNames(args.1)
    case UnaryOpResult(_, arg, _) => ParamNames(arg)
    case Param(_, name) => {name}
  }

  /** One path per parameter occurrence, and the paths end exactly at the parameters' names. */
  lemma {:induction false} PathsOfParams(n: Node)
    ensures |Paths(n)| == ParamCount(n)
    ensures Names(Scaled(1.0, Paths(n))) == ParamNames(n)
  {
    if n.BinaryOpResult? {
      var g := BinaryGrads(n.binOp, Val(n.args.0), Val(n.args.1));
      PathsOfParams(n.args.0);
      PathsOfParams(n.args.1);
      var p0, p1 := Prepend(g.0, Paths(n.args.0)), Prepend(g.1, Paths(n.args.1));
      ScaledAppend(1.0, p0, p1);
      NamesAppend(Scaled(1.0, p0), Scaled(1.0, p1));
      NamesPrepend(g.0, Paths(n.args.0));
      NamesPrepend(g.1, Paths(n.args.1));
    } else if n.UnaryOpResult? {
      PathsOfParams(n.arg);
      NamesPrepend(UnaryGrads(n.unOp, Val(n.arg)), Paths(n.arg));
    } else {
      var ls := Scaled(1.0, Paths(n));
      assert |ls| == 1 && ls[0].0 == n.name;
      NameAt(ls, 0);
    }
  }

  lemma ScaledAppend(u: real, a: seq<Path>, b: seq<Path>)
    ensures Scaled(u, a + b) == Scaled(u, a) + Scaled(u, b)
  {
    var l, r := Scaled(u, a + b), Scaled(u, a) + Scaled(u, b);
    forall i | 0 <= i < |l| ensures l[i] == r[i] {
      if i < |a| {
        assert (a + b)[i] == a[i];
      } else {
        assert (a + b)[i] == b[i - |a|];
      }
    }
  }

  lemma NamesPrepend(g: real, ps: seq<Path>)
    ensures Names(Scaled(1.0, Prepend(g, ps))) == Names(Scaled(1.0, ps))
  {
    var a, b := Scaled(1.0, Prepend(g, ps)), Scaled(1.0, ps);
    forall k | k in Names(a) ensures k in Names(b) {
      var i := NameIndex(k, a);
      assert b[i].0 == k;
      NameAt(b, i);
    }
    forall k | k in Names(b) ensures k in Names(a) {
      var i := NameIndex(k, b);
      assert a[i].0 == k;
      NameAt(a, i);
    }
  }

  /** The chain rule along one path: an extra local derivative `g` in front scales the product by `g`. */
  lemma ChainStep(u: real, g: real, fs: seq<real>)
    ensures Chain(Product(fs), Chain(g, u)) == Chain(Product([g] + fs), u)
  {
    assert ([g] + fs)[1..] == fs;
    Reassociate(u, g, Product(fs));
  }

  lemma Reassociate(u: real, g: real, p: real)
    ensures p * (g * u) == (g * p) * u
  {
  }

  lemma PrependScaled(u: real, g: real, ps: seq<Path>)
    ensures Scaled(Chain(g, u), ps) == Scaled(u, Prepend(g, ps))
  {
    forall i | 0 <= i < |ps| ensures Scaled(Chain(g, u), ps)[i] == Scaled(u, Prepend(g, ps))[i] {
      ChainStep(u, g, ps[i].factors);
    }
  }

  /**
   * The chain rule, path by path: the leaves of the trace are the paths to the
   * parameter occurrences, left to right, each holding the upstream derivative times
   * the product of the local derivatives along its path.
   */
  lemma {:induction false} LeavesArePathProducts(n: Node, upstream: real)
    ensures Leaves(BackImpl(n, upstream)) == Scaled(upstream, Paths(n))
  {
    if n.BinaryOpResult? {
      LeavesArePathProducts(n.args.0, Chain(BinaryGrads(n.binOp, Val(n.args.0), Val(n.args.1)).0, upstream));
      LeavesArePathProducts(n.args.1, Chain(BinaryGrads(n.binOp, Val(n.args.0), Val(n.args.1)).1, upstream));
      PrependScaled(upstream, BinaryGrads(n.binOp, Val(n.args.0), Val(n.args.1)).0, Paths(n.args.0));
      PrependScaled(upstream, BinaryGrads(n.binOp, Val(n.args.0), Val(n.args.1)).1, Paths(n.args.1));
      ScaledAppend(upstream,
        Prepend(BinaryGrads(n.binOp, Val(n.args.0), Val(n.args.1)).0, Paths(n.args.0)),
        Prepend(BinaryGrads(n.binOp, Val(n.args.0), Val(n.args.1)).1, Paths(n.args.1)));
    } else if n.UnaryOpResult? {
      var t := BackImpl(n, upstream);
      assert t.arg == BackImpl(n.arg, Chain(UnaryGrads(n.unOp, Val(n.arg)), upstream));
      assert Paths(n) == Prepend(UnaryGrads(n.unOp, Val(n.arg)), Paths(n.arg));
      LeavesArePathProducts(n.arg, Chain(UnaryGrads(n.unOp, Val(n.arg)), upstream));
      PrependScaled(upstream, UnaryGrads(n.unOp, Val(n.arg)), Paths(n.arg));
    } else {
      var ls := Scaled(upstream, Paths(n));
      assert ls[0] == Scale(upstream, Path(n.name, []));
      assert ls == [(n.name, upstream)];
    }
  }

  // ---------------------------------------------------------------------------
  // Accumulating gradients

  /** One `entry(name).or_insert(0.0)` followed by `+= d`. */
  function AddGrad(m: map<string, real>, name: string, d: real): (m': map<string, real>)
    ensures m'.Keys == m.Keys + {name}
    ensures m'[name] == (if name in m then m[name] else 0.0) + d
    ensures forall k :: k in m && k != name ==> m'[k] == m[k]
  {
    m[name := (if name in m then m[name] else 0.0) + d]
  }

  /** The map after adding every leaf derivative, left to right. */
  function Accumulate(m: map<string, real>, leaves: seq<(string, real)>): map<string, real>
    decreases |leaves|
  {
    if |leaves| == 0 then m else Accumulate(AddGrad(m, leaves[0].0, leaves[0].1), leaves[1..])
  }

  function Names(leaves: seq<(string, real)>): set<string>
  {
    set i | 0 <= i < |leaves| :: leaves[i].0
  }

  /** The sum of the derivatives the leaves carry for `name`. */
  function SumFor(name: string, leaves: seq<(string, real)>): real
    decreases |leaves|
  {
    if |leaves| == 0 then 0.0
    else (if leaves[0].0 == name then leaves[0].1 else 0.0) + SumFor(name, leaves[1..])
  }

  lemma NameAt(leaves: seq<(string, real)>, i: nat)
    requires i < |leaves|
    ensures leaves[i].0 in Names(leaves)
  {
  }

  lemma NameIndex(k: string, leaves: seq<(string, real)>) returns (i: nat)
    requires k in Names(leaves)
    ensures i < |leaves| && leaves[i].0 == k
  {
    i :| 0 <= i < |leaves| && leaves[i].0 == k;
  }

  lemma NamesAppend(a: seq<(string, real)>, b: seq<(string, real)>)
    ensures Names(a + b) == Names(a) + Names(b)
  {
    forall k | k in Names(a + b) ensures k in Names(a) + Names(b) {
      var i := NameIndex(k, a + b);
      if i < |a| { NameAt(a, i); } else { NameAt(b, i - |a|); }
    }
    forall k | k in Names(a) + Names(b) ensures k in Names(a + b) {
      if k in Names(a) {
        var i := NameIndex(k, a);
        NameAt(a + b, i);
      } else {
        var i := NameIndex(k, b);
        NameAt(a + b, |a| + i);
      }
    }
  }

  lemma NamesCons(leaves: seq<(string, real)>)
    requires |leaves| > 0
    ensures Names(leaves) == {leaves[0].0} + Names(leaves[1..])
  {
    assert leaves == [leaves[0]] + leaves[1..];
    NamesAppend([leaves[0]], leaves[1..]);
    assert Names([leaves[0]]) == {leaves[0].0};
  }

  lemma {:induction false} SumForAppend(name: string, a: seq<(string, real)>, b: seq<(string, real)>)
    ensures SumFor(name, a + b) == SumFor(name, a) + SumFor(name, b)
    decreases |a|
  {
    if |a| > 0 {
      assert (a + b)[1..] == a[1..] + b;
      SumForAppend(name, a[1..], b);
    } else {
      assert a + b == b;
    }
  }

  /**
   * After accumulating, the keys are the old keys and the leaves' names, and the entry
   * of each key is its old entry (0 if absent) plus the sum of its leaf derivatives.
   */
  lemma {:induction false} AccumulateSums(m: map<string, real>, leaves: seq<(string, real)>)
    ensures Accumulate(m, leaves).Keys == m.Keys + Names(leaves)
    ensures forall k :: k in Accumulate(m, leaves) ==>
      Accumulate(m, leaves)[k] == (if k in m then m[k] else 0.0) + SumFor(k, leaves)
    decreases |leaves|
  {
    if |leaves| == 0 {
      assert Names(leaves) == {};
    } else {
      var (name, d) := leaves[0];
      var m' := AddGrad(m, name, d);
      AccumulateSums(m', leaves[1..]);
      NamesCons(leaves);
    }
  }

  lemma {:induction false} AccumulateAppend(m: map<string, real>, a: seq<(string, real)>, b: seq<(string, real)>)
    ensures Accumulate(m, a + b) == Accumulate(Accumulate(m, a), b)
    decreases |a|
  {
    if |a| == 0 {
      assert a + b == b;
    } else {
      assert (a + b)[1..] == a[1..] + b;
      AccumulateAppend(AddGrad(m, a[0].0, a[0].1), a[1..], b);
    }
  }

  /** The order in which the leaves are visited does not change the resulting map. */
  lemma AccumulateOrderIrrelevant(m: map<string, real>, a: seq<(string, real)>, b: seq<(string, real)>)
    ensures Accumulate(m, a + b) == Accumulate(m, b + a)
  {
    AccumulateSums(m, a + b);
    AccumulateSums(m, b + a);
    NamesAppend(a, b);
    NamesAppend(b, a);
    forall k | k in Accumulate(m, a + b) ensures Accumulate(m, a + b)[k] == Accumulate(m, b + a)[k] {
      SumForAppend(k, a, b);
      SumForAppend(k, b, a);
    }
  }

  /** `GradMap`: the gradient of each parameter, by name. */
  class GradMap {
    var entries: map<string, real>

    constructor ()
      ensures entries == map[]
    {
      entries := map[];
    }
  }

  /** `_accum_grads`: visits the trace left to right, adding each leaf's derivative to its parameter's entry. */
  method AccumGradsInto(node: DTrace, grads: GradMap)
    modifies grads
    ensures grads.entries == Accumulate(old(grads.entries), Leaves(node))
    decreases node
  {
    match node
    case BinOp(arg1, arg2, _, _) =>
      AccumGradsInto(arg1, grads);
      AccumGradsInto(arg2, grads);
      AccumulateAppend(old(grads.entries), Leaves(arg1), Leaves(arg2));
    case UnaryOp(arg, _, _) =>
      AccumGradsInto(arg, grads);
    case DParamDX(dVal, paramName, _, _) =>
      if paramName !in grads.entries {
        grads.entries := grads.entries[paramName := 0.0];
      }
      grads.entries := grads.entries[paramName := grads.entries[paramName] + dVal];
      assert grads.entries == AddGrad(old(grads.entries), paramName, dVal);
  }

  /** `accum_grads`: a fresh map, filled from the trace. */
  method AccumGrads(node: DTrace) returns (grads: GradMap)
    ensures fresh(grads)
    ensures grads.entries == Accumulate(map[], Leaves(node))
  {
    grads := new GradMap();
    AccumGradsInto(node, grads);
  }

  // ---------------------------------------------------------------------------
  // Gradients of an expression

  /** The sum, over the paths ending at `name`, of the products of their local derivatives. */
  function PathSum(name: string, ps: seq<Path>): real
    decreases |ps|
  {
    if |ps| == 0 then 0.0
    else (if ps[0].name == name then Product(ps[0].factors) else 0.0) + PathSum(name, ps[1..])
  }

  lemma {:induction false} SumForPaths(name: string, ps: seq<Path>)
    ensures SumFor(name, Scaled(1.0, ps)) == PathSum(name, ps)
    decreases |ps|
  {
    if |ps| > 0 {
      assert Scaled(1.0, ps)[1..] == Scaled(1.0, ps[1..]);
      SumForPaths(name, ps[1..]);
    }
  }

  /**
   * Reverse-mode differentiation: the map `accum_grads(backwards(n))` has an entry
   * for exactly the parameters occurring in `n`, and the entry of each is the sum
   * over every path from the output to an occurrence of it of the product of the
   * local derivatives along that path.
   */
  lemma GradientsAreSumsOverPaths(n: Node)
    ensures Accumulate(map[], Leaves(Backwards(n))).Keys == ParamNames(n)
    ensures forall k :: k in ParamNames(n) ==> Accumulate(map[], Leaves(Backwards(n)))[k] == PathSum(k, Paths(n))
  {
    LeavesArePathProducts(n, 1.0);
    PathsOfParams(n);
    AccumulateSums(map[], Scaled(1.0, Paths(n)));
    forall k | k in ParamNames(n) ensures Accumulate(map[], Leaves(Backwards(n)))[k] == PathSum(k, Paths(n)) {
      SumForPaths(k, Paths(n));
    }
  }

  // ---------------------------------------------------------------------------
  // The example model

  /** A scalar product: the derivative by each factor is the other factor. */
  const MulS := ScalarBinaryOp("Mul", (l: real, r: real) => (r, l))

  /** A scalar sum: the derivative by each term is 1. */
  const AddS := ScalarBinaryOp("Add", (l: real, r: real) => (1.0, 1.0))

  /** A scalar square: the derivative is twice the operand. */
  const SqS := ScalarUnaryOp("Sqr", (x: real) => 2.0 * x)

  function MulNode(l: Node, r: Node): Node
  {
    BinaryOpResult(MulS, (l, r), Val(l) * Val(r))
  }

  function AddNode(l: Node, r: Node): Node
  {
    BinaryOpResult(AddS, (l, r), Val(l) + Val(r))
  }

  function SqNode(x: Node): Node
  {
    UnaryOpResult(SqS, x, Val(x) * Val(x))
  }

  /** `(a * b + c * c) * c`, built from parameters `a`, `b` and `c`. */
  function ExampleExpr(a: real, b: real, c: real): Node
  {
    var pa, pb, pc := Param(a, "a"), Param(b, "b"), Param(c, "c");
    MulNode(AddNode(MulNode(pa, pb), SqNode(pc)), pc)
  }

  /**
   * At a = 2, b = 3, c = 4 the accumulated gradients are the partial derivatives of
   * `(a * b + c * c) * c`: `b * c = 12`, `a * c = 8` and `a * b + 3 * c * c = 54`.
   */
  lemma ExampleGradients()
    ensures Accumulate(map[], Leaves(Backwards(ExampleExpr(2.0, 3.0, 4.0)))) == map["a" := 12.0, "b" := 8.0, "c" := 54.0]
  {
  }
}
