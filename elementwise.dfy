/**
 * The public element-wise operations of src/tensor.rs, `add`, `mul`, `sub` and `div`,
 * each a call `elementwise_broadcasted_map(r, l, func)` with the operands exchanged,
 * and what they compute in the cases the operations of the graph rely on: equal
 * shapes and one scalar operand.
 */
module Elementwise {
  import opened Shapes
  import opened Tensors
  import opened Broadcast

  /**
   * What a call of the map with operands `(r, l)` and `f` yields: `ShapeError` exactly
   * when the shapes do not broadcast, otherwise a valid tensor of the output shape whose
   * element at `c` is `f` of the right operand's and the left operand's element behind `c`.
   */
  ghost predicate MapsPointwise(res: Result<Tensor>, r: Tensor, l: Tensor, f: (real, real) -> real)
    requires Valid(r) && Valid(l)
  {
    match BroadcastSpec(l.shape, r.shape)
    case None => res.Err?
    case Some(dirs) =>
      BroadcastSpecDirs(l.shape, r.shape);
      assert |OutShape(l.shape, r.shape)| == |dirs|;
      && res.Ok? && Valid(res.value) && res.value.shape == OutShape(l.shape, r.shape)
      && forall c :: InBounds(c, OutShape(l.shape, r.shape)) ==>
        && InBounds(Project(c, dirs, RTL, |r.shape|), r.shape)
        && InBounds(Project(c, dirs, LTR, |l.shape|), l.shape)
        && At(res.value, c) == f(At(r, Project(c, dirs, RTL, |r.shape|)), At(l, Project(c, dirs, LTR, |l.shape|)))
  }

  lemma BroadcastedMapPointwise(r: Tensor, l: Tensor, f: (real, real) -> real)
    requires MapDefined(r, l)
    ensures MapsPointwise(BroadcastedMap(r, l, f), r, l, f)
  {
    match BroadcastSpec(l.shape, r.shape)
    case None =>
    case Some(dirs) =>
      BroadcastedMapAt(r, l, f, dirs);
  }

  function Plus(a: real, b: real): real { a + b }
  function Times(a: real, b: real): real { a * b }
  function Minus(a: real, b: real): real { a - b }
  function Quotient(a: real, b: real): real { RealDiv(a, b) }

  /** `add(l, r)`: the map over `(r, l)` with `a + b`, so each element is `r[c'] + l[c'']`. */
  function Add(l: Tensor, r: Tensor): (res: Result<Tensor>)
    requires MapDefined(r, l)
    ensures MapsPointwise(res, r, l, Plus)
  {
    BroadcastedMapPointwise(r, l, Plus);
    BroadcastedMap(r, l, Plus)
  }

  /** `mul(l, r)`: each element is `r[c'] * l[c'']`. */
  function Mul(l: Tensor, r: Tensor): (res: Result<Tensor>)
    requires MapDefined(r, l)
    ensures MapsPointwise(res, r, l, Times)
  {
    BroadcastedMapPointwise(r, l, Times);
    BroadcastedMap(r, l, Times)
  }

  /** `sub(l, r)`: the first argument of `func` is the right operand's element, so each element is `r[c'] - l[c'']`. */
  function Sub(l: Tensor, r: Tensor): (res: Result<Tensor>)
    requires MapDefined(r, l)
    ensures MapsPointwise(res, r, l, Minus)
  {
    BroadcastedMapPointwise(r, l, Minus);
    BroadcastedMap(r, l, Minus)
  }

  /** `div(l, r)`: each element is `r[c'] / l[c'']` (0 where `l[c'']` is 0; IEEE infinities are not modelled). */
  function Div(l: Tensor, r: Tensor): (res: Result<Tensor>)
    requires MapDefined(r, l)
    ensures MapsPointwise(res, r, l, Quotient)
  {
    BroadcastedMapPointwise(r, l, Quotient);
    BroadcastedMap(r, l, Quotient)
  }

  // ---------------------------------------------------------------------------
  // Equal shapes and scalar operands

  /** Every element of `c` that `Pin` keeps: no axis has the pinned direction. */
  lemma PinNone(c: seq<nat>, dirs: seq<BroadcastDir>, pinned: BroadcastDir)
    requires |c| == |dirs| && forall k :: 0 <= k < |dirs| ==> dirs[k] != pinned
    ensures Project(c, dirs, pinned, |c|) == c
  {
    var p := Pin(c, dirs, pinned);
    assert p == c;
  }

  /** A direction list that matches every padded axis pair is the result of the rule. */
  lemma BroadcastSpecFrom(shapeL: seq<nat>, shapeR: seq<nat>, dirs: seq<BroadcastDir>)
    requires |dirs| == Max(|shapeL|, |shapeR|)
    requires forall k :: 0 <= k < |dirs| ==>
      AxisDir(PadShape(shapeL, |dirs|)[k], PadShape(shapeR, |dirs|)[k]) == Some(dirs[k])
    ensures BroadcastSpec(shapeL, shapeR) == Some(dirs)
  {
    var n := |dirs|;
    var pl, pr := PadShape(shapeL, n), PadShape(shapeR, n);
    assert forall k :: 0 <= k < n ==> AxisDir(pl[k], pr[k]).Some?;
    assert seq(n, k requires 0 <= k < n => AxisDir(pl[k], pr[k]).value) == dirs;
  }

  lemma PadShapeFull(s: seq<nat>)
    ensures PadShape(s, |s|) == s
  {
    assert seq(0, _ => 1) == [];
  }

  lemma SameShapeDirs(s: seq<nat>)
    ensures BroadcastSpec(s, s) == Some(seq(|s|, _ => UnNeeded))
    ensures OutShape(s, s) == s
  {
    var n := |s|;
    PadShapeFull(s);
    BroadcastSpecFrom(s, s, seq(n, _ => UnNeeded));
    var m := ElemwiseMax(s, s);
    assert m == s;
  }

  /** On operands of one shape the map is `f` element by element, at the same coordinate. */
  lemma MapSameShape(r: Tensor, l: Tensor, f: (real, real) -> real)
    requires Valid(r) && Valid(l) && r.shape == l.shape
    ensures MapDefined(r, l)
    ensures BroadcastedMap(r, l, f).Ok? && BroadcastedMap(r, l, f).value.shape == r.shape
    ensures forall c :: InBounds(c, r.shape) ==> At(BroadcastedMap(r, l, f).value, c) == f(At(r, c), At(l, c))
  {
    SameShapeDirs(r.shape);
    forall c | InBounds(c, r.shape) ensures At(BroadcastedMap(r, l, f).value, c) == f(At(r, c), At(l, c)) {
      MapSameShapeAt(r, l, f, c);
    }
  }

  lemma SameShapeReady(r: Tensor, l: Tensor) returns (dirs: seq<BroadcastDir>)
    requires Valid(r) && Valid(l) && r.shape == l.shape
    ensures MapDefined(r, l) && BroadcastSpec(l.shape, r.shape) == Some(dirs)
    ensures OutShape(l.shape, r.shape) == r.shape && |dirs| == |r.shape|
    ensures forall k :: 0 <= k < |dirs| ==> dirs[k] == UnNeeded
  {
    SameShapeDirs(r.shape);
    dirs := seq(|r.shape|, _ => UnNeeded);
  }

  lemma MapSameShapeAt(r: Tensor, l: Tensor, f: (real, real) -> real, c: seq<nat>)
    requires Valid(r) && Valid(l) && r.shape == l.shape && InBounds(c, r.shape)
    ensures MapDefined(r, l)
    ensures BroadcastedMap(r, l, f).Ok? && BroadcastedMap(r, l, f).value.shape == r.shape
    ensures At(BroadcastedMap(r, l, f).value, c) == f(At(r, c), At(l, c))
  {
    var dirs := SameShapeReady(r, l);
    BroadcastedMapAtCoord(r, l, f, dirs, c);
    PinNone(c, dirs, RTL);
    PinNone(c, dirs, LTR);
  }

  lemma ScalarRightDirs(s: seq<nat>)
    requires Prod(s) > 0
    ensures BroadcastSpec(s, []) == Some(seq(|s|, k requires 0 <= k < |s| => if s[k] == 1 then UnNeeded else RTL))
    ensures OutShape(s, []) == s
  {
    var n := |s|;
    ProdPositive(s);
    PadShapeFull(s);
    var ones := PadShape([], n);
    BroadcastSpecFrom(s, [], seq(n, k requires 0 <= k < n => if s[k] == 1 then UnNeeded else RTL));
    var m := ElemwiseMax(s, ones);
    assert m == s;
  }

  lemma ScalarLeftDirs(s: seq<nat>)
    requires Prod(s) > 0
    ensures BroadcastSpec([], s) == Some(seq(|s|, k requires 0 <= k < |s| => if s[k] == 1 then UnNeeded else LTR))
    ensures OutShape([], s) == s
  {
    var n := |s|;
    ProdPositive(s);
    PadShapeFull(s);
    var ones := PadShape([], n);
    BroadcastSpecFrom([], s, seq(n, k requires 0 <= k < n => if s[k] == 1 then UnNeeded else LTR));
    var m := ElemwiseMax(ones, s);
    assert m == s;
  }

  /** A scalar right operand is paired with every element of the left one, which has no empty axis. */
  lemma MapScalarRight(x: real, l: Tensor, f: (real, real) -> real)
    requires Valid(l) && Prod(l.shape) > 0
    ensures MapDefined(FromScalar(x), l)
    ensures BroadcastedMap(FromScalar(x), l, f).Ok? && BroadcastedMap(FromScalar(x), l, f).value.shape == l.shape
    ensures forall c :: InBounds(c, l.shape) ==> At(BroadcastedMap(FromScalar(x), l, f).value, c) == f(x, At(l, c))
  {
    ScalarRightDirs(l.shape);
    forall c | InBounds(c, l.shape) ensures At(BroadcastedMap(FromScalar(x), l, f).value, c) == f(x, At(l, c)) {
      MapScalarRightAt(x, l, f, c);
    }
  }

  lemma MapScalarRightAt(x: real, l: Tensor, f: (real, real) -> real, c: seq<nat>)
    requires Valid(l) && Prod(l.shape) > 0 && InBounds(c, l.shape)
    ensures MapDefined(FromScalar(x), l)
    ensures BroadcastedMap(FromScalar(x), l, f).Ok? && BroadcastedMap(FromScalar(x), l, f).value.shape == l.shape
    ensures At(BroadcastedMap(FromScalar(x), l, f).value, c) == f(x, At(l, c))
  {
    var s := l.shape;
    ScalarRightDirs(s);
    var dirs := seq(|s|, k requires 0 <= k < |s| => if s[k] == 1 then UnNeeded else RTL);
    BroadcastedMapAtCoord(FromScalar(x), l, f, dirs, c);
    assert Project(c, dirs, RTL, 0) == [];
    PinNone(c, dirs, LTR);
  }

  /** A scalar left operand is paired with every element of the right one, which has no empty axis. */
  lemma MapScalarLeft(r: Tensor, x: real, f: (real, real) -> real)
    requires Valid(r) && Prod(r.shape) > 0
    ensures MapDefined(r, FromScalar(x))
    ensures BroadcastedMap(r, FromScalar(x), f).Ok? && BroadcastedMap(r, FromScalar(x), f).value.shape == r.shape
    ensures forall c :: InBounds(c, r.shape) ==> At(BroadcastedMap(r, FromScalar(x), f).value, c) == f(At(r, c), x)
  {
    ScalarLeftDirs(r.shape);
    forall c | InBounds(c, r.shape) ensures At(BroadcastedMap(r, FromScalar(x), f).value, c) == f(At(r, c), x) {
      MapScalarLeftAt(r, x, f, c);
    }
  }

  lemma MapScalarLeftAt(r: Tensor, x: real, f: (real, real) -> real, c: seq<nat>)
    requires Valid(r) && Prod(r.shape) > 0 && InBounds(c, r.shape)
    ensures MapDefined(r, FromScalar(x))
    ensures BroadcastedMap(r, FromScalar(x), f).Ok? && BroadcastedMap(r, FromScalar(x), f).value.shape == r.shape
    ensures At(BroadcastedMap(r, FromScalar(x), f).value, c) == f(At(r, c), x)
  {
    var s := r.shape;
    ScalarLeftDirs(s);
    var dirs := seq(|s|, k requires 0 <= k < |s| => if s[k] == 1 then UnNeeded else LTR);
    BroadcastedMapAtCoord(r, FromScalar(x), f, dirs, c);
    assert Project(c, dirs, LTR, 0) == [];
    PinNone(c, dirs, RTL);
  }
}
