/**
 * Right-aligned broadcasting (src/tensor.rs): the per-axis rule `broadcastable`, the
 * output shape `elemwise_max`, and `elementwise_broadcasted_map`, which pads both operands
 * to a common rank and fills the output buffer through the recursive `inner`.
 *
 * The map takes its operands as `(r, l)` and passes `func(r[c'], l[c''])`; the public
 * `add`/`sub`/`mul`/`div` call it as `map(r, l)`, so `sub(l, r)` computes `r - l`.
 */
module Broadcast {
  import opened Shapes
  import opened Tensors

  datatype Option<T> = None | Some(value: T)

  /** `ShapeError`: the operands' shapes do not broadcast. */
  datatype ShapeError = ShapeError

  datatype Result<T> = Ok(value: T) | Err(error: ShapeError)

  /** Per axis: no broadcast, the left operand broadcasts (`LTR`), or the right one does (`RTL`). */
  datatype BroadcastDir = UnNeeded | LTR | RTL

  /** `max`. */
  function Max(a: nat, b: nat): (m: nat)
    ensures m >= a && m >= b && (m == a || m == b)
  {
    if a > b then a else b
  }

  /** A shape padded on the left with size-1 axes up to rank `n`. */
  function PadShape(s: seq<nat>, n: nat): (p: seq<nat>)
    requires |s| <= n
    ensures |p| == n
    ensures forall k :: 0 <= k < n - |s| ==> p[k] == 1
    ensures forall k :: 0 <= k < |s| ==> p[n - |s| + k] == s[k]
  {
    seq(n - |s|, _ => 1) + s
  }

  /** Axis `i` counted from the right of the padded shape: the shape's own axis, or a padding 1. */
  lemma PadShapeFromRight(s: seq<nat>, n: nat, i: nat)
    requires |s| <= n && 1 <= i <= n
    ensures PadShape(s, n)[n - i] == if i <= |s| then s[|s| - i] else 1
  {
    if i <= |s| {
      assert n - i == n - |s| + (|s| - i);
    }
  }

  /** The direction of one axis with sizes `dimL` and `dimR`, in the order the source matches them. */
  function AxisDir(dimL: nat, dimR: nat): Option<BroadcastDir>
  {
    if dimL == 1 && dimR == 1 then Some(UnNeeded)
    else if dimL == 1 then Some(LTR)
    else if dimR == 1 then Some(RTL)
    else if dimL == dimR then Some(UnNeeded)
    else None
  }

  /** The direction list of `broadcastable`: one entry per axis of the common rank, aligned from the right. */
  function BroadcastSpec(shapeL: seq<nat>, shapeR: seq<nat>): Option<seq<BroadcastDir>>
  {
    var n := Max(|shapeL|, |shapeR|);
    var pl, pr := PadShape(shapeL, n), PadShape(shapeR, n);
    if forall k :: 0 <= k < n ==> AxisDir(pl[k], pr[k]).Some? then
      Some(seq(n, k requires 0 <= k < n => AxisDir(pl[k], pr[k]).value))
    else None
  }

  /** Two shapes broadcast exactly when every padded axis pair is equal or holds a 1 (the NumPy rule). */
  lemma BroadcastSpecCompatible(shapeL: seq<nat>, shapeR: seq<nat>)
    ensures var n := Max(|shapeL|, |shapeR|);
      BroadcastSpec(shapeL, shapeR).Some? <==>
        forall k :: 0 <= k < n ==>
          PadShape(shapeL, n)[k] == PadShape(shapeR, n)[k] || PadShape(shapeL, n)[k] == 1 || PadShape(shapeR, n)[k] == 1
  {
  }

  /** The direction of one axis: `LTR` exactly when only the left size is 1, `RTL` when only the right one is. */
  lemma AxisDirMeaning(dimL: nat, dimR: nat)
    ensures AxisDir(dimL, dimR).Some? <==> dimL == dimR || dimL == 1 || dimR == 1
    ensures AxisDir(dimL, dimR) == Some(LTR) <==> dimL == 1 && dimR != 1
    ensures AxisDir(dimL, dimR) == Some(RTL) <==> dimL != 1 && dimR == 1
    ensures AxisDir(dimL, dimR) == Some(UnNeeded) <==> dimL == dimR
  {
  }

  /**
   * When the shapes broadcast, the direction list has the common rank, and each entry says
   * which side has a size-1 axis against a different size: `LTR` pins the left operand,
   * `RTL` the right one, and `UnNeeded` means the two sizes are equal.
   */
  lemma BroadcastSpecDirs(shapeL: seq<nat>, shapeR: seq<nat>)
    requires BroadcastSpec(shapeL, shapeR).Some?
    ensures var n := Max(|shapeL|, |shapeR|);
      var dirs := BroadcastSpec(shapeL, shapeR).value;
      var pl, pr := PadShape(shapeL, n), PadShape(shapeR, n);
      && |dirs| == n
      && (forall k :: 0 <= k < n ==> (dirs[k] == LTR <==> pl[k] == 1 && pr[k] != 1))
      && (forall k :: 0 <= k < n ==> (dirs[k] == RTL <==> pl[k] != 1 && pr[k] == 1))
      && (forall k :: 0 <= k < n ==> (dirs[k] == UnNeeded <==> pl[k] == pr[k]))
  {
    var n := Max(|shapeL|, |shapeR|);
    var pl, pr := PadShape(shapeL, n), PadShape(shapeR, n);
    forall k | 0 <= k < n ensures AxisDir(pl[k], pr[k]).Some? {
    }
    var dirs := BroadcastSpec(shapeL, shapeR).value;
    forall k | 0 <= k < n
      ensures (dirs[k] == LTR <==> pl[k] == 1 && pr[k] != 1)
      ensures (dirs[k] == RTL <==> pl[k] != 1 && pr[k] == 1)
      ensures (dirs[k] == UnNeeded <==> pl[k] == pr[k])
    {
      assert Some(dirs[k]) == AxisDir(pl[k], pr[k]);
      AxisDirMeaning(pl[k], pr[k]);
    }
  }

  function Flip(d: BroadcastDir): BroadcastDir
  {
    match d
    case UnNeeded => UnNeeded
    case LTR => RTL
    case RTL => LTR
  }

  /** Exchanging the operands exchanges `LTR` and `RTL` and keeps compatibility. */
  lemma BroadcastSpecSwap(shapeL: seq<nat>, shapeR: seq<nat>)
    ensures BroadcastSpec(shapeR, shapeL).Some? <==> BroadcastSpec(shapeL, shapeR).Some?
    ensures BroadcastSpec(shapeL, shapeR).Some? ==>
      |BroadcastSpec(shapeR, shapeL).value| == |BroadcastSpec(shapeL, shapeR).value| &&
      forall k :: 0 <= k < |BroadcastSpec(shapeL, shapeR).value| ==>
        BroadcastSpec(shapeR, shapeL).value[k] == Flip(BroadcastSpec(shapeL, shapeR).value[k])
  {
    var n := Max(|shapeL|, |shapeR|);
    assert Max(|shapeR|, |shapeL|) == n;
    var pl, pr := PadShape(shapeL, n), PadShape(shapeR, n);
    forall k | 0 <= k < n
      ensures AxisDir(pr[k], pl[k]).Some? == AxisDir(pl[k], pr[k]).Some?
      ensures AxisDir(pl[k], pr[k]).Some? ==> AxisDir(pr[k], pl[k]).value == Flip(AxisDir(pl[k], pr[k]).value)
    {
    }
  }

  /** Axis `i` counted from the right (from 1), reading a missing axis as size 1. */
  function DimFromRight(s: seq<nat>, i: nat): nat
  {
    if 1 <= i <= |s| then s[|s| - i] else 1
  }

  lemma BroadcastSpecNone(shapeL: seq<nat>, shapeR: seq<nat>, i: nat)
    requires 1 <= i <= Max(|shapeL|, |shapeR|)
    requires AxisDir(DimFromRight(shapeL, i), DimFromRight(shapeR, i)).None?
    ensures BroadcastSpec(shapeL, shapeR).None?
  {
    var n := Max(|shapeL|, |shapeR|);
    PadShapeFromRight(shapeL, n, i);
    PadShapeFromRight(shapeR, n, i);
  }

  /** Axis `k` of a shape padded to rank `n` is axis `n - k` of the shape counted from the right. */
  lemma PaddedAxis(s: seq<nat>, n: nat, k: nat)
    requires |s| <= n && k < n
    ensures PadShape(s, n)[k] == DimFromRight(s, n - k)
  {
    var pad := n - |s|;
    if k >= pad {
      var j := k - pad;
      assert PadShape(s, n)[pad + j] == s[j];
      assert |s| - (n - k) == j;
    }
  }

  /** Read from the left, the padded axis pairs have the directions of the reversed list. */
  lemma PaddedDirsReversed(shapeL: seq<nat>, shapeR: seq<nat>, out: seq<BroadcastDir>)
    requires |out| == Max(|shapeL|, |shapeR|)
    requires forall j :: 0 <= j < |out| ==> AxisDir(DimFromRight(shapeL, j + 1), DimFromRight(shapeR, j + 1)) == Some(out[j])
    ensures forall k :: 0 <= k < |out| ==>
      AxisDir(PadShape(shapeL, |out|)[k], PadShape(shapeR, |out|)[k]) == Some(out[|out| - 1 - k])
  {
    var n := |out|;
    forall k | 0 <= k < n
      ensures AxisDir(PadShape(shapeL, n)[k], PadShape(shapeR, n)[k]) == Some(out[n - 1 - k])
    {
      PaddedAxis(shapeL, n, k);
      PaddedAxis(shapeR, n, k);
      assert (n - 1 - k) + 1 == n - k;
    }
  }

  /** A list whose `j`-th entry is the direction of axis `j + 1` from the right is the reversed direction list. */
  lemma BroadcastSpecSome(shapeL: seq<nat>, shapeR: seq<nat>, out: seq<BroadcastDir>)
    requires |out| == Max(|shapeL|, |shapeR|)
    requires forall j :: 0 <= j < |out| ==> AxisDir(DimFromRight(shapeL, j + 1), DimFromRight(shapeR, j + 1)) == Some(out[j])
    ensures BroadcastSpec(shapeL, shapeR) == Some(Reverse(out))
  {
    var n := |out|;
    var pl, pr := PadShape(shapeL, n), PadShape(shapeR, n);
    PaddedDirsReversed(shapeL, shapeR, out);
    var spec := seq(n, k requires 0 <= k < n => AxisDir(pl[k], pr[k]).value);
    assert spec == Reverse(out);
  }

  function Reverse<T>(s: seq<T>): (r: seq<T>)
    ensures |r| == |s|
  {
    seq(|s|, k requires 0 <= k < |s| => s[|s| - 1 - k])
  }

  /**
   * `broadcastable`: walks the axes from the last one, reading a missing axis as size 1,
   * pushes one direction per axis (returning `None` on the first incompatible pair) and
   * reverses the list at the end.
   */
  method Broadcastable(shapeL: seq<nat>, shapeR: seq<nat>) returns (res: Option<seq<BroadcastDir>>)
    ensures res == BroadcastSpec(shapeL, shapeR)
  {
    var l := if |shapeL| > |shapeR| then |shapeL| else |shapeR|;
    var shapeLLen := |shapeL|;
    var shapeRLen := |shapeR|;
    var out: seq<BroadcastDir> := [];
    for i := 1 to l + 1
      invariant |out| == i - 1
      invariant forall j :: 0 <= j < i - 1 ==> AxisDir(DimFromRight(shapeL, j + 1), DimFromRight(shapeR, j + 1)) == Some(out[j])
    {
      var dimL := if i <= shapeLLen then shapeL[shapeLLen - i] else 1;
      var dimR := if i <= shapeRLen then shapeR[shapeRLen - i] else 1;
      var broadcastDir;
      if dimL == 1 && dimR == 1 {
        broadcastDir := UnNeeded;
      } else if dimL == 1 {
        broadcastDir := LTR;
      } else if dimR == 1 {
        broadcastDir := RTL;
      } else if dimL == dimR {
        broadcastDir := UnNeeded;
      } else {
        BroadcastSpecNone(shapeL, shapeR, i);
        return None;
      }
      assert AxisDir(DimFromRight(shapeL, i), DimFromRight(shapeR, i)) == Some(broadcastDir);
      out := out + [broadcastDir];
    }
    res := Some(Reverse(out));
    BroadcastSpecSome(shapeL, shapeR, out);
  }

  /** `elemwise_max`: the sizes of two shapes zipped (stopping at the shorter) and maximised. */
  function ElemwiseMax(a: seq<nat>, b: seq<nat>): (m: seq<nat>)
    ensures |m| == if |a| < |b| then |a| else |b|
    ensures forall k :: 0 <= k < |m| ==> m[k] == Max(a[k], b[k])
  {
    if |a| == 0 || |b| == 0 then []
    else [Max(a[0], b[0])] + ElemwiseMax(a[1..], b[1..])
  }

  /** The output shape of the map: the elementwise maximum of both shapes padded to the common rank. */
  function OutShape(shapeL: seq<nat>, shapeR: seq<nat>): seq<nat>
  {
    var n := Max(|shapeL|, |shapeR|);
    ElemwiseMax(PadShape(shapeL, n), PadShape(shapeR, n))
  }

  // ---------------------------------------------------------------------------
  // Padding

  /** The `while` loops of the map: `unsqueeze_(0)` until the rank reaches `n`. */
  function PadTo(t: Tensor, n: nat): Tensor
    decreases n - |t.shape|
  {
    if |t.shape| >= n then t else PadTo(Unsqueeze(t, 0), n)
  }

  function Zeros(k: nat): (z: seq<nat>)
    ensures |z| == k
  {
    seq(k, _ => 0)
  }

  lemma PadShapeCons(s: seq<nat>, n: nat)
    requires |s| < n
    ensures PadShape([1] + s, n) == PadShape(s, n)
  {
    var p, q, s1 := PadShape([1] + s, n), PadShape(s, n), [1] + s;
    forall k | 0 <= k < n ensures p[k] == q[k] {
      if k >= n - |s| {
        assert p[n - |s1| + (k - n + |s1|)] == s1[k - n + |s1|];
        assert q[n - |s| + (k - n + |s|)] == s[k - n + |s|];
      } else if k == n - |s1| {
        assert p[n - |s1| + 0] == s1[0];
      }
    }
  }

  /** Padding to rank `n` pads both the shape and the strides with leading 1s and keeps the buffer. */
  lemma {:induction false} PadToValue(t: Tensor, n: nat)
    requires |t.shape| <= n && |t.stride| == |t.shape|
    ensures PadTo(t, n) == Tensor(t.data, PadShape(t.shape, n), PadShape(t.stride, n))
    decreases n - |t.shape|
  {
    if |t.shape| < n {
      var u := Unsqueeze(t, 0);
      assert u.shape == [1] + t.shape && u.stride == [1] + t.stride;
      PadToValue(u, n);
      PadShapeCons(t.shape, n);
      PadShapeCons(t.stride, n);
    } else {
      assert PadShape(t.shape, n) == t.shape && PadShape(t.stride, n) == t.stride;
    }
  }

  lemma {:induction false} FlatIdxZeros(k: nat, st: seq<nat>)
    ensures FlatIdx(Zeros(k), st) == 0
  {
    if k > 0 && |st| > 0 {
      assert Zeros(k)[1..] == Zeros(k - 1);
      FlatIdxZeros(k - 1, st[1..]);
    }
  }

  /** Leading zeros on the padding axes add nothing to the offset. */
  lemma FlatIdxPadded(c: seq<nat>, st: seq<nat>, n: nat)
    requires |c| == |st| <= n
    ensures FlatIdx(Zeros(n - |st|) + c, PadShape(st, n)) == FlatIdx(c, st)
  {
    var k := n - |st|;
    FlatIdxAppend(Zeros(k), c, seq(k, _ => 1), st);
    FlatIdxZeros(k, seq(k, _ => 1));
  }

  /** A coordinate of a padded shape is zeros followed by a coordinate of the shape itself. */
  lemma PaddedCoord(c: seq<nat>, s: seq<nat>, n: nat)
    requires |s| <= n && InBounds(c, PadShape(s, n))
    ensures c == Zeros(n - |s|) + c[n - |s|..] && InBounds(c[n - |s|..], s)
  {
    var k, ps, z := n - |s|, PadShape(s, n), Zeros(n - |s|);
    var rest := c[k..];
    forall i | 0 <= i < n ensures c[i] == (z + rest)[i] {
      if i < k {
        assert c[i] < ps[i] && ps[i] == 1;
      } else {
        assert (z + rest)[i] == rest[i - k];
      }
    }
    forall i | 0 <= i < |s| ensures rest[i] < s[i] {
      assert rest[i] == c[k + i] && ps[k + i] == s[i];
    }
  }

  /** Padding keeps the buffer and validity and gives the padded shape. */
  lemma PadToValid(t: Tensor, n: nat)
    requires Valid(t) && |t.shape| <= n
    ensures PadTo(t, n).data == t.data && Valid(PadTo(t, n))
    ensures PadTo(t, n).shape == PadShape(t.shape, n)
  {
    PadToValue(t, n);
    ProdPadShape(t.shape, n);
    forall c | InBounds(c, PadShape(t.shape, n)) ensures FlatIdx(c, PadShape(t.stride, n)) < |t.data| {
      PaddedInside(t, n, c);
    }
  }

  lemma {:induction false} ProdPadShape(s: seq<nat>, n: nat)
    requires |s| <= n
    ensures Prod(PadShape(s, n)) == Prod(s)
    decreases n
  {
    if |s| < n {
      var k := n - |s|;
      var p := PadShape(s, n);
      var ones := seq(k, _ => 1);
      assert ones[1..] == seq(k - 1, _ => 1);
      assert p == ones + s;
      assert (ones + s)[1..] == ones[1..] + s;
      assert p[0] == 1 && p[1..] == PadShape(s, n - 1);
      ProdPadShape(s, n - 1);
      var rest := Prod(p[1..]);
      assert Prod(p) == 1 * rest;
    } else {
      assert PadShape(s, n) == s;
    }
  }

  lemma PaddedInside(t: Tensor, n: nat, c: seq<nat>)
    requires Valid(t) && |t.shape| <= n && InBounds(c, PadShape(t.shape, n))
    ensures FlatIdx(c, PadShape(t.stride, n)) < |t.data|
  {
    PaddedCoord(c, t.shape, n);
    FlatIdxPadded(c[n - |t.shape|..], t.stride, n);
  }

  /** The padded tensor reads the old element behind leading zeros. */
  lemma PadToCoord(t: Tensor, n: nat, c: seq<nat>)
    requires Valid(t) && |t.shape| <= n && InBounds(c, t.shape)
    ensures PadTo(t, n).data == t.data
    ensures InBounds(Zeros(n - |t.shape|) + c, PadTo(t, n).shape)
    ensures FlatIdx(Zeros(n - |t.shape|) + c, PadTo(t, n).stride) == FlatIdx(c, t.stride)
    ensures At(PadTo(t, n), Zeros(n - |t.shape|) + c) == At(t, c)
  {
    PadToValue(t, n);
    var k := n - |t.shape|;
    var z := Zeros(k) + c;
    forall i | 0 <= i < n ensures z[i] < PadShape(t.shape, n)[i] {
      if i >= k {
        assert z[i] == c[i - k];
      }
    }
    FlatIdxPadded(c, t.stride, n);
  }

  /** Padding keeps the buffer, gives the padded shape, and reads the old element behind leading zeros. */
  lemma PadToAt(t: Tensor, n: nat)
    requires Valid(t) && |t.shape| <= n
    ensures PadTo(t, n).data == t.data && Valid(PadTo(t, n))
    ensures PadTo(t, n).shape == PadShape(t.shape, n)
    ensures forall c :: InBounds(c, t.shape) ==>
      var z := Zeros(n - |t.shape|) + c;
      InBounds(z, PadTo(t, n).shape) && At(PadTo(t, n), z) == At(t, c)
  {
    PadToValid(t, n);
    forall c | InBounds(c, t.shape)
      ensures InBounds(Zeros(n - |t.shape|) + c, PadTo(t, n).shape)
      ensures At(PadTo(t, n), Zeros(n - |t.shape|) + c) == At(t, c)
    {
      PadToCoord(t, n, c);
    }
  }

  // ---------------------------------------------------------------------------
  // Elements of the map

  /**
   * What the padded operands and the output shape satisfy once the directions are known:
   * one entry per axis everywhere, the output size is the larger size, a pinned side has
   * size 1 on that axis, and `UnNeeded` axes have equal sizes.
   */
  ghost predicate Agreement(dirs: seq<BroadcastDir>, shapeL: seq<nat>, shapeR: seq<nat>, outShape: seq<nat>)
  {
    && |shapeL| == |dirs| && |shapeR| == |dirs| && |outShape| == |dirs|
    && forall k :: 0 <= k < |dirs| ==>
      && outShape[k] == Max(shapeL[k], shapeR[k])
      && (dirs[k] == LTR ==> shapeL[k] == 1)
      && (dirs[k] == RTL ==> shapeR[k] == 1)
      && (dirs[k] == UnNeeded ==> shapeL[k] == shapeR[k])
  }

  /** The coordinate of one operand: the output coordinate with the index forced to 0 on its broadcast axes. */
  function Pin(c: seq<nat>, dirs: seq<BroadcastDir>, pinned: BroadcastDir): (p: seq<nat>)
    requires |c| <= |dirs|
    ensures |p| == |c|
  {
    seq(|c|, k requires 0 <= k < |c| => if dirs[k] == pinned then 0 else c[k])
  }

  lemma PinSnoc(c: seq<nat>, i: nat, dirs: seq<BroadcastDir>, pinned: BroadcastDir)
    requires |c| < |dirs|
    ensures Pin(c + [i], dirs, pinned) == Pin(c, dirs, pinned) + [if dirs[|c|] == pinned then 0 else i]
  {
  }

  /** With no empty axis on either side, pinned output coordinates are coordinates of the operands. */
  lemma PinInBounds(c: seq<nat>, dirs: seq<BroadcastDir>, shapeL: seq<nat>, shapeR: seq<nat>, outShape: seq<nat>)
    requires Agreement(dirs, shapeL, shapeR, outShape) && InBounds(c, outShape)
    requires Prod(shapeL) > 0 && Prod(shapeR) > 0
    ensures InBounds(Pin(c, dirs, RTL), shapeR) && InBounds(Pin(c, dirs, LTR), shapeL)
  {
    ProdPositive(shapeL);
    ProdPositive(shapeR);
  }

  /** The operands of one output element can be read: the map does not panic. */
  ghost predicate ElemReady(r: Tensor, l: Tensor, dirs: seq<BroadcastDir>, outShape: seq<nat>)
  {
    && Valid(r) && Valid(l) && Agreement(dirs, l.shape, r.shape, outShape)
    && (Prod(outShape) > 0 ==> |r.data| > 0 && |l.data| > 0)
  }

  lemma ElemDefined(r: Tensor, l: Tensor, dirs: seq<BroadcastDir>, outShape: seq<nat>, c: seq<nat>)
    requires ElemReady(r, l, dirs, outShape) && InBounds(c, outShape)
    ensures InBounds(Pin(c, dirs, RTL), r.shape) && FlatIdx(Pin(c, dirs, RTL), r.stride) < |r.data|
    ensures InBounds(Pin(c, dirs, LTR), l.shape) && FlatIdx(Pin(c, dirs, LTR), l.stride) < |l.data|
  {
    InBoundsProdPositive(c, outShape);
    PinInBounds(c, dirs, l.shape, r.shape, outShape);
  }

  /** The leaf of `inner`: `func(r.at(r_stack), l.at(l_stack))` at output coordinate `c`. */
  function Elem(r: Tensor, l: Tensor, dirs: seq<BroadcastDir>, outShape: seq<nat>, f: (real, real) -> real, c: seq<nat>): real
    requires ElemReady(r, l, dirs, outShape) && InBounds(c, outShape)
  {
    ElemDefined(r, l, dirs, outShape, c);
    f(At(r, Pin(c, dirs, RTL)), At(l, Pin(c, dirs, LTR)))
  }

  // ---------------------------------------------------------------------------
  // The map as a function

  /**
   * The panics of the map ruled out: both operands valid, and when the shapes broadcast to
   * a non-empty output, neither operand is empty (an empty operand against a size-1 axis
   * yields an output axis of size 1 whose element cannot be read).
   */
  ghost predicate MapDefined(r: Tensor, l: Tensor)
  {
    && Valid(r) && Valid(l)
    && (BroadcastSpec(l.shape, r.shape).Some? && Prod(OutShape(l.shape, r.shape)) > 0 ==> |r.data| > 0 && |l.data| > 0)
  }

  /** The padded operands are ready for every output coordinate. */
  lemma MapReady(r: Tensor, l: Tensor, dirs: seq<BroadcastDir>)
    requires MapDefined(r, l) && BroadcastSpec(l.shape, r.shape) == Some(dirs)
    ensures |dirs| == Max(|l.shape|, |r.shape|)
    ensures PadTo(r, |dirs|).shape == PadShape(r.shape, |dirs|) && PadTo(l, |dirs|).shape == PadShape(l.shape, |dirs|)
    ensures ElemwiseMax(PadTo(l, |dirs|).shape, PadTo(r, |dirs|).shape) == OutShape(l.shape, r.shape)
    ensures ElemReady(PadTo(r, |dirs|), PadTo(l, |dirs|), dirs, OutShape(l.shape, r.shape))
  {
    BroadcastSpecDirs(l.shape, r.shape);
    var n := |dirs|;
    PadToAt(r, n);
    PadToAt(l, n);
  }

  /**
   * `elementwise_broadcasted_map(r, l, func)` as a value: `ShapeError` when the shapes do not
   * broadcast, otherwise a row-major tensor of the output shape whose element at each
   * coordinate is the leaf value of `inner` there.
   */
  function BroadcastedMap(r: Tensor, l: Tensor, f: (real, real) -> real): (res: Result<Tensor>)
    requires MapDefined(r, l)
    ensures res.Err? <==> BroadcastSpec(l.shape, r.shape).None?
    ensures res.Ok? ==> Valid(res.value) && res.value.shape == OutShape(l.shape, r.shape)
  {
    match BroadcastSpec(l.shape, r.shape)
    case None => Err(ShapeError)
    case Some(dirs) =>
      MapReady(r, l, dirs);
      var os := OutShape(l.shape, r.shape);
      var data := MapData(PadTo(r, |dirs|), PadTo(l, |dirs|), dirs, os, f);
      RowMajorValid(data, os);
      Ok(Tensor(data, os, PostfixProd(os)))
  }

  lemma BroadcastedMapValue(r: Tensor, l: Tensor, f: (real, real) -> real, dirs: seq<BroadcastDir>)
    requires MapDefined(r, l) && BroadcastSpec(l.shape, r.shape) == Some(dirs)
    ensures ElemReady(PadTo(r, |dirs|), PadTo(l, |dirs|), dirs, OutShape(l.shape, r.shape))
    ensures BroadcastedMap(r, l, f) ==
      Ok(Tensor(MapData(PadTo(r, |dirs|), PadTo(l, |dirs|), dirs, OutShape(l.shape, r.shape), f),
                OutShape(l.shape, r.shape), PostfixProd(OutShape(l.shape, r.shape))))
  {
    MapReady(r, l, dirs);
  }

  /** The row-major buffer of the map's result: the leaf value at the coordinate of every offset. */
  function MapData(r: Tensor, l: Tensor, dirs: seq<BroadcastDir>, outShape: seq<nat>, f: (real, real) -> real): (data: seq<real>)
    requires ElemReady(r, l, dirs, outShape)
    ensures |data| == Prod(outShape)
  {
    seq(Prod(outShape), o requires 0 <= o < Prod(outShape) =>
      UnflattenFlatIdx(o, outShape); Elem(r, l, dirs, outShape, f, Unflatten(o, outShape)))
  }

  /** At the offset of every output coordinate, the buffer holds the leaf value of that coordinate. */
  lemma MapDataAt(r: Tensor, l: Tensor, dirs: seq<BroadcastDir>, outShape: seq<nat>, f: (real, real) -> real, c: seq<nat>)
    requires ElemReady(r, l, dirs, outShape) && InBounds(c, outShape)
    ensures FlatIdx(c, PostfixProd(outShape)) < Prod(outShape)
    ensures MapData(r, l, dirs, outShape, f)[FlatIdx(c, PostfixProd(outShape))] == Elem(r, l, dirs, outShape, f, c)
  {
    FlatIdxBound(c, outShape);
    FlatIdxUnflatten(c, outShape);
  }

  /** The coordinate of an operand of rank `rank` behind an output coordinate: the pinned coordinate without its padding. */
  function Project(c: seq<nat>, dirs: seq<BroadcastDir>, pinned: BroadcastDir, rank: nat): seq<nat>
    requires rank <= |c| <= |dirs|
  {
    Pin(c, dirs, pinned)[|c| - rank..]
  }

  /** On a padded axis of one side the output has size 1 unless that side is pinned there, so the pinned index is 0. */
  lemma PinnedPadding(c: seq<nat>, dirs: seq<BroadcastDir>, shapeL: seq<nat>, shapeR: seq<nat>, outShape: seq<nat>,
                      pinned: BroadcastDir, side: seq<nat>, rank: nat)
    requires |shapeL| <= |dirs| && |shapeR| <= |dirs|
    requires Agreement(dirs, PadShape(shapeL, |dirs|), PadShape(shapeR, |dirs|), outShape) && InBounds(c, outShape)
    requires (pinned == RTL && side == shapeR) || (pinned == LTR && side == shapeL)
    requires rank == |side|
    ensures Pin(c, dirs, pinned) == Zeros(|dirs| - rank) + Project(c, dirs, pinned, rank)
  {
    var n := |dirs|;
    var p := Pin(c, dirs, pinned);
    forall k | 0 <= k < n - rank ensures p[k] == 0 {
      if dirs[k] != pinned {
        assert outShape[k] == 1;
      }
    }
    assert p == p[..n - rank] + p[n - rank..];
    assert p[..n - rank] == Zeros(n - rank);
  }

  /**
   * Every element of the map's result, in terms of the original operands: at output
   * coordinate `c` it is `f(r[c'], l[c''])`, where `c'` and `c''` are `c` with each
   * operand's broadcast axes pinned to 0 and its padding axes dropped.
   */
  lemma BroadcastedMapAt(r: Tensor, l: Tensor, f: (real, real) -> real, dirs: seq<BroadcastDir>)
    requires MapDefined(r, l) && BroadcastSpec(l.shape, r.shape) == Some(dirs)
    ensures forall c :: InBounds(c, OutShape(l.shape, r.shape)) ==>
      && InBounds(Project(c, dirs, RTL, |r.shape|), r.shape)
      && InBounds(Project(c, dirs, LTR, |l.shape|), l.shape)
      && At(BroadcastedMap(r, l, f).value, c) == f(At(r, Project(c, dirs, RTL, |r.shape|)), At(l, Project(c, dirs, LTR, |l.shape|)))
  {
    forall c | InBounds(c, OutShape(l.shape, r.shape))
      ensures InBounds(Project(c, dirs, RTL, |r.shape|), r.shape)
      ensures InBounds(Project(c, dirs, LTR, |l.shape|), l.shape)
      ensures At(BroadcastedMap(r, l, f).value, c) == f(At(r, Project(c, dirs, RTL, |r.shape|)), At(l, Project(c, dirs, LTR, |l.shape|)))
    {
      BroadcastedMapAtCoord(r, l, f, dirs, c);
    }
  }

  lemma BroadcastedMapAtCoord(r: Tensor, l: Tensor, f: (real, real) -> real, dirs: seq<BroadcastDir>, c: seq<nat>)
    requires MapDefined(r, l) && BroadcastSpec(l.shape, r.shape) == Some(dirs)
    requires InBounds(c, OutShape(l.shape, r.shape))
    ensures InBounds(Project(c, dirs, RTL, |r.shape|), r.shape)
    ensures InBounds(Project(c, dirs, LTR, |l.shape|), l.shape)
    ensures At(BroadcastedMap(r, l, f).value, c) == f(At(r, Project(c, dirs, RTL, |r.shape|)), At(l, Project(c, dirs, LTR, |l.shape|)))
  {
    var n := |dirs|;
    var os := OutShape(l.shape, r.shape);
    MapAtPadded(r, l, f, dirs, c);
    PinnedPadding(c, dirs, l.shape, r.shape, os, RTL, r.shape, |r.shape|);
    PinnedPadding(c, dirs, l.shape, r.shape, os, LTR, l.shape, |l.shape|);
    PaddedAt(r, n, Pin(c, dirs, RTL), Project(c, dirs, RTL, |r.shape|));
    PaddedAt(l, n, Pin(c, dirs, LTR), Project(c, dirs, LTR, |l.shape|));
  }

  /** An element of the map's result is `f` of the padded operands at the pinned coordinates. */
  lemma MapAtPadded(r: Tensor, l: Tensor, f: (real, real) -> real, dirs: seq<BroadcastDir>, c: seq<nat>)
    requires MapDefined(r, l) && BroadcastSpec(l.shape, r.shape) == Some(dirs)
    requires InBounds(c, OutShape(l.shape, r.shape))
    ensures Valid(r) && Valid(l) && |r.shape| <= |dirs| && |l.shape| <= |dirs|
    ensures PadTo(r, |dirs|).shape == PadShape(r.shape, |dirs|) && PadTo(l, |dirs|).shape == PadShape(l.shape, |dirs|)
    ensures ElemReady(PadTo(r, |dirs|), PadTo(l, |dirs|), dirs, OutShape(l.shape, r.shape))
    ensures InBounds(Pin(c, dirs, RTL), PadTo(r, |dirs|).shape) && InBounds(Pin(c, dirs, LTR), PadTo(l, |dirs|).shape)
    ensures BroadcastedMap(r, l, f).Ok?
    ensures FlatIdx(c, BroadcastedMap(r, l, f).value.stride) < |BroadcastedMap(r, l, f).value.data|
    ensures |c| == |BroadcastedMap(r, l, f).value.shape|
    ensures At(BroadcastedMap(r, l, f).value, c) == Elem(PadTo(r, |dirs|), PadTo(l, |dirs|), dirs, OutShape(l.shape, r.shape), f, c)
  {
    var n := |dirs|;
    var os := OutShape(l.shape, r.shape);
    BroadcastedMapValue(r, l, f, dirs);
    MapDataAt(PadTo(r, n), PadTo(l, n), dirs, os, f, c);
    ElemDefined(PadTo(r, n), PadTo(l, n), dirs, os, c);
    PadToAt(r, n);
    PadToAt(l, n);
  }

  /** A coordinate of the padded operand made of leading 0s and then `q` reads the operand at `q`. */
  lemma PaddedAt(t: Tensor, n: nat, p: seq<nat>, q: seq<nat>)
    requires Valid(t) && |t.shape| <= n && |q| == |t.shape|
    requires p == Zeros(n - |t.shape|) + q && InBounds(p, PadTo(t, n).shape)
    ensures InBounds(q, t.shape)
    ensures FlatIdx(p, PadTo(t, n).stride) < |PadTo(t, n).data| && |p| == |PadTo(t, n).shape|
    ensures At(PadTo(t, n), p) == At(t, q)
  {
    PadToAt(t, n);
    var m := n - |t.shape|;
    forall k | 0 <= k < |q| ensures q[k] < t.shape[k] {
      assert q[k] == p[m + k];
      assert PadTo(t, n).shape[m + k] == t.shape[k];
    }
  }

  // ---------------------------------------------------------------------------
  // The map as the source runs it

  /** The first offset written by the subtree of `inner` under the index prefix `q`. */
  function BlockStart(q: seq<nat>, shape: seq<nat>): int
    requires |q| <= |shape|
  {
    FlatIdx(q, PostfixProd(shape))
  }

  /** One past the last offset written under the prefix `q`: the block holds one offset per coordinate extending `q`. */
  function BlockEnd(q: seq<nat>, shape: seq<nat>): int
    requires |q| <= |shape|
  {
    BlockStart(q, shape) + Prod(shape[|q|..])
  }

  /** `cur` is `orig` with the offsets in `[lo, hi)` replaced by those of `expected`. */
  ghost predicate Filled(cur: seq<real>, orig: seq<real>, expected: seq<real>, lo: int, hi: int)
  {
    && |cur| == |orig| == |expected|
    && forall o :: 0 <= o < |cur| ==> cur[o] == if lo <= o < hi then expected[o] else orig[o]
  }

  lemma FilledNone(s: seq<real>, expected: seq<real>, lo: int)
    requires |s| == |expected|
    ensures Filled(s, s, expected, lo, lo)
  {
  }

  /** Filling `[lo, m)` and then `[m, hi)` fills `[lo, hi)`. */
  lemma FilledStep(orig: seq<real>, mid: seq<real>, cur: seq<real>, expected: seq<real>, lo: int, m: int, hi: int)
    requires lo <= m <= hi && Filled(mid, orig, expected, lo, m) && Filled(cur, mid, expected, m, hi)
    ensures Filled(cur, orig, expected, lo, hi)
  {
  }

  /** Filling every offset leaves `expected`. */
  lemma FilledWhole(cur: seq<real>, orig: seq<real>, expected: seq<real>)
    requires Filled(cur, orig, expected, 0, |cur|)
    ensures cur == expected
  {
  }

  /** The block of prefix `q` splits into `shape[|q|]` consecutive child blocks of `Prod(shape[|q| + 1..])` offsets. */
  lemma ChildBlock(q: seq<nat>, i: nat, shape: seq<nat>)
    requires |q| < |shape|
    ensures FlatIdx(q + [i], PostfixProd(shape)) == FlatIdx(q, PostfixProd(shape)) + i * Prod(shape[|q| + 1..])
    ensures FlatIdx(q, PostfixProd(shape)) <= FlatIdx(q + [i], PostfixProd(shape))
    ensures Prod(shape[|q|..]) == shape[|q|] * Prod(shape[|q| + 1..])
  {
    FlatIdxSnoc(q, i, PostfixProd(shape));
    MulMonotone(0, i, Prod(shape[|q| + 1..]));
    assert shape[|q|..][1..] == shape[|q| + 1..];
  }

  /** The index prefix `q` stays within `shape` on the axes it covers. */
  predicate PrefixInBounds(q: seq<nat>, shape: seq<nat>)
  {
    |q| <= |shape| && forall k :: 0 <= k < |q| ==> q[k] < shape[k]
  }

  lemma PrefixSnoc(q: seq<nat>, i: nat, shape: seq<nat>)
    requires PrefixInBounds(q, shape) && |q| < |shape| && i < shape[|q|]
    ensures PrefixInBounds(q + [i], shape)
  {
  }

  /**
   * `inner`: at full depth writes the leaf value at `out_stack`; otherwise, for every index
   * of the current output axis, extends the three stacks (the operand stacks with 0 on the
   * axes where that side broadcasts) and recurses. The source pushes and pops shared
   * stacks; here each call receives the extended stacks as values.
   */
  method Inner(r: Tensor, rStack: seq<nat>, l: Tensor, lStack: seq<nat>, out: VecTensor, outStack: seq<nat>,
               dirs: seq<BroadcastDir>, f: (real, real) -> real, ghost expected: seq<real>)
    requires ElemReady(r, l, dirs, out.shape) && out.Valid() && Describes(expected, r, l, dirs, out.shape, f)
    requires |outStack| <= |dirs| && PrefixInBounds(outStack, out.shape)
    requires rStack == Pin(outStack, dirs, RTL) && lStack == Pin(outStack, dirs, LTR)
    modifies out.data
    ensures Filled(out.data[..], old(out.data[..]), expected, BlockStart(outStack, out.shape), BlockEnd(outStack, out.shape))
    decreases |dirs| - |outStack|, 1
  {
    var fullDepth := |dirs|;
    var depth := |outStack|;
    if depth == fullDepth {
      WriteLeaf(r, rStack, l, lStack, out, outStack, dirs, f, expected);
      return;
    }
    InnerAxis(r, rStack, l, lStack, out, outStack, dirs, f, expected);
  }

  /** The loop of `inner` below full depth: one recursive call per index of the current output axis. */
  method InnerAxis(r: Tensor, rStack: seq<nat>, l: Tensor, lStack: seq<nat>, out: VecTensor, outStack: seq<nat>,
                   dirs: seq<BroadcastDir>, f: (real, real) -> real, ghost expected: seq<real>)
    requires ElemReady(r, l, dirs, out.shape) && out.Valid() && Describes(expected, r, l, dirs, out.shape, f)
    requires |outStack| < |dirs| && PrefixInBounds(outStack, out.shape)
    requires rStack == Pin(outStack, dirs, RTL) && lStack == Pin(outStack, dirs, LTR)
    modifies out.data
    ensures Filled(out.data[..], old(out.data[..]), expected, BlockStart(outStack, out.shape), BlockEnd(outStack, out.shape))
    decreases |dirs| - |outStack|, 0
  {
    var depth := |outStack|;
    var broadcastDirectionForDepth := dirs[depth];
    var outDimSizeForDepth := out.shape[depth];
    ghost var base := BlockStart(outStack, out.shape);
    ghost var st := Prod(out.shape[depth + 1..]);
    ghost var done := base;
    ghost var orig := out.data[..];
    FilledNone(orig, expected, base);
    for dimIdx := 0 to outDimSizeForDepth
      invariant done == base + dimIdx * st
      invariant Filled(out.data[..], orig, expected, base, done)
    {
      var rNext := rStack + [if broadcastDirectionForDepth == RTL then 0 else dimIdx];
      var lNext := lStack + [if broadcastDirectionForDepth == LTR then 0 else dimIdx];
      ChildReady(outStack, dimIdx, rStack, lStack, dirs, out.shape, done);
      ghost var mid := out.data[..];
      Inner(r, rNext, l, lNext, out, outStack + [dimIdx], dirs, f, expected);
      FilledStep(orig, mid, out.data[..], expected, base, done, done + st);
      MulSucc(dimIdx, st);
      done := done + st;
    }
    BlockRange(outStack, out.shape, done);
  }

  /** After the loop over an axis, the written offsets end where the prefix's block ends. */
  lemma BlockRange(q: seq<nat>, shape: seq<nat>, done: int)
    requires |q| < |shape| && done == BlockStart(q, shape) + shape[|q|] * Prod(shape[|q| + 1..])
    ensures BlockEnd(q, shape) == done
  {
    ChildBlock(q, shape[|q|], shape);
  }

  /** `expected` holds, at the row-major offset of every output coordinate, the leaf value of `inner` there. */
  ghost predicate Describes(expected: seq<real>, r: Tensor, l: Tensor, dirs: seq<BroadcastDir>, shape: seq<nat>,
                            f: (real, real) -> real)
    requires ElemReady(r, l, dirs, shape)
  {
    && |expected| == Prod(shape)
    && forall c :: InBounds(c, shape) ==>
      FlatIdx(c, PostfixProd(shape)) < |expected| && expected[FlatIdx(c, PostfixProd(shape))] == Elem(r, l, dirs, shape, f, c)
  }

  lemma MapDataDescribes(r: Tensor, l: Tensor, dirs: seq<BroadcastDir>, shape: seq<nat>, f: (real, real) -> real)
    requires ElemReady(r, l, dirs, shape)
    ensures Describes(MapData(r, l, dirs, shape, f), r, l, dirs, shape, f)
  {
    forall c | InBounds(c, shape)
      ensures FlatIdx(c, PostfixProd(shape)) < Prod(shape)
      ensures MapData(r, l, dirs, shape, f)[FlatIdx(c, PostfixProd(shape))] == Elem(r, l, dirs, shape, f, c)
    {
      MapDataAt(r, l, dirs, shape, f, c);
    }
  }

  /**
   * The stacks `inner` passes to its call for index `i` of the current axis are the
   * pinned child prefix, and that child's block is the `st` offsets from `start`.
   */
  lemma ChildReady(q: seq<nat>, i: nat, rStack: seq<nat>, lStack: seq<nat>, dirs: seq<BroadcastDir>,
                   shape: seq<nat>, start: int)
    requires |q| < |dirs| && |q| < |shape| && PrefixInBounds(q, shape) && i < shape[|q|]
    requires rStack == Pin(q, dirs, RTL) && lStack == Pin(q, dirs, LTR)
    requires start == BlockStart(q, shape) + i * Prod(shape[|q| + 1..])
    ensures PrefixInBounds(q + [i], shape)
    ensures rStack + [if dirs[|q|] == RTL then 0 else i] == Pin(q + [i], dirs, RTL)
    ensures lStack + [if dirs[|q|] == LTR then 0 else i] == Pin(q + [i], dirs, LTR)
    ensures BlockStart(q, shape) <= start
    ensures BlockStart(q + [i], shape) == start && BlockEnd(q + [i], shape) == start + Prod(shape[|q| + 1..])
  {
    ChildBlock(q, i, shape);
    assert (q + [i])[..|q|] == q;
    assert shape[|q + [i]|..] == shape[|q| + 1..];
    PrefixSnoc(q, i, shape);
    PinSnoc(q, i, dirs, RTL);
    PinSnoc(q, i, dirs, LTR);
  }

  /** `inner` at full depth: writes `f` of the two operand elements at `out_stack`, the one offset of its block. */
  method WriteLeaf(r: Tensor, rStack: seq<nat>, l: Tensor, lStack: seq<nat>, out: VecTensor, outStack: seq<nat>,
                   dirs: seq<BroadcastDir>, f: (real, real) -> real, ghost expected: seq<real>)
    requires ElemReady(r, l, dirs, out.shape) && out.Valid() && Describes(expected, r, l, dirs, out.shape, f)
    requires |outStack| == |dirs| && PrefixInBounds(outStack, out.shape)
    requires rStack == Pin(outStack, dirs, RTL) && lStack == Pin(outStack, dirs, LTR)
    modifies out.data
    ensures Filled(out.data[..], old(out.data[..]), expected, BlockStart(outStack, out.shape), BlockEnd(outStack, out.shape))
  {
    assert InBounds(outStack, out.shape);
    ElemDefined(r, l, dirs, out.shape, outStack);
    assert out.shape[|outStack|..] == [];
    out.AtMut(outStack, f(At(r, rStack), At(l, lStack)));
    assert BlockEnd(outStack, out.shape) == BlockStart(outStack, out.shape) + 1;
  }

  /**
   * `elementwise_broadcasted_map`: computes the directions (`ShapeError` when there are
   * none), pads both operands with `unsqueeze_(0)`, allocates the zero output of shape
   * `elemwise_max(l, r)` and fills it with `inner`.
   */
  method ElementwiseBroadcastedMap(r: Tensor, l: Tensor, f: (real, real) -> real) returns (res: Result<Tensor>)
    requires MapDefined(r, l)
    ensures res == BroadcastedMap(r, l, f)
  {
    var broadcastDirs := Broadcastable(l.shape, r.shape);
    if broadcastDirs.None? {
      return Err(ShapeError);
    }
    var dirs := broadcastDirs.value;
    var rp := PadOperand(r, |dirs|);
    var lp := PadOperand(l, |dirs|);
    MapReady(r, l, dirs);
    BroadcastedMapValue(r, l, f, dirs);
    var t := FillOutput(rp, lp, dirs, f);
    res := Ok(t);
  }

  /** One of the two `while` loops of the map: `unsqueeze_(0)` while the rank is below `n`. */
  method PadOperand(t: Tensor, n: nat) returns (p: Tensor)
    ensures p == PadTo(t, n)
  {
    p := t;
    while |p.shape| < n
      invariant PadTo(p, n) == PadTo(t, n)
      decreases n - |p.shape|
    {
      p := Unsqueeze(p, 0);
    }
  }

  /**
   * The end of the map on padded operands: allocates the zero output of shape
   * `elemwise_max(l, r)`, runs `inner` from empty stacks and freezes the buffer.
   */
  method FillOutput(rp: Tensor, lp: Tensor, dirs: seq<BroadcastDir>, f: (real, real) -> real) returns (t: Tensor)
    requires ElemReady(rp, lp, dirs, ElemwiseMax(lp.shape, rp.shape))
    ensures var os := ElemwiseMax(lp.shape, rp.shape);
      t == Tensor(MapData(rp, lp, dirs, os, f), os, PostfixProd(os))
  {
    var elemwiseMax := ElemwiseMax(lp.shape, rp.shape);
    var out := new VecTensor.Zeroes(elemwiseMax);
    assert Pin([], dirs, RTL) == [] && Pin([], dirs, LTR) == [];
    MapDataDescribes(rp, lp, dirs, elemwiseMax, f);
    ghost var zero := out.data[..];
    Inner(rp, [], lp, [], out, [], dirs, f, MapData(rp, lp, dirs, elemwiseMax, f));
    assert elemwiseMax[0..] == elemwiseMax;
    FilledWhole(out.data[..], zero, MapData(rp, lp, dirs, elemwiseMax, f));
    t := out.ToTensor();
  }
}
