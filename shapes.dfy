/**
 * Shape and stride arithmetic of the tensor engine (src/tensor.rs):
 * element counts, row-major ("postfix product") strides, flat offsets of a
 * coordinate, and the inverse of the flat offset for row-major strides.
 *
 * Sizes and indices are `usize` in the source; here they are unbounded `nat`s,
 * so the products never wrap around.
 */
module Shapes {

  /** `shape.iter().product()`: the number of elements of a shape (1 for rank 0). */
  function Prod(s: seq<nat>): nat
  {
    if |s| == 0 then 1 else s[0] * Prod(s[1..])
  }

  /** The row-major stride of every axis: the product of the sizes of the axes after it. */
  function PostfixProd(shape: seq<nat>): seq<nat>
  {
    seq(|shape|, i requires 0 <= i < |shape| => Prod(shape[i + 1..]))
  }

  /**
   * `flat_idx`: the indices zipped with the strides, multiplied pairwise and summed.
   * Like `zip`, it stops at the shorter of the two sequences.
   */
  function FlatIdx(indices: seq<nat>, stride: seq<nat>): nat
  {
    if |indices| == 0 || |stride| == 0 then 0
    else indices[0] * stride[0] + FlatIdx(indices[1..], stride[1..])
  }

  /** A full coordinate of `shape`: one index per axis, each below that axis' size. */
  predicate InBounds(c: seq<nat>, shape: seq<nat>)
  {
    |c| == |shape| && forall k :: 0 <= k < |c| ==> c[k] < shape[k]
  }

  /**
   * `Tensor::get_postfix_prod`: a reverse loop that writes the running product of the
   * sizes seen so far into `out` and then multiplies it by the current size.
   */
  method GetPostfixProd(shape: seq<nat>) returns (out: seq<nat>)
    ensures |out| == |shape|
    ensures forall i :: 0 <= i < |shape| ==> out[i] == Prod(shape[i + 1..])
    ensures out == PostfixProd(shape)
  {
    var l := |shape|;
    out := seq(l, _ => 0);
    var n := 1;
    for i := l downto 0
      invariant |out| == l
      invariant n == Prod(shape[i..])
      invariant forall k :: i <= k < l ==> out[k] == Prod(shape[k + 1..])
    {
      out := out[i := n];
      assert shape[i..][1..] == shape[i + 1..];
      n := n * shape[i];
    }
  }

  /** The last stride is 1, and each stride is the next axis' size times the next stride. */
  lemma PostfixProdRecurrence(shape: seq<nat>, i: nat)
    requires i < |shape|
    ensures PostfixProd(shape)[|shape| - 1] == 1
    ensures i + 1 < |shape| ==> PostfixProd(shape)[i] == shape[i + 1] * PostfixProd(shape)[i + 1]
  {
    if i + 1 < |shape| {
      assert shape[i + 1..][1..] == shape[i + 2..];
    }
  }

  // ---------------------------------------------------------------------------
  // Arithmetic helpers

  lemma MulMonotone(a: nat, b: nat, c: nat)
    requires a <= b
    ensures a * c <= b * c
  {
    var d := b - a;
    assert b * c == a * c + d * c;
  }

  lemma MulSucc(x: nat, p: nat)
    ensures (x + 1) * p == x * p + p
  {
  }

  /** The block after block `x` ends no later than block `i` starts when `x < i`. */
  lemma NextBlockBound(x: nat, i: nat, p: nat)
    requires x < i
    ensures x * p + p <= i * p
  {
    MulMonotone(x + 1, i, p);
    MulSucc(x, p);
  }

  lemma DivModOfSum(q: nat, p: nat, x: nat)
    requires x < p
    ensures (q * p + x) / p == q && (q * p + x) % p == x
  {
    var n := q * p + x;
    var q', r' := n / p, n % p;
    assert n == q' * p + r';
    if q' < q {
      MulMonotone(q' + 1, q, p);
      assert false;
    } else if q < q' {
      MulMonotone(q + 1, q', p);
      assert false;
    }
  }

  // ---------------------------------------------------------------------------
  // Products

  lemma {:induction false} ProdAppend(a: seq<nat>, b: seq<nat>)
    ensures Prod(a + b) == Prod(a) * Prod(b)
  {
    if |a| > 0 {
      assert (a + b)[1..] == a[1..] + b;
      ProdAppend(a[1..], b);
      assert Prod(a + b) == a[0] * (Prod(a[1..]) * Prod(b));
    } else {
      assert a + b == b;
    }
  }

  /** A shape has elements exactly when every axis is non-empty. */
  lemma {:induction false} ProdPositive(s: seq<nat>)
    ensures Prod(s) > 0 <==> forall k :: 0 <= k < |s| ==> s[k] > 0
  {
    if |s| > 0 {
      ProdPositive(s[1..]);
      if Prod(s) > 0 {
        forall k | 0 <= k < |s| ensures s[k] > 0 {
          if k > 0 { assert s[k] == s[1..][k - 1]; }
        }
      }
      if forall k :: 0 <= k < |s| ==> s[k] > 0 {
        assert forall k :: 0 <= k < |s[1..]| ==> s[1..][k] == s[k + 1];
      }
    }
  }

  lemma InBoundsProdPositive(c: seq<nat>, shape: seq<nat>)
    requires InBounds(c, shape)
    ensures Prod(shape) > 0
  {
    ProdPositive(shape);
  }

  // ---------------------------------------------------------------------------
  // Flat offsets

  lemma {:induction false} FlatIdxAppend(c1: seq<nat>, c2: seq<nat>, s1: seq<nat>, s2: seq<nat>)
    requires |c1| == |s1|
    ensures FlatIdx(c1 + c2, s1 + s2) == FlatIdx(c1, s1) + FlatIdx(c2, s2)
  {
    if |c1| == 0 {
      assert c1 + c2 == c2 && s1 + s2 == s2;
    } else {
      assert (c1 + c2)[1..] == c1[1..] + c2;
      assert (s1 + s2)[1..] == s1[1..] + s2;
      FlatIdxAppend(c1[1..], c2, s1[1..], s2);
    }
  }

  /** Zipping stops at the indices: strides past the last index do not matter. */
  lemma {:induction false} FlatIdxPrefix(q: seq<nat>, st: seq<nat>)
    requires |q| <= |st|
    ensures FlatIdx(q, st) == FlatIdx(q, st[..|q|])
  {
    if |q| > 0 {
      assert st[..|q|][1..] == st[1..][..|q| - 1];
      FlatIdxPrefix(q[1..], st[1..]);
    }
  }

  /** Pushing one more index adds that index times the stride of its axis. */
  lemma FlatIdxSnoc(p: seq<nat>, i: nat, st: seq<nat>)
    requires |p| < |st|
    ensures FlatIdx(p + [i], st) == FlatIdx(p, st) + i * st[|p|]
  {
    var d := |p|;
    assert st == st[..d] + st[d..];
    FlatIdxAppend(p, [i], st[..d], st[d..]);
    FlatIdxPrefix(p, st);
    assert [i][1..] == [];
  }

  lemma PostfixProdSuffix(shape: seq<nat>, d: nat)
    requires d <= |shape|
    ensures PostfixProd(shape)[d..] == PostfixProd(shape[d..])
  {
    forall k | 0 <= k < |shape| - d
      ensures PostfixProd(shape)[d..][k] == PostfixProd(shape[d..])[k]
    {
      assert shape[d..][k + 1..] == shape[d + k + 1..];
    }
  }

  /**
   * Under row-major strides every in-bounds coordinate has an offset below the
   * element count, so indexing a buffer of that length never goes out of range.
   */
  lemma {:induction false} FlatIdxBound(c: seq<nat>, shape: seq<nat>)
    requires InBounds(c, shape)
    ensures FlatIdx(c, PostfixProd(shape)) < Prod(shape)
  {
    if |c| > 0 {
      var pp := PostfixProd(shape);
      var p1 := Prod(shape[1..]);
      PostfixProdSuffix(shape, 1);
      assert InBounds(c[1..], shape[1..]) by {
        forall k | 0 <= k < |c[1..]| ensures c[1..][k] < shape[1..][k] {
          assert c[1..][k] == c[k + 1];
        }
      }
      FlatIdxBound(c[1..], shape[1..]);
      assert pp[0] == p1 && pp[1..] == PostfixProd(shape[1..]);
      assert FlatIdx(c, pp) == c[0] * p1 + FlatIdx(c[1..], PostfixProd(shape[1..]));
      assert Prod(shape) == shape[0] * p1;
      DigitBound(c[0], shape[0], p1, FlatIdx(c[1..], PostfixProd(shape[1..])));
    }
  }

  /** A leading digit below its base, followed by a remainder below the place value, stays below base times place value. */
  lemma DigitBound(d: nat, base: nat, place: nat, rest: nat)
    requires d < base && rest < place
    ensures d * place + rest < base * place
  {
    MulMonotone(d + 1, base, place);
    MulSucc(d, place);
  }

  // ---------------------------------------------------------------------------
  // From offsets back to coordinates

  /** The row-major coordinate of flat offset `o` (the inverse of `FlatIdx`). */
  function Unflatten(o: nat, shape: seq<nat>): (c: seq<nat>)
    ensures |c| == |shape|
  {
    if |shape| == 0 then []
    else
      var p := Prod(shape[1..]);
      if p == 0 then [0] + Unflatten(0, shape[1..])
      else [o / p] + Unflatten(o % p, shape[1..])
  }

  /** Every offset below the element count decodes to an in-bounds coordinate that encodes back to it. */
  lemma {:induction false} UnflattenFlatIdx(o: nat, shape: seq<nat>)
    requires o < Prod(shape)
    ensures InBounds(Unflatten(o, shape), shape)
    ensures FlatIdx(Unflatten(o, shape), PostfixProd(shape)) == o
  {
    if |shape| > 0 {
      var p := Prod(shape[1..]);
      var q, rest := DivideOffset(o, shape[0], p);
      var tail := Unflatten(rest, shape[1..]);
      var c := [q] + tail;
      assert Unflatten(o, shape) == c;
      UnflattenFlatIdx(rest, shape[1..]);
      forall k | 0 <= k < |c| ensures c[k] < shape[k] {
        if k > 0 { assert c[k] == tail[k - 1] && shape[k] == shape[1..][k - 1]; }
      }
      PostfixProdSuffix(shape, 1);
      assert c[1..] == tail;
      assert FlatIdx(c, PostfixProd(shape)) == q * p + FlatIdx(tail, PostfixProd(shape[1..]));
    }
  }

  /** Splitting an offset into the index of the first axis and the offset within it. */
  lemma DivideOffset(o: nat, n: nat, p: nat) returns (q: nat, rest: nat)
    requires o < n * p
    ensures p > 0 && q == o / p && rest == o % p
    ensures q < n && rest < p && o == q * p + rest
  {
    OffsetBounds(o, n, p);
    q, rest := o / p, o % p;
  }

  /** An offset below `n * p` has a quotient by `p` below `n`. */
  lemma OffsetBounds(o: nat, n: nat, p: nat)
    requires o < n * p
    ensures p > 0 && o / p < n && o % p < p
  {
    if p == 0 {
      assert false;
    }
    if o / p >= n {
      MulMonotone(n, o / p, p);
    }
  }

  /** Every in-bounds coordinate is recovered from its row-major offset. */
  lemma {:induction false} FlatIdxUnflatten(c: seq<nat>, shape: seq<nat>)
    requires InBounds(c, shape)
    ensures Unflatten(FlatIdx(c, PostfixProd(shape)), shape) == c
  {
    if |shape| > 0 {
      var p := Prod(shape[1..]);
      PostfixProdSuffix(shape, 1);
      assert InBounds(c[1..], shape[1..]) by {
        forall k | 0 <= k < |c[1..]| ensures c[1..][k] < shape[1..][k] {
          assert c[1..][k] == c[k + 1];
        }
      }
      FlatIdxBound(c[1..], shape[1..]);
      var x := FlatIdx(c[1..], PostfixProd(shape[1..]));
      assert FlatIdx(c, PostfixProd(shape)) == c[0] * p + x;
      DivModOfSum(c[0], p, x);
      FlatIdxUnflatten(c[1..], shape[1..]);
    }
  }

  /** Distinct in-bounds coordinates have distinct row-major offsets. */
  lemma FlatIdxInjective(c1: seq<nat>, c2: seq<nat>, shape: seq<nat>)
    requires InBounds(c1, shape) && InBounds(c2, shape)
    requires FlatIdx(c1, PostfixProd(shape)) == FlatIdx(c2, PostfixProd(shape))
    ensures c1 == c2
  {
    FlatIdxUnflatten(c1, shape);
    FlatIdxUnflatten(c2, shape);
  }
}
