# rax: a verified model of a small reverse-mode autodiff engine

rax is a Rust autodiff engine with three parts:

- **src/tensor.rs**: strided `f64` tensors with right-aligned (NumPy-style) broadcasting, a broadcasted element-wise map behind `add`/`sub`/`mul`/`div`, `transpose` and a triple-loop `matmul`.
- **src/ops.rs** and **src/node.rs**: tensor-valued expression nodes. Each node caches its forward value, and its operation supplies local gradients (`get_grads`).
- **src/backward.rs**: a backward pass over scalar nodes. It builds a trace that mirrors the expression and folds its leaves into a name-keyed gradient map (`accum_grads`).

This project models those parts in Dafny and proves what each one computes. The modules follow the source:

| module | file | models |
|---|---|---|
| `Shapes` | shapes.dfy | element counts, `get_postfix_prod`, `flat_idx`, and the inverse of `flat_idx` for row-major strides |
| `Tensors` | tensors.dfy | `Tensor` (a value), `VecTensor` (a class over an `array`), `at`, `at_mut`, `zeroes`, `unsqueeze_`, `transpose`, `matmul` |
| `Broadcast` | broadcast.dfy | `broadcastable`, `elemwise_max`, `max`, `elementwise_broadcasted_map` with its recursive `inner` |
| `Elementwise` | elementwise.dfy | `add`, `mul`, `sub`, `div`, and the map on equal shapes and on a scalar operand |
| `Ops` | ops.dfy | the op structs and their `forward`/`get_grads` |
| `Graph` | graph.dfy | `Node`, the result structs, `new_*_res`, `val`, `ParamsMap::new` |
| `Combinators` | combinators.dfy | the graph builders `add`/`mul`/`mmul`/`sub`, `sqr`, `neg`, `relu`, `mean` |
| `Backward` | backward.dfy | `DTrace`, `backwards`, `back_impl`, both `back`s, `accum_grads` and `_accum_grads` |

Imperative code stays imperative:

- `get_postfix_prod`, `broadcastable`, `matmul` and the padding loops are `method`s with loop invariants.
- `inner` is a recursive method that writes into the `array` of a `VecTensor` through `at_mut`.
- `_accum_grads` updates the map field of a `GradMap` object.

Each method is proved against a specification function (`PostfixProd`, `BroadcastSpec`, `MatMulSpec`, `BroadcastedMap`, `Accumulate`). The lemmas state what those functions mean.

The model follows the code as written, including where it departs from what the names suggest. Each quirk is proved:

- `matmul` accumulates `l[i,k] + r[k,j]`, not the product (src/tensor.rs:191). Entry `(i, j)` of the result is therefore row sum `i` of `l` plus column sum `j` of `r` (`Tensors.MatMulAsWritten`). The `MMulOp` gradients inherit this (`Ops.MMulGradsLeftAt`).
- `add`/`mul`/`sub`/`div(l, r)` call the map as `map(r, l)`, and the map applies `func(r[..], l[..])`. So `sub(l, r)` computes `r - l` and `div(l, r)` computes `r / l`.
- The `MeanOp` gradient calls `div(upstream, from(n))` and so yields `n / upstream`. Its doc comment says `1/n` (`Ops.MeanGradsAsWritten`).
- The `SqrOp` gradient is `2 · upstream` and ignores the operand (`Ops.SqrGradsDouble`).
- `neg` builds a node tagged `SqrOp` (src/ops.rs:138-144). Dispatching `get_grads` on it therefore gives the squaring gradient `2·up`, not `-up` (`Combinators.NegGradient`).

The sources come from two snapshots of the repository:

- backward.rs works on scalar nodes (`Node::Param { val, name }`, and a `get_grads` that returns local derivatives at the operand values).
- node.rs and ops.rs are tensor-valued.

The model keeps the two apart. `Backward` has its own scalar `Node`, and each operation there is a record holding its name and its local-derivative function (a `Box<dyn BinaryOp>` in the source).

Some functions that ops.rs calls are not defined in tensor.rs: `Tensor::from`, `ones`, `gt`, `relu`, `mean`, `n_elements` and `size`. They are modelled by their evident meaning:

- `from`: a rank-0 tensor.
- `ones`: an all-ones tensor.
- `gt`: a 1/0 mask.
- `relu`: element-wise `max(x, 0)`.
- `mean`: a rank-0 tensor holding the mean of the buffer.
- `n_elements`: the buffer length.
- `size`: the shape.

## Model

| member | source | states |
|---|---|---|
| Shapes.GetPostfixProd | src/tensor.rs:151-160 | the reverse loop returns one stride per axis, entry `i` being the product of the sizes after axis `i` |
| Shapes.PostfixProdRecurrence | src/tensor.rs:155-158 | the last stride is 1 and each stride is the next axis size times the next stride |
| Shapes.ProdAppend | src/tensor.rs:33 | the element count of a concatenated shape is the product of the two counts |
| Shapes.ProdPositive | src/tensor.rs:33 | a shape has elements exactly when every axis is non-empty |
| Shapes.InBoundsProdPositive | src/tensor.rs:33 | a shape with an in-bounds coordinate has at least one element |
| Shapes.FlatIdx | src/tensor.rs:128-132 | definition without a contract: the flat offset is the sum of index times stride over the zipped pairs, stopping at the shorter list as `zip` does |
| Shapes.FlatIdxAppend | src/tensor.rs:128-132 | the flat offset of concatenated coordinates and strides is the sum of the two offsets |
| Shapes.FlatIdxSnoc | src/tensor.rs:128-132 | extending a coordinate by one index adds index times that axis's stride |
| Shapes.PostfixProdSuffix | src/tensor.rs:151-160 | the strides of a shape's tail are the tail of its strides |
| Shapes.FlatIdxBound | src/tensor.rs:171-175 | under row-major strides every in-bounds coordinate has an offset below the element count, so `at` does not go out of range |
| Shapes.UnflattenFlatIdx | src/tensor.rs:128-132 | every offset below the element count is the flat offset of an in-bounds coordinate |
| Shapes.FlatIdxUnflatten | src/tensor.rs:128-132 | recovering the coordinate from its flat offset gives the coordinate back |
| Shapes.FlatIdxInjective | src/tensor.rs:128-132 | distinct in-bounds coordinates have distinct row-major offsets |
| Tensors.RowMajorValid | src/tensor.rs:32-39 | a buffer of the shape's element count with postfix strides is a valid tensor |
| Tensors.At | src/tensor.rs:171-175 | requires one index per axis (the `assert!`) and a flat offset inside the buffer (Rust's bounds check); reads the buffer at that offset |
| Tensors.FromScalar | src/ops.rs:43 | `Tensor::from(x)` is a valid rank-0 tensor whose one element is `x` |
| Tensors.ZeroTensor | src/tensor.rs:32-39 | the frozen `zeroes(shape)` is valid, has postfix strides, and is 0 at every coordinate |
| Tensors.Ones | src/ops.rs:97 | `Tensor::ones(shape)` is valid and 1 at every coordinate |
| Tensors.Size | src/ops.rs:97 | definition without a contract: `size()` is the shape |
| Tensors.NElements | src/ops.rs:162 | `n_elements` is the length of the buffer |
| Tensors.Gt | src/ops.rs:149 | `gt(x, k)` has `x`'s shape and is 1 where `x > k` and 0 elsewhere |
| Tensors.Relu | src/ops.rs:152 | `relu(x)` has `x`'s shape and is `x` where positive and 0 elsewhere |
| Tensors.Mean | src/ops.rs:165 | `mean(x)` is rank 0 and its element times the element count is the sum of the buffer |
| Tensors.VecTensor.Zeroes | src/tensor.rs:32-39 | `zeroes` allocates a fresh buffer of the element count with postfix strides, and freezing it gives the zero tensor |
| Tensors.VecTensor.AtMut | src/tensor.rs:41-44 | writing through `at_mut` sets the element at the coordinate's flat offset and leaves every other element unchanged |
| Tensors.VecTensor.ToTensor | src/tensor.rs:24-30 | definition without a contract: `to_tensor` freezes the buffer, shape and strides into a `Tensor` value |
| Tensors.FlatIdxInsertZero | src/tensor.rs:62-65 | inserting index 0 with stride 1 keeps the flat offset |
| Tensors.Unsqueeze | src/tensor.rs:62-65 | requires the insertion point to be at most the rank (`Vec::insert` panics past the end); inserts a size-1 axis with stride 1 there |
| Tensors.UnsqueezeAt | src/tensor.rs:62-65 | `unsqueeze_(dim)` keeps the tensor valid, inserts a size-1 axis, and the element at the widened coordinate is the original one |
| Tensors.UnsqueezeCoord | src/tensor.rs:62-65 | a widened coordinate is in bounds and has the original offset |
| Tensors.UnsqueezeInside | src/tensor.rs:62-65 | every in-bounds coordinate of the unsqueezed tensor reads inside the buffer |
| Tensors.Transpose | src/tensor.rs:199-211 | `transpose(a, b)` keeps the buffer, exchanges shape and stride entries `a` and `b`, and leaves all other entries |
| Tensors.SwapSymmetric | src/tensor.rs:199-211 | `transpose(a, b)` and `transpose(b, a)` swap the same entries |
| Tensors.FlatIdxUpdate | src/tensor.rs:199-211 | replacing one index and its stride changes the offset by the difference of the two products |
| Tensors.ProdUpdate | src/tensor.rs:199-211 | replacing one axis size scales the element count accordingly |
| Tensors.FlatIdxSwap | src/tensor.rs:199-211 | swapping two indices together with their strides keeps the offset |
| Tensors.ProdSwap | src/tensor.rs:199-211 | swapping two axis sizes keeps the element count |
| Tensors.SwapInBounds | src/tensor.rs:199-211 | a coordinate with two indices swapped is in bounds of the swapped shape |
| Tensors.TransposeAt | src/tensor.rs:386-391 | the transposed tensor is valid and its element at the swapped coordinate is the original element |
| Tensors.MatMulSpec | src/tensor.rs:178-197 | the product of `l:[h,k]` and `r:[k,w]` is a row-major `[h, w]` buffer of `h·w` entries |
| Tensors.MatMulEntry | src/tensor.rs:193 | entry `(i, j)` sits at offset `i·w + j` below `h·w` and holds the accumulated sum |
| Tensors.MatMulAt | src/tensor.rs:178-197 | the product is valid and `at([i, j])` is the accumulated sum over `k` |
| Tensors.MatMulAsWritten | src/tensor.rs:188-192 | the loop over `k` of `l[i,k] + r[k,j]` equals row sum `i` of `l` plus column sum `j` of `r` |
| Tensors.EntrySum | src/tensor.rs:187-192 | the inner loop returns the sum over every `k` of `l[i,k] + r[k,j]` |
| Tensors.MatMul | src/tensor.rs:178-197 | the triple loop filling `zeroes([h, w])` through `at_mut` returns the specified product |
| Broadcast.Max | src/tensor.rs:374-380 | `max` is at least each argument and equal to one of them |
| Broadcast.PadShape | src/tensor.rs:279-284 | padding a shape to rank `n` puts size-1 axes in front and keeps the shape's axes at the right |
| Broadcast.PadShapeFromRight | src/tensor.rs:232-241 | axis `i` from the right of the padded shape is the shape's own axis, or 1 past its rank |
| Broadcast.BroadcastSpecCompatible | src/tensor.rs:220-260 | two shapes broadcast exactly when every right-aligned axis pair is equal or holds a 1 |
| Broadcast.AxisDir | src/tensor.rs:243-254 | definition without a contract, whose meaning `Broadcast.AxisDirMeaning` states: the per-axis `match` on the two sizes |
| Broadcast.AxisDirMeaning | src/tensor.rs:243-254 | both directions of each per-axis case: `LTR` iff only the left size is 1, `RTL` iff only the right size is 1, `UnNeeded` iff the sizes are equal, and `None` otherwise |
| Broadcast.BroadcastSpecDirs | src/tensor.rs:220-260 | a successful direction list has the larger rank, and each entry says which padded side has a lone 1 |
| Broadcast.BroadcastSpecSwap | src/tensor.rs:220-260 | exchanging the shapes keeps compatibility and exchanges `LTR` and `RTL` |
| Broadcast.BroadcastSpecNone | src/tensor.rs:247-252 | one incompatible axis pair from the right makes the whole rule fail |
| Broadcast.PaddedAxis | src/tensor.rs:231-241 | axis `k` of a shape padded to rank `n` is axis `n - k` of the shape counted from the right, 1 past its rank |
| Broadcast.PaddedDirsReversed | src/tensor.rs:229-258 | the list built from the right, read reversed, gives the direction of each padded axis |
| Broadcast.BroadcastSpecSome | src/tensor.rs:229-259 | the reversed list of per-axis directions from the right is the direction list |
| Broadcast.Reverse | src/tensor.rs:258 | `reverse` keeps the length |
| Broadcast.Broadcastable | src/tensor.rs:220-260 | the loop over axes from the right, with its early `None` and final reverse, computes the broadcast rule |
| Broadcast.ElemwiseMax | src/tensor.rs:370-372 | `elemwise_max` has the shorter length and entry `k` is the larger of the two sizes |
| Broadcast.Zeros | src/tensor.rs:279-284 | the padding coordinate prefix has the given length |
| Broadcast.PadShapeCons | src/tensor.rs:279-284 | one `unsqueeze_(0)` followed by padding is the same as padding |
| Broadcast.PadTo | src/tensor.rs:279-284 | definition without a contract, whose meaning `Broadcast.PadToValue` and `Broadcast.PadToAt` state: `unsqueeze_(0)` until the rank reaches `n` |
| Broadcast.PadToValue | src/tensor.rs:279-284 | padding a tensor by repeated `unsqueeze_(0)` keeps the buffer and pads shape and strides with leading 1s |
| Broadcast.FlatIdxZeros | src/tensor.rs:279-284 | all-zero padding indices add nothing to the offset |
| Broadcast.FlatIdxPadded | src/tensor.rs:279-284 | a coordinate with zero padding in front has the unpadded offset under padded strides |
| Broadcast.PaddedCoord | src/tensor.rs:279-284 | an in-bounds coordinate of a padded shape is zeros followed by an in-bounds coordinate of the shape |
| Broadcast.PadToValid | src/tensor.rs:279-284 | the padded tensor is valid with the padded shape and the same buffer |
| Broadcast.ProdPadShape | src/tensor.rs:279-284 | padding keeps the element count |
| Broadcast.PaddedInside | src/tensor.rs:279-284 | every in-bounds coordinate of the padded tensor reads inside the buffer |
| Broadcast.PadToCoord | src/tensor.rs:279-284 | the padded tensor at zeros followed by `c` is the original at `c` |
| Broadcast.PadToAt | src/tensor.rs:279-284 | the padded tensor agrees with the original at every in-bounds coordinate |
| Broadcast.Pin | src/tensor.rs:321-330 | the operand's index stack has one index per output axis |
| Broadcast.PinSnoc | src/tensor.rs:321-330 | pushing one index on the output stack pushes 0 or the same index on each operand stack |
| Broadcast.PinInBounds | src/tensor.rs:311-330 | for non-empty operands the pinned stacks are in bounds of each operand's shape |
| Broadcast.ElemDefined | src/tensor.rs:307 | at a full coordinate both `at` calls of the leaf are in range |
| Broadcast.MapReady | src/tensor.rs:274-291 | after padding, the output shape is the element-wise maximum of the padded shapes and every leaf read is defined |
| Broadcast.BroadcastedMap | src/tensor.rs:269-352 | the map fails with `ShapeError` exactly when the shapes do not broadcast, and otherwise is a valid tensor of the output shape |
| Broadcast.BroadcastedMapValue | src/tensor.rs:269-352 | a successful map is the row-major buffer of per-coordinate leaf values over the padded operands |
| Broadcast.MapData | src/tensor.rs:293-338 | the output buffer has one entry per coordinate of the output shape |
| Broadcast.MapDataAt | src/tensor.rs:306-307 | the buffer at a coordinate's offset is `func` of the two pinned operand elements |
| Broadcast.PinnedPadding | src/tensor.rs:279-330 | a pinned coordinate of a padded operand is zero padding followed by a coordinate of the unpadded operand |
| Broadcast.BroadcastedMapAt | src/tensor.rs:269-352 | every output element is `func(r[c'], l[c''])`, with `c'` and `c''` the output coordinate pinned and projected onto each operand's own shape |
| Broadcast.BroadcastedMapAtCoord | src/tensor.rs:269-352 | the same, at one output coordinate |
| Broadcast.MapAtPadded | src/tensor.rs:279-307 | at one output coordinate, the map's element is the leaf value over the padded operands |
| Broadcast.PaddedAt | src/tensor.rs:279-284 | reading the padded tensor at zeros followed by `q` reads the original at `q` |
| Broadcast.FilledStep | src/tensor.rs:314-337 | filling one block of offsets after another fills their union |
| Broadcast.FilledWhole | src/tensor.rs:340-351 | a buffer filled at every offset is the expected buffer |
| Broadcast.ChildBlock | src/tensor.rs:314-332 | the block under prefix `q + [i]` starts `i` blocks of the next axis after the block of `q`, and the block of `q` has one per index |
| Broadcast.PrefixSnoc | src/tensor.rs:314-315 | pushing an index below the axis size keeps the output stack in bounds |
| Broadcast.MapDataDescribes | src/tensor.rs:293-338 | the specified buffer holds the leaf value at every coordinate's offset |
| Broadcast.ChildReady | src/tensor.rs:314-332 | after the three pushes the stacks are the pinned child coordinate, and the child's block starts where the previous children's blocks end |
| Broadcast.BlockRange | src/tensor.rs:314-337 | after the loop over an axis, the written offsets end where the prefix's block ends |
| Broadcast.WriteLeaf | src/tensor.rs:306-309 | at full depth `inner` writes `func(r.at, l.at)` at the coordinate's offset and changes nothing else |
| Broadcast.Inner | src/tensor.rs:293-338 | `inner` under the output stack `q` fills exactly the offsets of `q`'s block with their specified values and leaves the rest of the buffer |
| Broadcast.InnerAxis | src/tensor.rs:311-337 | the loop over one axis fills the blocks of the children one after another |
| Broadcast.PadOperand | src/tensor.rs:279-284 | the `while` loop of `unsqueeze_(0)` pads the operand to the target rank |
| Broadcast.FillOutput | src/tensor.rs:286-351 | starting `inner` from empty stacks on `zeroes(elemwise_max)` yields the specified buffer |
| Broadcast.ElementwiseBroadcastedMap | src/tensor.rs:269-352 | the method (rule, padding, recursive fill) returns exactly the specified map, error case included |
| Elementwise.BroadcastedMapPointwise | src/tensor.rs:269-352 | the map's result is `ShapeError` iff the shapes do not broadcast, and is otherwise `func(r[c'], l[c''])` at every coordinate |
| Elementwise.Add | src/tensor.rs:354-356 | `add(l, r)` is the pointwise map over `(r, l)` of `+` |
| Elementwise.Mul | src/tensor.rs:358-360 | `mul(l, r)` is the pointwise map over `(r, l)` of `*` |
| Elementwise.Sub | src/tensor.rs:362-364 | `sub(l, r)` is the pointwise map over `(r, l)` of `-`, so it computes `r - l` |
| Elementwise.Div | src/tensor.rs:366-368 | `div(l, r)` is the pointwise map over `(r, l)` of `/`, so it computes `r / l` |
| Elementwise.PinNone | src/tensor.rs:321-330 | with no axis broadcasting on a side, that side's stack is the output coordinate |
| Elementwise.BroadcastSpecFrom | src/tensor.rs:220-260 | a list matching every padded axis pair is the direction list |
| Elementwise.SameShapeDirs | src/tensor.rs:220-260 | equal shapes broadcast with `UnNeeded` on every axis to the same shape |
| Elementwise.MapSameShape | src/tensor.rs:269-352 | on equal shapes the map succeeds with that shape and is `func(r[c], l[c])` at every coordinate |
| Elementwise.SameShapeReady | src/tensor.rs:269-291 | equal shapes give all-`UnNeeded` directions and an output shape equal to the operands' |
| Elementwise.MapSameShapeAt | src/tensor.rs:269-352 | the same, at one coordinate |
| Elementwise.ScalarRightDirs | src/tensor.rs:220-260 | a shape against a scalar broadcasts with `RTL` on every axis of size other than 1 |
| Elementwise.ScalarLeftDirs | src/tensor.rs:220-260 | a scalar against a shape broadcasts with `LTR` on every axis of size other than 1 |
| Elementwise.MapScalarRight | src/tensor.rs:269-352 | a scalar right operand against a non-empty tensor gives `func(x, l[c])` in the tensor's shape |
| Elementwise.MapScalarRightAt | src/tensor.rs:269-352 | the same, at one coordinate |
| Elementwise.MapScalarLeft | src/tensor.rs:269-352 | a scalar left operand against a non-empty tensor gives `func(r[c], x)` in the tensor's shape |
| Elementwise.MapScalarLeftAt | src/tensor.rs:269-352 | the same, at one coordinate |
| Ops.NamesDistinct | src/ops.rs:15-115 | the `name()`s tell the binary operations apart, tell `Sqr` from `Relu`, and never collide across kinds |
| Ops.BinaryName | src/ops.rs:15-17 | definition without a contract: the `name()` of each binary op (also src/ops.rs:29-31, 46-48, 65-67) |
| Ops.UnaryName | src/ops.rs:80-82 | definition without a contract: the `name()` of `SqrOp` and of `ReluOp` (src/ops.rs:113-115) |
| Ops.ReduceName | src/ops.rs:90-92 | definition without a contract: the `name()` of `MeanOp` |
| Ops.ScalarBroadcasts | src/ops.rs:43 | a scalar broadcasts against every shape on either side |
| Ops.ScalarTensor | src/ops.rs:43 | every valid rank-0 tensor is `from` of its element |
| Ops.TransposeShape2 | src/ops.rs:10-11 | `transpose(0, 1)` of a matrix is a valid matrix with the two sizes exchanged |
| Ops.TransposeEntry | src/ops.rs:10-11 | `transpose(0, 1)` at `[j, i]` is the matrix at `[i, j]` |
| Ops.ColSumTranspose | src/ops.rs:10-11 | a column sum of the transpose is a row sum of the matrix |
| Ops.RowSumTranspose | src/ops.rs:10-11 | a row sum of the transpose is a column sum of the matrix |
| Ops.Forward | src/ops.rs:18-70 | `MMulOp.forward` gives the row-sum-plus-column-sum matrix; the others are the pointwise map over `(r, l)` of `+`, `-`, `*` |
| Ops.MatMulRowColSums | src/tensor.rs:178-197 | every entry of the `matmul` product is row sum `i` of `l` plus column sum `j` of `r` |
| Ops.MMulGrads | src/ops.rs:9-13 | `(mmul(up, rᵀ), mmul(lᵀ, up))` are valid matrices of shapes `[up₀, r₀]` and `[l₁, up₁]` |
| Ops.MMulGradsShapes | src/ops.rs:9-13 | for an upstream shaped like the product, the two gradients have the shapes of `l` and `r` |
| Ops.MMulGradsLeftAt | src/ops.rs:10 | the left gradient at `(i, j)` is row sum `i` of the upstream plus row sum `j` of `r` |
| Ops.MMulGradsRightAt | src/ops.rs:11 | the right gradient at `(i, j)` is column sum `i` of `l` plus column sum `j` of the upstream |
| Ops.AddGrads | src/ops.rs:26-28 | both gradients are the upstream unchanged |
| Ops.SubGrads | src/ops.rs:40-45 | the left gradient is the upstream; the right is the pointwise product of the upstream with `from(-1)` |
| Ops.SubGradsNegate | src/ops.rs:40-45 | on a non-empty upstream the right gradient is the negated upstream, element by element |
| Ops.MulGrads | src/ops.rs:58-64 | the gradients are `mul(r, up)` and `mul(l, up)` |
| Ops.MulGradsProductRule | src/ops.rs:58-64 | on equal shapes the gradients are `up·r` and `up·l` at every element |
| Ops.MulGradsSameShape | src/ops.rs:58-64 | on equal shapes both gradients have the upstream's shape |
| Ops.MulGradsAt | src/ops.rs:58-64 | the product rule at one coordinate |
| Ops.SqrGrads | src/ops.rs:76-78 | the gradient is `mul(from(2), up)` |
| Ops.SqrGradsDouble | src/ops.rs:76-78 | the gradient is `2·up` at every element and does not depend on the operand |
| Ops.MeanGrads | src/ops.rs:95-99 | the gradient is `div(up, from(n))` times `ones(size(arg))` |
| Ops.MeanGradsAsWritten | src/ops.rs:95-99 | for a rank-0 upstream `u`, the gradient has the operand's shape and is `n / u` at every element |
| Ops.ReluGrads | src/ops.rs:109-111 | the gradient is the captured mask times the upstream |
| Ops.ReluGradsGate | src/ops.rs:103-111 | with the mask `gt(x, 0)`, the gradient is the upstream where `x > 0` and 0 elsewhere |
| Ops.ReluGradsShape | src/ops.rs:103-111 | that gradient has the operand's shape |
| Ops.ReluGradsAt | src/ops.rs:103-111 | the relu gradient at one coordinate |
| Ops.BinaryGrads | src/ops.rs:9-64 | dispatch of `get_grads` on a binary op: `MMulOp` gives matrices of shapes `[up₀, r₀]` and `[l₁, up₁]`, `AddOp` gives the upstream twice, `SubOp` gives the upstream and its product with `from(-1)`, `MulOp` gives the pointwise products `up·r` and `up·l` |
| Ops.UnaryGrads | src/ops.rs:76-111 | dispatch of `get_grads` on a unary op: `SqrOp` gives the pointwise product of the upstream with `from(2)`, `ReluOp` the pointwise product of the upstream with the captured mask |
| Ops.ReduceGrads | src/ops.rs:95-99 | dispatch of `get_grads` on a reducing op: for `MeanOp` the gradient has the operand's shape and is `div(up, from(n))` times `ones(size(arg))` |
| Graph.NewParamsMap | src/node.rs:9-13 | `ParamsMap::new` holds no name |
| Graph.Children | src/node.rs:15-42 | a node has no operands exactly when it is a `TensorParam` |
| Graph.Val | src/node.rs:88-95 | `val` of a well-formed graph is a valid tensor, and the value of a `TensorParam` is its tensor |
| Graph.NewUnrRes | src/node.rs:60-66 | `new_unr_res` builds a unary node with exactly that operation, operand and value |
| Graph.NewBinRes | src/node.rs:68-78 | `new_bin_res` builds a binary node with the operands in the given order and that value |
| Graph.NewRedRes | src/node.rs:80-86 | `new_red_res` builds a reducing node with exactly that operation, operand and value |
| Combinators.BinaryNode | src/ops.rs:118-124 | a binary graph builder records the operation and the operands in order and caches the operation's `forward` of their values |
| Combinators.AddNode | src/ops.rs:126 | `add` caches the pointwise map over `(r, l)` of `+` |
| Combinators.MulNode | src/ops.rs:127 | `mul` caches the pointwise map over `(r, l)` of `*` |
| Combinators.MMulNode | src/ops.rs:128 | `mmul` caches the `[h, w]` matrix of row sums plus column sums |
| Combinators.SubNode | src/ops.rs:129 | `sub` caches the pointwise map over `(r, l)` of `-` |
| Combinators.Sqr | src/ops.rs:134-136 | `sqr` builds a `SqrOp` node over `x` whose value is `x·x` at every element |
| Combinators.SqrAt | src/ops.rs:134-136 | the same, at one coordinate |
| Combinators.Neg | src/ops.rs:138-144 | `neg` builds a node tagged `SqrOp` over `x` whose value is `from(-1)·x` pointwise |
| Combinators.NegNegates | src/ops.rs:138-144 | on a non-empty operand `neg` negates every element |
| Combinators.NegNegatesAt | src/ops.rs:138-144 | the same, at one coordinate |
| Combinators.NegTaggedAsSqr | src/ops.rs:134-144 | `neg` and `sqr` record the same operation over the same operand, yet hold `-a` and `a·a`, which differ wherever `a > 0` |
| Combinators.NegGradient | src/ops.rs:138-144 | dispatching `get_grads` (src/ops.rs:76-78) on the op recorded by `neg` gives `2·up` at every element, which differs from the true derivative `-up` wherever the upstream is non-zero |
| Combinators.ReluNode | src/ops.rs:146-154 | `relu` captures the mask `gt(x, 0)` and caches the element-wise relu |
| Combinators.ReluNodeGradient | src/ops.rs:146-154 | dispatching `get_grads` (src/ops.rs:109-111) on the op recorded by `relu` gives the upstream's shape and the upstream where the operand was positive, 0 elsewhere |
| Combinators.MeanNode | src/ops.rs:159-166 | `mean` captures the operand's element count and caches a rank-0 tensor whose element times that count is the sum |
| Combinators.MeanNodeGradient | src/ops.rs:159-166 | dispatching `get_grads` (src/ops.rs:95-99) on the op recorded by `mean` gives `n / u` at every element of the operand |
| Backward.BackImpl | src/backward.rs:40-52 | a parameter, and only a parameter, becomes a `DParamDX` leaf holding exactly the upstream and the parameter's name |
| Backward.Backwards | src/backward.rs:36-38 | `backwards` returns a trace mirroring the expression |
| Backward.Val | src/backward.rs:57 | definition without a contract: the cached value `val()` of a scalar node read by both `back`s (also src/backward.rs:69), a parameter's value for a `Param` |
| Backward.BackImplMirrors | src/backward.rs:55-76 | the trace has the shape of the expression: `arg1` from `args.0`, `arg2` from `args.1`, one child for a unary node |
| Backward.Leaves | src/backward.rs:86-98 | definition without a contract: the `DParamDX` leaves `_accum_grads` visits, `arg1` before `arg2` |
| Backward.Paths | src/backward.rs:55-76 | definition without a contract, whose meaning `Backward.PathsOfParams` and `Backward.LeavesArePathProducts` state: the root-to-parameter paths with the local derivative of each step |
| Backward.Prepend | src/backward.rs:59-60 | one more local derivative in front of every root-to-leaf path keeps the number of paths |
| Backward.Scaled | src/backward.rs:44-45 | one (name, derivative) pair per path |
| Backward.PathsOfParams | src/backward.rs:55-76 | there is one path per parameter occurrence, and the names on them are the expression's parameter names |
| Backward.PrependScaled | src/backward.rs:59-71 | passing `g·u` down equals passing `u` down paths that start with `g` |
| Backward.LeavesArePathProducts | src/backward.rs:40-76 | every trace leaf holds the upstream times the product of local derivatives along its root-to-leaf path, with one leaf per path |
| Backward.AddGrad | src/backward.rs:93-96 | `entry(name).or_insert(0.0) += d` adds the name, adds `d` to its earlier value or to 0, and leaves other names |
| Backward.Accumulate | src/backward.rs:86-98 | definition without a contract, whose meaning `Backward.AccumulateSums` states: `AddGrad` of each leaf in turn |
| Backward.SumForAppend | src/backward.rs:86-98 | the sum for a name over two leaf lists is the sum of the two sums |
| Backward.AccumulateSums | src/backward.rs:86-98 | folding leaves adds exactly their names, and each name's value grows by the sum of its leaves' derivatives |
| Backward.AccumulateAppend | src/backward.rs:88-91 | folding two leaf lists in turn is folding their concatenation |
| Backward.AccumulateOrderIrrelevant | src/backward.rs:88-91 | visiting `arg2` before `arg1` yields the same map |
| Backward.GradMap.constructor | src/backward.rs:81 | `GradMap::new` is empty |
| Backward.AccumGradsInto | src/backward.rs:86-98 | the recursive in-place fold leaves the map folded over all leaves of the trace, left to right |
| Backward.AccumGrads | src/backward.rs:80-84 | `accum_grads` returns a fresh map folded over the trace's leaves from empty |
| Backward.SumForPaths | src/backward.rs:86-98 | the leaf sum for a name is the sum of the path products for that name |
| Backward.GradientsAreSumsOverPaths | src/backward.rs:36-98 | the gradient map has exactly the expression's parameter names, and each name maps to the sum over its paths of the product of local derivatives |
| Backward.ExampleGradients | src/main.rs:14-23 | for `(a·b + c²)·c` at `a, b, c = 2, 3, 4` the map is `a ↦ 12, b ↦ 8, c ↦ 54`, with `c`'s two occurrences summed |

## Left out

- Element arithmetic is on `real`. IEEE-754 rounding, infinities and NaN are not modelled. `div` by zero is modelled as 0 (`RealDiv`), where `f64` would give an infinity or NaN.
- Sizes and indices are `nat`. `usize` overflow of products and offsets is not modelled.
- `Rc` sharing is not modelled. Tensors and nodes are immutable values, so a node used twice is two equal subtrees. That is also how the traversal without memoization sees it.
- Panics become preconditions: the `assert!`s of `at` and `matmul`, out-of-range indexing, and `unwrap` of a `ShapeError`. `ShapeError` itself is an `Err` result.
- `Broadcast.MapDefined`: the map panics when an operand is empty on an axis where the other has size 1. `elemwise_max` (src/tensor.rs:370-380) then gives that axis size 1, and the leaf (src/tensor.rs:307) reads the empty operand's buffer, for example `l.at([0])` with `l.shape == [0]` and `r.shape == [1]`. The map and every gradient built on it (`Ops.SubGrads`, `Ops.SqrGrads`, `Ops.MeanGrads`) require `MapDefined`, which excludes this case; an empty upstream against the size-1 `from(..)` operand is such a case.
- `Tensors.Unsqueeze`: `unsqueeze_` mutates the shape and stride of a clone in place. It is modelled as a function returning the padded tensor; the `while` loops that call it are a method (`Broadcast.PadOperand`).
- `Broadcast.Inner`: the three index stacks of `inner`, pushed and popped around the recursive call, are passed as values. The loop over one axis is its own method (`Broadcast.InnerAxis`) and the leaf write another (`Broadcast.WriteLeaf`).
- `Tensors.VecTensor`: its buffer is an `array` filled in place. `to_tensor` reads it into a value.
- `Tensor::rand` and the tests that use it are left out, because they depend on an unseeded random generator. `TransposeAt` states the property of the transpose test for every tensor.
- `Debug for Tensor` is left out: it is text output.
- The non-underscored `unsqueeze` (src/tensor.rs:48-60) is not modelled. It is private, unused, and inserts a size-0 axis.
- `create_binary_op!` (src/ops.rs:118-124) calls `new_bin_res(op, l, r)`, but `new_bin_res` (src/node.rs:68-78) takes `(op, (l, r), value)`: `l` sits where the operand pair belongs, `r` sits where the forward value belongs, and no forward value is computed. The binary graph builders are modelled as "compute the operation's `forward`, then build the node" (`Combinators.BinaryNode`).
- The `BinaryOp`/`UnaryOp`/`ReduceOp` trait signatures in src/node.rs:44-57 disagree with their implementations in src/ops.rs. The model follows the implementations. The `..Op` traits are datatypes of their implementors.
- `Backward`: the backward pass is modelled over the scalar nodes it is written for. The tensor graph of `Graph` has no backward pass in the source.
- `Backward.ExampleGradients`: the example in src/main.rs:14-23 uses scalar `mul`, `add` and `sq` combinators that are not part of this model. They are defined in backward.dfy with their true local derivatives, and `Node::param` becomes `Param`.
- `Backward.GradMap`: the `HashMap` is a `map` field. The order of `grads_map.values()` in src/main.rs is not modelled.
- src/optimizer.rs, the training loop and the benchmark `main` of src/main.rs, tests/example_e2e.rs and drafts.py are not part of this model. They are callers or prototypes, not the engine.
