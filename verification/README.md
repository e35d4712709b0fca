# lna: bump arena, matrix engine and softmax regression, in Dafny

This project models the numeric core of the lna C library and proves
properties about it. The core has three layers:

- **The bump arena** (`include/lna_arena.h`, `src/lna_arena.c`), module
  `LnaArena` in `arena.dfy`.
  - An `ml_arena` is a capacity and a bump position.
  - `push_ml_arena` rounds the position up to `ARENA_ALIGN` with
    `ALIGN_UP_POW2`, then either refuses or hands out the aligned region.
  - `pop_ml_arena` is a clamped decrement.
  - Pointers into the arena are modelled as byte offsets.
- **The arena-backed matrix engine** (`src/lna_matrix.c`), module `LnaMatrix`
  in `matrix.dfy`.
  - A `Matrix` is `rows`, `cols` and a storage. The storage is either NULL or a
    block at an arena offset that holds a row-major `seq<real>`.
  - Allocating routines return their status, the arena after them and the
    output matrix.
  - In-place routines return their status and the updated matrix.
- **The softmax-regression equations** (`src/equation.c`):
  - `Equation` in `equation.dfy` covers softmax, cross-entropy, the row-broadcast
    bias, column sums and the in-place backward pass.
  - `Training` in `train.dfy` covers `softmax_regression_train_step`: the
    forward pass, the gradients, the SGD update, the loss it returns and the
    seven arena pushes it leaves behind.

`number.dfy` (module `LnaNumber`) holds the u64 type, the wrap-around of u64
arithmetic, `sizeof(f32)` and the probability floor `eps`. `arith.dfy` and
`sums.dfy` hold the integer and finite-sum facts the proofs use.

The probabilities, gradients and loss are compared with reference definitions
written directly from the mathematics, in `Training`:

- `LogitRow` is `Z = X W + b`.
- `Prob` is `P = softmax(Z)`.
- `Delta` and `DeltaCol` are `dZ = (P - Y) / N`.
- `Loss` is the mean of `-log max(P[i][y_i], eps)`.

`expf` and `logf` are function-valued parameters `exp` and `log`. A property
assumes of them only what it needs: that `exp` is positive, that `log 1 = 0`,
that `log` is non-positive on (0, 1], or that `log` is monotone.

## Model

| member | source | states |
|---|---|---|
| LnaArena.KiB | include/lna_arena.h:8 | `KiB(n)` is a multiple of 1024, congruent to n·1024 modulo 2^64, and exactly n·1024 (so dividing gives n back) when that does not wrap |
| LnaArena.MiB | include/lna_arena.h:9 | the same for 2^20 |
| LnaArena.GiB | include/lna_arena.h:10 | the same for 2^30 |
| LnaArena.PointerSizesArePow2 | include/lna_arena.h:12 | `sizeof(void*)` is 8 or 4, and both are powers of two, so `ALIGN_UP_POW2`'s mask is valid for `ARENA_ALIGN` |
| LnaArena.AlignUp | include/lna_arena.h:13 | for a power of two p, the rounded value is a multiple of p, at least n, less than n + p, and n itself when n is already aligned |
| LnaArena.AlignUpLeast | include/lna_arena.h:13 | no multiple of p lies between n and the rounded value, so the rounding is the least aligned value at or above n |
| LnaArena.AlignUpIdempotent | include/lna_arena.h:13 | aligning an aligned value changes nothing |
| LnaArena.AlignUpU64 | include/lna_arena.h:13 | the macro evaluated in u64 yields a multiple of p and agrees with the exact rounding whenever n + p - 1 does not wrap |
| LnaArena.CreateArena | src/lna_arena.c:6-10 | a new arena has the given capacity, satisfies pos <= capacity, and has all of its capacity free |
| LnaArena.Push | src/lna_arena.c:12-20 | a push succeeds exactly when the aligned region fits in the capacity, and a refused push leaves the arena unchanged. A successful push returns an ARENA_ALIGN-aligned offset at most ARENA_ALIGN - 1 bytes past the old position and moves the position to offset + size. pos <= capacity is preserved |
| LnaArena.PushAsWritten | src/lna_arena.c:12-20 | the push exactly as written, with the u64 alignment, behaves like `Push` whenever the position is not within ARENA_ALIGN - 1 of 2^64 |
| LnaArena.PushAsWrittenReusesMemory | include/lna_arena.h:13 | with pos = 2^64 - 2, the as-written push returns offset 0, below the position, overlapping earlier allocations; `Push` refuses the same request |
| LnaArena.Pop | src/lna_arena.c:22-27 | the capacity is kept, the position never grows, and it either drops by exactly `size` or clamps to 0 when `size` reaches it; pos <= capacity is preserved |
| LnaArena.FreeMem | src/lna_arena.c:30-32 | on a valid arena the free bytes plus the position make up the capacity; the subtraction does not wrap |
| LnaArena.PushUsesFreeMem | src/lna_arena.c:13-18 | a push succeeds if and only if its padding plus its size fit in the free bytes, and on success the free bytes shrink by exactly padding plus size |
| LnaArena.SuccessivePushesDisjoint | src/lna_arena.c:13-18 | of two successive successful pushes, the second region starts at or after the end of the first |
| LnaArena.PopAfterPush | src/lna_arena.c:12-27 | popping the size just pushed rewinds to the start of the pushed region, not to the old position. It restores the arena exactly when the old position was already aligned |
| LnaArena.PushAllBounds | src/lna_arena.c:12-20 | over any sequence of pushes, every region handed out lies between the starting and the final position, and the final position stays within the capacity |
| LnaArena.PushAllDisjoint | src/lna_arena.c:12-20 | the successful regions of a sequence of pushes are pairwise disjoint and in increasing address order |
| LnaArena.PushAllSucceeds | src/lna_arena.c:12-20 | if the requests plus ARENA_ALIGN - 1 bytes of padding each fit in the free space, then every push succeeds and the final position is within that budget |
| LnaMatrix.FlatIsRowMajor | src/lna_matrix.c:183-185 | element (r, c) lives at flat offset r·cols + c |
| LnaMatrix.GetAtOffset | src/lna_matrix.c:183-185 | `mget` reads the buffer at flat offset r·cols + c, and for an in-range (r, c) of a backed matrix that offset lies inside the buffer |
| LnaMatrix.Set | src/lna_matrix.c:186-188 | `mset` writes the value at (r, c) and leaves every other element, the shape and the buffer as they were |
| LnaMatrix.Create | src/lna_matrix.c:4-9 | `create_Matrix` sets the requested shape and stores the pointer that a push of rows·cols·4 bytes returned. The storage is NULL exactly when that push is refused, and every element is backed when the arena has room |
| LnaMatrix.FillRow | src/lna_matrix.c:11-17 | after `fill_row_Matrix`, row `row` is the first `cols` values and every other row is unchanged |
| LnaMatrix.AccIsDotProduct | src/lna_matrix.c:36-39 | the inner accumulation loop over the flat buffers computes the dot product of row r of lhs and column c of rhs, prefix by prefix |
| LnaMatrix.MatMul | src/lna_matrix.c:19-45 | a mismatched inner dimension gives INVALID_DIMENSIONS with nothing allocated. Otherwise a NULL operand gives INVALID_ALLOC with nothing allocated. On success there is a fresh lhs.rows × rhs.cols output whose (i, j) entry is Σ_k lhs[i][k]·rhs[k][j] |
| LnaMatrix.Plus | src/lna_matrix.c:47-73 | differing shapes give INVALID_DIMENSIONS and NULL data gives INVALID_ALLOC, both before allocating. On success there is a fresh output of the same shape holding the elementwise sum |
| LnaMatrix.Minus | src/lna_matrix.c:75-101 | the same checks as `Plus`; on success, the elementwise difference |
| LnaMatrix.MinusUndoesPlus | src/lna_matrix.c:47-101 | (A + B) - B has A's shape and elements |
| LnaMatrix.MulScalar | src/lna_matrix.c:103-113 | NULL data gives INVALID_ALLOC with the matrix untouched. Otherwise the buffer and shape are kept and every element is multiplied by the scalar |
| LnaMatrix.MulScalarInverse | src/lna_matrix.c:103-113 | scaling by s and then by 1/s restores the matrix exactly, for s ≠ 0 |
| LnaMatrix.PlusScalar | src/lna_matrix.c:115-125 | NULL data gives INVALID_ALLOC. Otherwise every element has the scalar added, with the shape and buffer kept |
| LnaMatrix.MinusScalar | src/lna_matrix.c:127-137 | NULL data gives INVALID_ALLOC. Otherwise every element has the scalar subtracted, with the shape and buffer kept |
| LnaMatrix.MinusScalarUndoesPlusScalar | src/lna_matrix.c:115-137 | adding a scalar and then subtracting it restores the matrix exactly |
| LnaMatrix.Transpose | src/lna_matrix.c:139-156 | NULL data gives INVALID_ALLOC with nothing allocated. Otherwise there is a fresh cols × rows output with out[c][r] = target[r][c] |
| LnaMatrix.TransposeRowIsColumn | src/lna_matrix.c:147-153 | row c of the transpose is column c of the original |
| LnaMatrix.TransposeTwice | src/lna_matrix.c:139-156 | transposing twice gives back the original shape and the original elements |
| LnaMatrix.MinusInPlace | src/lna_matrix.c:158-181 | the dimension check comes first, then the NULL check, and either failure leaves lhs untouched. On success lhs keeps its shape and buffer and holds lhs - rhs elementwise |
| LnaMatrix.MinusInPlaceAgreesWithMinus | src/lna_matrix.c:158-181 | the in-place subtraction reports the same status as the allocating one. On success it leaves the same elements in lhs's own buffer; on failure nothing changes |
| Equation.Max | src/equation.c:22-26 | the row-max scan returns an element of the row that bounds every element |
| Equation.MaxShifted | src/equation.c:22-26 | adding c to every element adds c to the row maximum |
| Equation.SoftmaxRow | src/equation.c:22-40 | one row of softmax keeps the row's length, and entry j times Σ_k exp(x_k - max) equals exp(x_j - max) |
| Equation.SoftmaxRowSumsToOne | src/equation.c:28-40 | for any positive `exp`, a row of e_j · (1/Σe) sums to exactly 1 |
| Equation.SoftmaxRowInUnitInterval | src/equation.c:28-40 | every softmax entry lies in (0, 1] |
| Equation.SoftmaxRowShiftInvariant | src/equation.c:22-40 | adding a constant to every entry of a row leaves its softmax unchanged |
| Equation.Softmax | src/equation.c:18-44 | softmax allocates a fresh output of the logits' shape, and row i of the output is the softmax of row i of the logits |
| Equation.SoftmaxRowsSumToOne | src/equation.c:18-44 | each row of softmax's output sums to 1 |
| Equation.SoftmaxShiftInvariant | src/equation.c:18-44 | two logit matrices whose row i differ by a constant give the same row i of probabilities |
| Equation.Floor | src/equation.c:11 | the floored probability is at least eps, is the probability itself when that is at least eps, and is eps when it is below |
| Equation.CrossEntropy | src/equation.c:6-16 | N times the loss is the total of the per-sample terms -log(max(P[i][y_i], eps)); with one sample the loss is exactly that sample's term |
| Equation.CrossEntropyZeroWhenCertain | src/equation.c:6-16 | the loss is 0 when every true-class probability is 1 and log 1 = 0 |
| Equation.CrossEntropyNonNegative | src/equation.c:6-16 | the loss is non-negative when the probabilities are at most 1 and log is non-positive on (0, 1] |
| Equation.CrossEntropyAtMostFloorLoss | src/equation.c:6-16 | with a monotone log, the floor bounds the loss by -log(eps) |
| Equation.AddBiasRowwise | src/equation.c:46-55 | a bias that is not 1 × cols gives INVALID_DIMENSIONS with the logits untouched. Otherwise every row gets bias[0][j] added to column j, with the shape and buffer kept |
| Equation.ColumnTotals | src/equation.c:60-68 | after the first n rows of the accumulation loop, entry j is the sum of the first n entries of column j |
| Equation.SumRows | src/equation.c:57-70 | `sum_rows` allocates a fresh 1 × cols matrix whose entry j is the sum of column j |
| Equation.SumRowsAfterBias | src/equation.c:46-70 | adding a bias to each of N rows adds N copies of bias[0][j] to the sum of column j |
| Equation.FirstBadLabel | src/equation.c:92-96 | the scan finds the first row whose label does not index a column, or stops at the row count |
| Equation.FirstBadLabelIsRange | src/equation.c:92-96 | the scan runs off the end if and only if every label is in range |
| Equation.SubtractOneHot | src/equation.c:91-96 | the subtraction loop succeeds exactly when every label is in range. It stops with INVALID_ELEMENT_TYPES at the first bad label, after rows before it have had their one-hot entry subtracted |
| Equation.Reciprocal | src/equation.c:89 | for N > 0, invN · N = 1 |
| Equation.ScaleAll | src/equation.c:99-104 | the scaling loop multiplies every entry by invN and keeps the buffer |
| Equation.Backward | src/equation.c:82-107 | the status is OK if and only if every label is in range, and then the buffer holds (P - Y)/N. Otherwise the status is INVALID_ELEMENT_TYPES, the first bad row k is named, and rows 0..k-1 are left with 1 subtracted at their label |
| Training.AfterAdvances | src/lna_matrix.c:4-9 | a create with room moves the position by its byte count plus at most ARENA_ALIGN - 1 bytes of padding |
| Training.StepFitsWithin | src/equation.c:109-166 | if the step's seven buffers plus 7·(ARENA_ALIGN - 1) bytes of padding fit in the free space, then every push of the step succeeds and the final position is within that budget |
| Training.StepArenaGrows | src/equation.c:109-166 | the step never gives memory back: the position grows by at least the bytes of all seven buffers |
| Training.LogitsProduct | src/equation.c:128-129 | after two N × C pushes, the first one abandoned, entry (i, j) of the fresh buffer is the dot product of row i of X with column j of W |
| Training.Logits | src/equation.c:127-132 | two N × C buffers are pushed, the first one abandoned, and row i of the result is Z[i] = X[i]·W + b |
| Training.ForwardPass | src/equation.c:127-138 | after three pushes, row i of P is the softmax of Z[i] |
| Training.TransposedInput | src/equation.c:147-148 | one D × N push, after which row d of Xᵀ is column d of X |
| Training.WeightGradient | src/equation.c:147-151 | after three pushes (Xᵀ, the abandoned dW and the product), entry (d, j) is the dot product of column d of X with column j of dZ |
| Training.GradientPass | src/equation.c:147-155 | dW = Xᵀ dZ, and db is 1 × C with db[0][j] = Σ_i dZ[i][j] |
| Training.StepGradients | src/equation.c:143-155 | the step's gradients have the shapes of W and of a 1 × C bias, and the arena ends after all seven pushes |
| Training.StepGradientsAreReference | src/equation.c:143-155 | dW[d][j] = Σ_i X[i][d]·dZ[i][j] and db[0][j] = Σ_i dZ[i][j], with dZ = (softmax(X W + b) - Y)/N, so the gradients match the reference ones |
| Training.TrainStep | src/equation.c:109-166 | W keeps its shape and buffer. A 1 × C bias keeps its shape and buffer; any other bias is left exactly as it was, since both in-place routines reject it. The arena ends after the seven pushes |
| Training.StepLoss | src/equation.c:141 | cross_entropy of the forward pass's probabilities equals the reference mean loss of X, W, b and the labels |
| Training.TrainStepLoss | src/equation.c:140-141 | the returned loss is the mean cross-entropy of the parameters the step was given, read before the backward pass overwrites P |
| Training.WeightsDescend | src/equation.c:157-159 | every weight becomes W[d][j] - lr·dW[d][j] |
| Training.BiasDescends | src/equation.c:161-163 | every entry of a 1 × C bias becomes b[0][j] - lr·db[0][j] |
| Training.Descent | src/equation.c:157-163 | `Matrix_mut_Scalar` followed by `Matrix_minus_Matrix_inplace` leaves M - lr·G in M's own buffer |

## Left out

- `include/matrix.hpp` is not part of this model: it is a separate compile-time
  C++ matrix template, not backed by the arena and not used by the C engine.
- `include/lna_model.h` is not part of this model. It holds declarations only.
- The ESP32 example program is not part of this model. It only logs and prints.
- `Matrix_mut_Matrix_inplace`, `Matrix_plus_Matrix_inplace` and
  `Matrix_plus_Matrix_rowwise` are declared in `include/lna_matrix.h` but have
  no definition, so there is nothing to model.
- Floating point is left out. Elements are exact reals, `f32` rounding, NaN
  and infinity are not modelled, and no tolerance-based or convergence claim is
  made.
- `expf` and `logf` are parameters, not interpreted functions.
- The arena's `base` pointer and the bytes stored in the arena are left out.
  Pointers are offsets, and a matrix carries its own elements.
- LnaArena.RoundDown: the mask `& ~(p-1)` of `ALIGN_UP_POW2` is modelled as
  `s - s % p` for a power of two p. The identity between the two is taken as
  the meaning of the mask; there is no bit-vector proof of it.
- `ARENA_ALIGN` is fixed at 8, the 64-bit `sizeof(void*)`. The alignment
  lemmas hold for any power of two, so 4 works as well.
- `Matrix_transpose`'s `!arena` test (line 140) is not modelled. An arena is a
  value here and cannot be NULL.
- LnaMatrix.Create: fresh storage is filled with zeros; in C it is
  uninitialised. No property reads an element before it is written.
- LnaMatrix.MatMul: requires that the arena has room for the output. In C a
  refused push leaves a NULL `data` that the loops then write through.
  `Plus`, `Minus`, `Transpose`, `Softmax` and `SumRows` carry the same
  precondition. The byte count rows·cols·4 must also not wrap in u64.
- LnaMatrix.Get: `mget` has no bounds check, and the model requires an
  in-range element of a backed matrix. `Get` carries no ensures of its own;
  `LnaMatrix.GetAtOffset` states that it reads flat offset r·cols + c. Keeping
  the products out of `Get`'s contract keeps every proof that reads an
  element cheap.
- LnaMatrix.Set, LnaMatrix.FillRow, Equation.AddBiasRowwise, Equation.Softmax,
  Equation.SumRows, Equation.CrossEntropy and Equation.Backward require a
  backed (non-NULL) matrix and, for `Set` and `FillRow`, an in-range row and
  column. `mset` has no bounds check and `fill_row_Matrix` does not check
  `row < rows`. `add_bias_rowwise_inplace`, `softmax`, `sum_rows`,
  `cross_entropy` and `softmax_xent_backward_inplace` never test `data` for
  NULL. In C such a call reads or writes out of bounds or through NULL; that
  is not modelled.
- Equation.Softmax: requires that a matrix with rows also has columns. Line 22
  reads column 0 of every row even when there are none.
- Equation.CrossEntropy: requires at least one row and in-range labels. With
  no rows, C divides 0 by 0. An out-of-range label reads outside the row.
  Its contract states the total over the samples; its bounds are stated by
  the `CrossEntropy…` lemmas and `Training.TrainStepLoss`.
- Equation.Reciprocal: for N = 0 it returns 0 where C computes infinity. No
  loop reads it in that case.
- Training.TrainStep: requires:
  - a non-empty batch (N > 0), D > 0 features and C > 0 classes;
  - X·W shapes that agree;
  - X and W non-NULL, and a non-NULL bias whenever the bias is 1 × C;
  - labels in range;
  - room in the arena for all seven pushes.
  The C code ignores every status, so a failure inside the step goes
  unreported there. Outside these preconditions it is not modelled. For
  example, with a NULL W, `Matrix_mut_Matrix` returns INVALID_ALLOC at
  src/lna_matrix.c:21. The step then carries on with the uninitialised logits
  buffer from src/equation.c:128. At the end `Matrix_minus_Matrix_inplace(W, dW)`
  returns INVALID_ALLOC (src/lna_matrix.c:161), so W is left as it was while
  b is still updated from gradients of garbage logits. A NULL X makes
  `Matrix_transpose` return before it sets `Xt`, and the step then reads
  `Xt`'s uninitialised fields.
- Training.WeightsDescend: states the update against the step's own dW.
  `Training.StepGradientsAreReference` identifies that dW with Xᵀ·dZ. The two
  are not merged into one statement of W - lr·Xᵀ dZ.
- Training.BiasDescends: likewise, `Training.StepGradientsAreReference`
  identifies db with the column sums of dZ.
- Equation.SumRowsAfterBias: states N·bias[0][j] as the repeated sum
  `Times(N, bias[0][j])`. `Sums.TimesIsProduct` equates that with the
  product.

## Findings

| source | as written | input that shows it | evidently intended | confidence | as-written member | corrected member |
|---|---|---|---|---|---|---|
| include/lna_arena.h:13 | `ALIGN_UP_POW2(cur, ARENA_ALIGN)` computes `cur + 7` in u64, so it wraps to a small value when `cur` is within 7 of 2^64. `push_ml_arena` then hands out offset 0 | capacity 2^64 - 1, pos 2^64 - 2, size 1: the push succeeds at offset 0, overlapping memory already handed out | the aligned offset is never below the position; when no aligned offset fits, the push is refused | not executed; low in practice, since it needs an arena of almost 2^64 bytes | LnaArena.PushAsWrittenReusesMemory | LnaArena.Push |
