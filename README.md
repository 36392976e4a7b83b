# onnx2c operator lowerings: a verified model

onnx2c compiles an ONNX graph into C. Every operator node goes through three
steps:

- `parseAttributes` reads the node's attributes.
- `resolve` checks the input tensors and decides each output's extents and
  element type. A violated condition aborts the build through `ERROR`.
- `print` writes the C loop nest that computes the operator.

This project models those three steps for six operators: Concat, MatMul,
MultiThreshold, TopK, Im2Col and QuantAvgPool.

- The attribute and shape rules are Dafny functions over `Tensor` values
  (`Tensors.Tensor`: extents and element type). An `ERROR` becomes a `Failure`
  carrying a `Tensors.Fault`.
- The parsers are loops over the attribute list, so they are methods proved
  equal to a reference function (`Configured`).
- The emitted C loop nests are modelled as methods over Dafny arrays that do
  what the printed C does, cell by cell. Each is proved against a
  specification function:
  - Concat's copy yields the concatenation. Its index map is a proved bijection.
  - MatMul's cells are dot products.
  - MultiThreshold's cells count the thresholds reached.
  - TopK scans for the first maximum.
  - Im2Col's transposes and gather place each patch value at a proved
    permutation of the output.
  - QuantAvgPool's shift keeps every rescaled value within `obits` bits.

Shared pieces:

- `tensors.dfy`: the data model and C integer semantics. This covers
  truncating `/`, `uint32_t` wrap-around, and the arithmetic lemmas.
- `attributes.dfy`: ONNX attributes and the "last assignment wins" lookups
  the parsers' loops implement.

## Model

| member | source | states |
|---|---|---|
| Concat.ParseAttributes | src/nodes/concat.h:11-28 | accepted iff every attribute is an INT named `axis`; the axis is the last one given, default 1; otherwise fails at the first offending attribute with "bad" or "unknown attribute" |
| Concat.FirstFault | src/nodes/concat.h:94-104 | no fault iff every input from `from` on agrees with input 0 (same rank, same extents off the axis); a fault is that of the first disagreeing input |
| Concat.Resolve | src/nodes/concat.h:79-114 | succeeds iff all inputs agree with input 0 and the normalised axis is within the rank (the source does not check the latter; see Left out); the output keeps input 0's type and off-axis extents, and its axis extent is the sum of the inputs' axis extents; failures name the axis or the first disagreeing input, as rank or shape mismatch |
| Concat.SingleInput | src/nodes/concat.h:79-114 | a single input with any in-range (possibly negative) axis resolves to itself |
| Concat.TwoByThreeAndTwoByFour | src/nodes/concat.h:84-85 | `2x3` and `2x4` give `2x7` on axis 1 and on axis -1 |
| Concat.AxisPitch | src/nodes/concat.h:36-39 | the `axisPitch` loop computes the product of the extents from the axis on |
| Concat.Pitches | src/nodes/concat.h:52-55 | each input's `inputAxisPitch` is the product of its extents from the axis on |
| Concat.PitchesSumToAxisPitch | src/nodes/concat.h:52-55 | the inputs' pitches sum to the output's pitch |
| Concat.ScaledSum | src/nodes/concat.h:109 | pitches sum to the summed axis extents times the common inner size |
| Concat.ShapeFactors | src/nodes/concat.h:57 | each input's element count is the outer size times its pitch; likewise for the output |
| Concat.Block | src/nodes/concat.h:74 | every position of an output slice falls in exactly the block `[outputBase, outputBase + pitch)` of one input |
| Concat.BlockIs | src/nodes/concat.h:74 | a position inside input `k`'s block is assigned to block `k` |
| Concat.OriginOf | src/nodes/concat.h:60-72 | every output position has a source element within the input's data |
| Concat.DestinationOrigin | src/nodes/concat.h:60-72 | the copy's destination of an input element lies in the output and maps back to that element |
| Concat.OriginDestination | src/nodes/concat.h:60-72 | every output position is the destination of its origin, so together with the previous row the copy is a bijection |
| Concat.SideBySide | src/nodes/concat.h:60-72 | for two matrices concatenated on columns, row `r` of each input lands in row `r` of the output, the second after the first |
| Concat.Layout | src/nodes/concat.h:43-74 | for a resolved node the pitches are non-negative and the output is outer-size slices of the summed pitches |
| Concat.Copy | src/nodes/concat.h:43-75 | the emitted copies, input by input, leave the output equal to the concatenation of the inputs' data |
| Concat.CopyInput | src/nodes/concat.h:60-72 | one input's loop writes exactly the output positions whose origin is that input, with that input's elements; nothing else changes |
| MatMul.ResultDim | src/nodes/matmul.h:109-152 | fails iff both operands are vectors; otherwise gives the channels, rows and columns for matrix, rank-4 left, and left- or right-vector operands |
| MatMul.Resolve | src/nodes/matmul.h:69-107 | succeeds iff both element types are numeric and not both operands are vectors; the output is `[rows, cols]` or `[1, channels, rows, cols]` with A's type |
| MatMul.PrintPlan | src/nodes/matmul.h:10-68 | a loop nest exists iff A has rank 2 or 4 and its inner extent (0 read as 1) equals B's rows; gives each nest's trip counts |
| MatMul.LoopsCoverOutput | src/nodes/matmul.h:16-60 | for two matrices, the nest's trip counts are the resolved output's extents |
| MatMul.RightVectorLeftUnwritten | src/nodes/matmul.h:16-38 | with a right vector, `resolve` makes a one-column output but the nest runs zero columns |
| MatMul.MismatchFoundOnlyByPrint | src/nodes/matmul.h:61-107 | a `2x3` by `4x5` product passes `resolve` and is refused only by `print` |
| MatMul.Multiply2D | src/nodes/matmul.h:16-38 | every output cell in range is the dot product of its row of A and column of B; other cells are unchanged |
| MatMul.Multiply4D | src/nodes/matmul.h:39-60 | every cell of batch 0 is the dot product of its channel's row and B's column; other cells are unchanged |
| MatMul.MultiplyChannel | src/nodes/matmul.h:39-60 | the same for one channel |
| MultiThreshold.ParseAttributes | src/nodes/multithreshold.h:37-52 | accepted iff every known attribute has its expected type; the configuration is the last values given; unknown names are ignored |
| MultiThreshold.Resolve | src/nodes/multithreshold.h:56-80 | the output has the input's extents and is FLOAT |
| MultiThreshold.PrintPlan | src/nodes/multithreshold.h:82-243 | chooses the NHWC, plain rank-4 or rank-2 nest; fails for other ranks, for a batch other than 1 where checked, and for a threshold table whose rows do not match |
| MultiThreshold.NestCoversOutput | src/nodes/multithreshold.h:56-80 | the chosen nest's extents are the resolved output's |
| MultiThreshold.Count | src/nodes/multithreshold.h:114-118 | the number of thresholds reached is at most the number of thresholds |
| MultiThreshold.CountSnoc | src/nodes/multithreshold.h:115-118 | one more threshold adds 1 exactly when the value reaches it |
| MultiThreshold.CountIsCardinality | src/nodes/multithreshold.h:114-118 | the count equals the size of the set of thresholds reached |
| MultiThreshold.CountMonotone | src/nodes/multithreshold.h:114-118 | a larger value reaches at least as many thresholds |
| MultiThreshold.CountIsLevel | src/nodes/multithreshold.h:114-118 | for ascending thresholds, the count is the quantisation level: all thresholds below it are reached, none from it on |
| MultiThreshold.Row | src/nodes/multithreshold.h:162 | a row of the threshold table as a sequence |
| MultiThreshold.RowSnoc | src/nodes/multithreshold.h:161-163 | a row prefix grows by the next table entry |
| MultiThreshold.Threshold2D | src/nodes/multithreshold.h:199-205 | each pixel of row 0 is its count against its own table row; other cells are unchanged |
| MultiThreshold.Threshold4DLayout | src/nodes/multithreshold.h:156-164 | each cell of batch 0 is its count against the table row of its column; other cells are unchanged |
| MultiThreshold.ThresholdChannelLayout | src/nodes/multithreshold.h:157-164 | the same for one channel |
| MultiThreshold.CountCellLayout | src/nodes/multithreshold.h:160-163 | the same for one cell |
| MultiThreshold.Flatten | src/nodes/multithreshold.h:98-107 | `reshape_input[chan][index]` is the channel's plane in row-major order |
| MultiThreshold.FlattenChannel | src/nodes/multithreshold.h:100-107 | the same for one channel |
| MultiThreshold.CountPixels | src/nodes/multithreshold.h:108-118 | the zeroed `reshape_output` ends with each pixel's count against its channel's table row |
| MultiThreshold.CountChannel | src/nodes/multithreshold.h:114-118 | the same for one channel |
| MultiThreshold.Unflatten | src/nodes/multithreshold.h:119-133 | the final reshape puts pixel `r * cols + c` at `Y[0][chan][r][c]`; other cells are unchanged |
| MultiThreshold.UnflattenChannel | src/nodes/multithreshold.h:120-133 | the same for one channel |
| MultiThreshold.Threshold4D | src/nodes/multithreshold.h:82-134 | each cell of batch 0 is its count against its channel's table row; other cells are unchanged |
| TopK.ParseAttributes | src/nodes/topk.h:40-53 | accepted iff `axis`, `largest` and `sorted` are INTs; the configuration is the last values given |
| TopK.Resolve | src/nodes/topk.h:57-87 | both outputs are `[1, K]`, FLOAT values and INT64 indices |
| TopK.PrintPlanAsWritten | src/nodes/topk.h:99-102 | `print` proceeds iff the `largest` field holds 1, whatever its origin |
| TopK.PrintPlan | src/nodes/topk.h:99-102 | `print` proceeds iff `largest` is 1 or absent (ONNX default 1) |
| TopK.AbsentLargest | src/nodes/topk.h:28-30 | with no `largest` attribute, the field as written may be refused while the corrected plan proceeds |
| TopK.Scan | src/nodes/topk.h:106-112 | with no value above the start, gives the start value and index `-9`; otherwise gives the first index holding the maximum |
| TopK.PrintResolved | src/nodes/topk.h:57-114 | output buffers of the resolved extents `[1, K]`, K >= 1, take the two stores; of the K cells only the first is written |
| TopK.Print | src/nodes/topk.h:91-115 | `values[0][0]` and `indices[0][0]` receive that maximum and index, with `-9` stored through `uint64_t`; no other cell changes |
| Im2Col.ParseAttributes | src/nodes/im2col.h:42-65 | accepted iff every known attribute has its expected type; the configuration is the last values given |
| Im2Col.Check | src/nodes/im2col.h:77-95 | no fault iff the rank is 4, the vectors are present and long enough, pads are all equal, dilations are 1 and strides are nonzero; any other rank gives the rank fault; every fault is justified |
| Im2Col.Resolve | src/nodes/im2col.h:69-112 | succeeds exactly when `Check` passes; the output is `[1, (H+2p-k0)/s0+1, (W+2p-k1)/s1+1, k1*k0*C]` FLOAT, with C's truncating division |
| Im2Col.WindowsFit | src/nodes/im2col.h:101-105 | an output extent counts the kernel windows that fit: window `j` is counted iff it ends inside the padded length |
| Im2Col.ThreeByThreeOverFive | src/nodes/im2col.h:101-107 | a 3x3 kernel over a 5x5x2 input gives `[1,3,3,18]` unpadded and `[1,5,5,18]` with padding 1 |
| Im2Col.PrintSizesMatchResolve | src/nodes/im2col.h:121-139 | `print`'s own sizes equal the resolved extents, and its flat-copy count is the output's element count |
| Im2Col.Decompose | src/nodes/im2col.h:142-145 | the offsets are digits of the column channel in the mixed radix `(k0, k1)` |
| Im2Col.DecomposeCompose | src/nodes/im2col.h:142-145 | the decomposition inverts composition |
| Im2Col.ChannelInRange | src/nodes/im2col.h:137-145 | every column channel decodes to an input channel below C |
| Im2Col.FirstTranspose | src/nodes/im2col.h:128-134 | `first_transpose[0][c][chan][r] == A[0][chan][r][c]` for every cell |
| Im2Col.PatchInside | src/nodes/im2col.h:150-155 | a window cell inside the input reads the input there |
| Im2Col.PatchAtCell | src/nodes/im2col.h:146-156 | flat position `chan*(R*C)+r*C+c` lies in the buffer and holds that cell's patch value |
| Im2Col.Gather | src/nodes/im2col.h:140-159 | every cell of `after_im_col` holds the patch value of its position |
| Im2Col.GatherChannel | src/nodes/im2col.h:142-159 | one column channel extends the filled prefix by `R*C` patch values |
| Im2Col.GatherRow | src/nodes/im2col.h:147-158 | one output row extends the filled prefix by `C` patch values |
| Im2Col.FlatCopy | src/nodes/im2col.h:162-166 | the flat copy copies the first `n` cells and leaves the rest alone |
| Im2Col.DecodeEncode | src/nodes/im2col.h:162-176 | row-major decoding of an in-range 5-index's flat position gives it back |
| Im2Col.EncodeDecode | src/nodes/im2col.h:162-176 | row-major encoding of a decoded flat position gives it back |
| Im2Col.Perm | src/nodes/im2col.h:170-176 | the second transpose's flat index map stays inside the buffer |
| Im2Col.SizeSwap | src/nodes/im2col.h:170 | the transposed buffer has as many cells as the source |
| Im2Col.PermInjective | src/nodes/im2col.h:170-176 | the second transpose sends distinct cells to distinct cells |
| Im2Col.PermOnto | src/nodes/im2col.h:170-176 | every destination cell receives some source cell |
| Im2Col.SecondTranspose | src/nodes/im2col.h:170-176 | `second[Perm(s)] == intermediate[s]` for every cell |
| Im2Col.TransposeStep | src/nodes/im2col.h:171-176 | the current cell's destination is new, so earlier writes are never overwritten |
| Im2Col.InterSize | src/nodes/im2col.h:162 | `intermediate_output` has `k1*k0*C*R*Cols` cells, as many as `after_im_col` |
| Im2Col.Print | src/nodes/im2col.h:116-185 | `Y` holds every patch value, placed at its second-transpose position |
| Im2Col.Emit | src/nodes/im2col.h:126-184 | the same, given the window and the column sizes |
| QuantAvgPool.DoubledPairs | src/nodes/quantaveragepool.h:28-41 | each `kernel` or `stride` attribute appends its value twice, in order |
| QuantAvgPool.DoubledSnoc | src/nodes/quantaveragepool.h:28-41 | one more attribute appends two copies of its integer, or nothing |
| QuantAvgPool.ParseAttributes | src/nodes/quantaveragepool.h:18-45 | accepted iff `data_layout` is text and `ibits` and `obits` are INTs; the configuration is the last values, with doubled kernel and stride |
| QuantAvgPool.SquareKernel | src/nodes/quantaveragepool.h:28-41 | `kernel=3, stride=2` gives kernel `[3,3]` and strides `[2,2]` |
| QuantAvgPool.FullWindowFits | src/nodes/quantaveragepool.h:28-90 | a full window under the square kernel `[k0, k0]` has divisor `k0*k0` either way; its `ibits`-bit inputs sum to at most `max_value`, and the sum, shifted, fits in `obits` bits |
| QuantAvgPool.KernelArea | src/nodes/quantaveragepool.h:65-67 | the loop computes the product of the kernel extents |
| QuantAvgPool.Cell | src/nodes/quantaveragepool.h:46-71 | the accumulator is the sum of the visited inputs; the divisor is their count, or the kernel area with `count_include_pad` |
| QuantAvgPool.SumBound | src/nodes/quantaveragepool.h:59 | at most `m` inputs of `ibits` bits sum to at most `(2^ibits-1)*m` |
| QuantAvgPool.BitLengthBounds | src/nodes/quantaveragepool.h:84 | `bit_length` is the number of binary digits: `2^(n-1) <= v < 2^n` |
| QuantAvgPool.ShiftPlan | src/nodes/quantaveragepool.h:83-90 | the shift is defined iff the kernel is given, `ibits >= 1` and `k0 != 0`; it is at most the bit length |
| QuantAvgPool.ShiftedFits | src/nodes/quantaveragepool.h:83-97 | every accumulator up to `max_value`, shifted right, fits in `obits` bits |
| QuantAvgPool.ShiftIsLeast | src/nodes/quantaveragepool.h:86-90 | one shift less would let `max_value` overflow `obits` bits |
| QuantAvgPool.RescaledFits | src/nodes/quantaveragepool.h:93-97 | an average whose rescaled value stays in `uint32_t` and within `max_value` ends within `obits` bits |
| QuantAvgPool.Rescale | src/nodes/quantaveragepool.h:93-97 | every cell of batch 0 is rescaled; other batches are unchanged |
| QuantAvgPool.RescaleChannel | src/nodes/quantaveragepool.h:94-97 | the same for one channel |
| QuantAvgPool.Resolve | src/nodes/quantaveragepool.h:100-119 | `y` has the pooled extents and X's type; `ind` has the same extents and INT64 |
| QuantAvgPool.Print | src/nodes/quantaveragepool.h:75-110 | on `y` of the resolved extents the shift is `ShiftPlan`'s; exactly the cells of batch 0 within dims 1..3 are rescaled by `k0*k0`, other batches are unchanged, and every cell whose scaled-back value is within `max_value` ends within `obits` bits |

## Left out

- Text emission: `print` writes C source as text; the model runs the statements it writes. `LOG` output, buffer names and indentation are not modelled.
- Floating point: element values are integers.
  - MultiThreshold's `out_scale`/`out_bias` pass is not modelled. It is the last statement of each nest, and the models stop at the counts.
  - QuantAvgPool's `curavg/numavg` division is not modelled; `QuantAvgPool.Cell` stops at the two operands.
  - The `(uint32_t)` cast of a float product is `Wrap32` of an integer product.
- `std::pow` and `std::log2` are the integer `Pow2` and `BitLength`. A negative `ibits` (fractional `pow`) is not modelled.
- TopK's `-FLT_MAX` start value is the parameter `lowest`.
- QuantAvgPool.Rescale: models `>>` on `uint32_t` as division by `2^shifts`, so a shift of 32 or more (undefined in C) is not modelled.
- Integer widths: extents and indices are unbounded integers. Overflow of `int32_t`/`int64_t` in the size computations is not modelled. `uint32_t` wrap-around is modelled only where it decides a branch: the Im2Col gather's row and column.
- Helpers outside the six headers are parameters:
  - pooling's `resolve_output_size` is `outputDims`.
  - `print_loop_with_padding_checks` is the visited cells passed to `QuantAvgPool.Cell`.
  - `count_include_pad` is a boolean.
  - `typeConstraint_highPrecisionNumeric` is the predicate `numeric`.
  - The kernel shape and strides before parsing are taken empty.
  - Node registration and protobuf decoding are not part of this model.
- Im2Col.Patch: models the bounds test as written, including the comparisons with 0 on unsigned values. No claim is made that it pads with zeros. For non-square kernels it models the source's mix of `k0`/`k1` with the strides exactly, and makes no claim about the intended layout.
- Im2Col.Print: requires positive kernel extents and non-negative column sizes. The emitted C declares arrays of those sizes, which C does not allow to be zero or negative. The emitted multi-dimensional buffers are flat row-major arrays.
- Im2Col.ParseAttributes: `depthwise` is parsed but never used.
- Im2Col.Resolve: reading `pad_amount[0..3]`, `dilations[0..1]`, `kernel_size[0..1]` or `stride[0..1]` past a shorter vector is undefined behaviour in the source. It is modelled as `ShortAttribute`. A zero stride (a division by zero) is `ZeroStride`.
- QuantAvgPool.ShiftPlan: a `max_value` of 0 or below (a `log2` of a non-positive number) is `NoAccumulatorRange`. An empty `kernel_shape` (an out-of-range read) is `MissingAttribute`.
- QuantAvgPool.ParseAttributes: `data_layout` is read twice per attribute, in the source's two branches; that has the same effect as once.
- MatMul.ResultDim: requires both operands to have rank at least 2, as the source indexes `data_dim[1]` unchecked.
- MultiThreshold.Threshold4D: only batch 0 is written, as in the emitted C.
- TopK.Print: requires fewer than 2^31 rows, so the `int32_t rows` is the trip count.
- Concat.Resolve: an axis outside the rank after normalisation is `AxisOutOfRange`. The source has no such check, and reads and writes `data_dim[axis]` out of bounds (concat.h lines 101, 109 and 111).
- MultiThreshold.PrintPlan: requires a threshold table of rank at least 2. The source reads `B->data_dim[0]` and `[1]` unchecked, so a lower rank is an out-of-bounds read that is not modelled.
- TopK.Resolve: requires the second input `K` with at least one element. The source reads `inputs[1]` and its first element even when only one input is given, which is not modelled.
- TopK.PrintPlan: requires `A` of rank at least 2, as the source reads `data_dim[1]` unchecked; the same holds for TopK.PrintPlanAsWritten.
- TopK.Print: requires output buffers with at least one cell. With K = 0 the emitted stores to `values[0][0]` and `indices[0][0]` are out of bounds, which is not modelled.
- MatMul.Multiply2D: requires the inner trip count to be within A's columns. For a left vector the source promotes an inner extent of 0 to 1 and the emitted loop reads `A[r][0]` on an axis of extent 0, which is not modelled; the same holds for MatMul.Multiply4D and MatMul.MultiplyChannel.
- QuantAvgPool.Print: requires a batch extent of at least 1, since the emitted loop writes `y[0]`. When the shift is undefined (`ShiftPlan` fails) the model leaves `y` untouched, where the source would emit a shift computed from an undefined `log2`.
- Memory management, the graph driver and code generation for other operators are not part of this model.

## Findings

| source | as written | input that shows it | evidently intended | confidence | as-written member | corrected member |
|---|---|---|---|---|---|---|
| src/nodes/topk.h:28-30, 99-102 | `largest` is never initialised, so a node without the attribute tests an indeterminate value | a TopK node with no `largest` attribute (ONNX default 1), field holding 0 | an absent `largest` means 1 and `print` proceeds | not executed | TopK.PrintPlanAsWritten (shown by TopK.AbsentLargest) | TopK.PrintPlan |
