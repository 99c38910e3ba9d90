# TurboReg2 core, modelled in Dafny

This project models the preprocessing and bookkeeping core of TurboReg2, the
ImageJ 2 port of the TurboReg landmark-based image registration plugin. It does
not model the registration itself. The modelled core covers:

* **TurboRegImage**: the B-spline machinery applied to an image. It computes
  the spline coefficients of the samples (a recursive prefilter run in place),
  the symmetric and antisymmetric mirror-boundary FIR filters, and the
  dual-to-dual reduction. It applies these as separable passes over a raster
  row by row and column by column. It builds three multiresolution pyramids on
  a stack, and `run` dispatches on the transformation and the image's role.
* **TurboRegMask**: the mask of the region of interest. `clearMask` sets it
  to all ones, `setData` marks the union of the regions, `getHalfMask2D` is the
  3×3 window reduction, and `buildPyramid` builds the mask pyramid.
* **TurboRegInterval**: what the image and the mask share. This is clipping to
  the bounding box, the pyramid depth computed from the source and target
  sizes, and cancellation through an execution context.
* **TurboRegPointHandler**: the landmarks. It covers how many of them each
  model needs and their starting layout. A move is clipped, and a rigid body
  refuses a move that comes too close. Landmarks are written to a results
  table and read back from one.
* **TransformationType**: the five models, their display names, and the
  lookup by name.
* **TurboRegApply**: the odometer that enumerates every plane of a stack, and
  the clamp of transformed values to the channel's range.

The modules follow the program's structure:

| module | file | models |
|---|---|---|
| `Mirror` | mirror.dfy | Reference definitions: the half-sample mirror extension and the convolutions over it. |
| `Kernels` | kernels.dfy | The 1-D filters, each proved equal to its reference. |
| `Interpolation` | interpolation.dfy | The in-place recursive B-spline prefilter and its initial values. |
| `Raster` | raster.dfy | Rows and columns of a raster, and what a pass over all of them computes. |
| `Image` | image.dfy | The 2-D filters, the pyramids, and the `TurboRegImage` class. |
| `Mask` | mask.dfy | The `TurboRegMask` class and the window reduction. |
| `Interval` | interval.dfy | Clipping, pyramid depth, and cancellation. |
| `PointHandler` | points.dfy | The `TurboRegPointHandler` class and the results table. |
| `Transformation` | transformation.dfy | The models and their names. |
| `Apply` | apply.dfy | The odometer and the clamp. |
| `Arith`, `Wrappers` | arith.dfy, wrappers.dfy | Java integer halving and truncation, real powers, raster indexing, and `Option`. |

Float and double samples are modelled as `real`. Where the Java code fills an
array in place, the model keeps the `array` and proves each method against a
specification function on sequences. The properties of the source are then
proved about those functions:

* every filter equals its reference convolution;
* rows and columns round-trip;
* constants are preserved through every filter, level, and pyramid;
* the pyramid layout on the stack;
* the mask window's values;
* the odometer visits each plane exactly once;
* a table round-trips the landmarks.

Cancellation is an `ExecutionContext` whose `canceled` flag may turn true at
any poll and never turns false again. Every interruptible operation promises
its full result when the context is still not canceled at the end. Whatever
happens, it keeps the shape of what it produced.

Some behaviour of the code is worth noting, because it is easy to misread:

* **`getHalfMask2D`.** The window is 3×3 and is clipped at the top and left
  edges. A trailing odd row and column are never read. On an all-ones mask
  the reduction is 4 in the corner, 6 along the top and left edges, and 9
  everywhere else.
* **`movePoint`.** For a rigid body, the move is refused by comparing with
  the other landmark, `precisionPoint[3 - currentPoint]`. It is not compared
  with a mirror of the current one.
* **`TurboRegApply.run`.** The odometer steps before each plane is run, so
  the all-zero plane is visited last.

## Model

| member | source | states |
|---|---|---|
| Transformation.ValuesListEveryModel | src/main/java/fiji/plugin/turboreg2/TransformationType.java:18-46 | `values()` lists each of the five models, and no model twice. |
| Transformation.DisplayNamesDistinct | src/main/java/fiji/plugin/turboreg2/TransformationType.java:18-53 | Two models have the same display name exactly when they are the same model. |
| Transformation.SearchFrom | src/main/java/fiji/plugin/turboreg2/TransformationType.java:71-76 | A model the search finds has exactly the name searched for. |
| Transformation.LookupDisplayName | src/main/java/fiji/plugin/turboreg2/TransformationType.java:48-76 | `fromDisplayName(t.getDisplayName())` is `t` for every model (round trip). |
| Transformation.LookupOtherName | src/main/java/fiji/plugin/turboreg2/TransformationType.java:71-76 | The lookup finds nothing (null) exactly when no model has that display name. |
| Transformation.GetAllDisplayNames | src/main/java/fiji/plugin/turboreg2/TransformationType.java:57-64 | Returns five names, entry i being the display name of the i-th model in declaration order. |
| Transformation.FromDisplayName | src/main/java/fiji/plugin/turboreg2/TransformationType.java:71-76 | The early-return search loop returns what the lookup specifies: the named model, or none. |
| Interval.Bounds.ClipX | src/main/java/ch/epfl/bigwww/turboreg2/TurboRegInterval.java:112-114 | For a non-negative width the result lies in `[xOffset, xOffset + width]`. It is the identity inside, `xOffset` below, and the upper end above. The lower test wins when the width is negative. |
| Interval.Bounds.ClipY | src/main/java/ch/epfl/bigwww/turboreg2/TurboRegInterval.java:115-117 | As `ClipX`, for rows. |
| Interval.Bounds.ClipXReal | src/main/java/ch/epfl/bigwww/turboreg2/TurboRegInterval.java:118-120 | As `ClipX`, for a double coordinate. |
| Interval.Bounds.ClipYReal | src/main/java/ch/epfl/bigwww/turboreg2/TurboRegInterval.java:121-123 | As `ClipY`, for a double coordinate. |
| Interval.ClipIdempotent | src/main/java/ch/epfl/bigwww/turboreg2/TurboRegInterval.java:112-123 | Clipping a clipped coordinate changes nothing, for all four clips. |
| Interval.ClipRealOfInt | src/main/java/ch/epfl/bigwww/turboreg2/TurboRegInterval.java:112-123 | The double clip of a whole coordinate is the long clip of it. |
| Interval.PyramidDepth | src/main/java/ch/epfl/bigwww/turboreg2/TurboRegInterval.java:244-255 | `depth >= 1`. `depth == 1` exactly when some size is below 24. Every level below `depth` has all four sizes, halved that often, at least 12. After `depth - 1` halvings some size is below 24. |
| Interval.ExecutionContext.constructor | src/main/java/ch/epfl/bigwww/turboreg2/TurboRegInterval.java:78-80 | A new context is not canceled. |
| Interval.IsCanceled | src/main/java/ch/epfl/bigwww/turboreg2/TurboRegInterval.java:86-89 | Returns the context's state. With no context it never reports a cancellation. Once canceled, it stays canceled. |
| Mirror.Reflect | src/main/java/fiji/plugin/turboreg2/TurboRegImage.java:736-831 | The index the mirrored signal reads at any position lies inside the signal. |
| Mirror.ReflectNear | src/main/java/fiji/plugin/turboreg2/TurboRegImage.java:742-829 | Up to two periods out, the reflection is the closed form the boundary cases of the FIR filters write. |
| Mirror.ReflectReverse | src/main/java/fiji/plugin/turboreg2/TurboRegImage.java:736-831 | Reflection commutes with reversing the signal. |
| Mirror.ExtReverse | src/main/java/fiji/plugin/turboreg2/TurboRegImage.java:736-831 | The mirror extension of the reversed signal is the reversed extension. |
| Mirror.Symmetric | src/main/java/fiji/plugin/turboreg2/TurboRegImage.java:736-831 | The reference symmetric convolution over the mirror extension keeps the length. |
| Mirror.Anti | src/main/java/fiji/plugin/turboreg2/TurboRegImage.java:182-196 | The reference antisymmetric convolution over the mirror extension keeps the length. |
| Mirror.SymmetricConstant | src/main/java/fiji/plugin/turboreg2/TurboRegImage.java:736-831 | A symmetric filter multiplies a constant signal by the kernel's weight `h0 + 2(h1 + ...)`. |
| Mirror.SymmetricUnitConstant | src/main/java/fiji/plugin/turboreg2/TurboRegImage.java:736-831 | A kernel of unit weight leaves a constant signal unchanged. |
| Mirror.AntiConstant | src/main/java/fiji/plugin/turboreg2/TurboRegImage.java:182-196 | An antisymmetric filter sends a constant signal to zero. |
| Mirror.SymmetricReverse | src/main/java/fiji/plugin/turboreg2/TurboRegImage.java:736-831 | The symmetric filter commutes with reversal, so both borders are treated alike. |
| Mirror.AntiReverse | src/main/java/fiji/plugin/turboreg2/TurboRegImage.java:182-196 | The antisymmetric filter anticommutes with reversal. |
| Kernels.Kernel | src/main/java/fiji/plugin/turboreg2/TurboRegImage.java:213-232 | Degree 3 selects the cubic taps, degree 7 the degree-7 taps, and any other degree the single tap 1. |
| Kernels.KernelWeights | src/main/java/fiji/plugin/turboreg2/TurboRegImage.java:213-232 | The cubic, degree-7 and reduction kernels each have unit weight. |
| Kernels.Reduce | src/main/java/fiji/plugin/turboreg2/TurboRegImage.java:649-682 | The reduction has half the length of its input. |
| Kernels.TwoTapIsSymmetric | src/main/java/fiji/plugin/turboreg2/TurboRegImage.java:742-754 | Each output formula of the two-tap case, including the short and the border cases, equals the reference convolution. |
| Kernels.FourTapIsSymmetric | src/main/java/fiji/plugin/turboreg2/TurboRegImage.java:755-829 | Each output formula of the four-tap case equals the reference convolution. |
| Kernels.FourTapLongIsSymmetric | src/main/java/fiji/plugin/turboreg2/TurboRegImage.java:756-779 | For six or more samples, the first three, the inner and the last three outputs equal the reference. |
| Kernels.FourTapShortIsSymmetric | src/main/java/fiji/plugin/turboreg2/TurboRegImage.java:780-828 | For lengths 5, 4, 3, 2 and 1, every written output equals the reference. |
| Kernels.AntiTwoTapIsAnti | src/main/java/fiji/plugin/turboreg2/TurboRegImage.java:182-196 | The gradient formulas, including the border and length-1 cases, equal the reference antisymmetric convolution. |
| Kernels.ReduceTapIsReduce | src/main/java/fiji/plugin/turboreg2/TurboRegImage.java:649-682 | Each reduced sample, including the short cases, is the reduction-kernel output at the even position. |
| Kernels.TwoTapSpec | src/main/java/fiji/plugin/turboreg2/TurboRegImage.java:742-754 | A line that agrees with the two-tap formulas everywhere is the symmetric filter's output. |
| Kernels.FourTapSpec | src/main/java/fiji/plugin/turboreg2/TurboRegImage.java:755-829 | A line that agrees with the four-tap formulas everywhere is the symmetric filter's output. |
| Kernels.AntiTwoTapSpec | src/main/java/fiji/plugin/turboreg2/TurboRegImage.java:182-196 | A line that agrees with the gradient formulas everywhere is the antisymmetric filter's output. |
| Kernels.ReduceTapSpec | src/main/java/fiji/plugin/turboreg2/TurboRegImage.java:649-682 | A line that agrees with the reduction formulas everywhere is the reduction. |
| Kernels.SymmetricFirMirrorOffBounds1D | src/main/java/fiji/plugin/turboreg2/TurboRegImage.java:736-831 | With 2 or 4 taps, `s` is the mirror-boundary convolution of `c`. With any other count, `s` is left unchanged (the switch has no default). |
| Kernels.SymmetricFir2 | src/main/java/fiji/plugin/turboreg2/TurboRegImage.java:742-754 | Each output of the two-tap loop is its formula. |
| Kernels.SymmetricFir4Long | src/main/java/fiji/plugin/turboreg2/TurboRegImage.java:756-779 | Each output of the four-tap loop for lengths from 6 up is its formula. |
| Kernels.SymmetricFir4Short | src/main/java/fiji/plugin/turboreg2/TurboRegImage.java:780-828 | Each output of the four-tap short cases is its formula. |
| Kernels.AntiSymmetricFirMirrorOffBounds1D | src/main/java/fiji/plugin/turboreg2/TurboRegImage.java:182-196 | `s` is the mirror-boundary antisymmetric convolution of `c`. |
| Kernels.ReduceDual1D | src/main/java/fiji/plugin/turboreg2/TurboRegImage.java:649-682 | `s` is the reduction of `c`: the filtered signal at the even positions. |
| Kernels.CoefficientToGradient1D | src/main/java/fiji/plugin/turboreg2/TurboRegImage.java:360-367 | `c` becomes the central-difference gradient of the old `c`. |
| Kernels.CoefficientToSamples1D | src/main/java/fiji/plugin/turboreg2/TurboRegImage.java:372-379 | `c` becomes the cubic kernel applied to the old `c`, the samples of the spline. |
| Kernels.SplineKeepsConstant | src/main/java/fiji/plugin/turboreg2/TurboRegImage.java:213-232 | Both spline kernels leave a constant line unchanged. |
| Kernels.GradientOfConstant | src/main/java/fiji/plugin/turboreg2/TurboRegImage.java:360-367 | The gradient of a constant line is zero everywhere, borders included. |
| Kernels.GradientOfRamp | src/main/java/fiji/plugin/turboreg2/TurboRegImage.java:360-367 | Away from the borders, the gradient of the ramp `a·i` is the slope `a`. |
| Kernels.ReduceConstant | src/main/java/fiji/plugin/turboreg2/TurboRegImage.java:649-682 | Reducing a constant line gives the same constant at half the length. |
| Interpolation.Poles | src/main/java/fiji/plugin/turboreg2/TurboRegImage.java:694-710 | Degree 3 has the pole √3−2, degree 7 the three literal poles, and any other degree none. |
| Interpolation.PolesValid | src/main/java/fiji/plugin/turboreg2/TurboRegImage.java:694-710 | Every pole lies strictly between −1 and 0. |
| Interpolation.PolesAreSplineRoots | src/main/java/fiji/plugin/turboreg2/TurboRegImage.java:694-710 | Each pole is, to within 10⁻⁵⁰ (the decimal poles are rounded), a root of the characteristic polynomial of its spline's kernel. |
| Interpolation.Horizon | src/main/java/fiji/plugin/turboreg2/TurboRegImage.java:576-580 | The horizon never exceeds the length. With tolerance 0 it is the whole length. |
| Interpolation.CausalNumeratorIsMirrorSum | src/main/java/fiji/plugin/turboreg2/TurboRegImage.java:568-588 | With the full horizon, the sum the loop accumulates is the mirrored signal summed over one period with powers of `z`. |
| Interpolation.CausalInitSteadyState | src/main/java/fiji/plugin/turboreg2/TurboRegImage.java:568-588 | The causal initial value is the causal filter run over a whole period of the mirrored signal, started from itself. |
| Interpolation.AntiCausalInitFixedPoint | src/main/java/fiji/plugin/turboreg2/TurboRegImage.java:557-563 | The anticausal initial value is the fixed point of the anticausal step at the last sample. |
| Interpolation.CausalInitTimesDenominator | src/main/java/fiji/plugin/turboreg2/TurboRegImage.java:568-588 | The causal initial value times `1 − z^(2N)` is the sum the loop accumulates. |
| Interpolation.MirrorSumConstant | src/main/java/fiji/plugin/turboreg2/TurboRegImage.java:568-588 | Over a constant signal `b`, the mirrored sum is `b` times the geometric sum of `z`. |
| Interpolation.CausalInitConstant | src/main/java/fiji/plugin/turboreg2/TurboRegImage.java:568-588 | On a constant signal `b`, the causal initial value is the steady state `b/(1−z)`. |
| Interpolation.CausalAtConstant | src/main/java/fiji/plugin/turboreg2/TurboRegImage.java:721-724 | A causal filter started at its steady state stays there on a constant signal. |
| Interpolation.AntiCausalAtConstant | src/main/java/fiji/plugin/turboreg2/TurboRegImage.java:725-729 | An anticausal filter started at its fixed point stays there on a constant signal. |
| Interpolation.GainOfSteadyStates | src/main/java/fiji/plugin/turboreg2/TurboRegImage.java:720-730 | The two steady states of a pole compose to the gain `z/((1−z)(z−1))`. |
| Interpolation.Interpolate | src/main/java/fiji/plugin/turboreg2/TurboRegImage.java:687-731 | The coefficients of a line have the length of the line. |
| Interpolation.GetInitialCausalCoefficientMirrorOffBounds | src/main/java/fiji/plugin/turboreg2/TurboRegImage.java:568-588 | The loop with its running powers computes the causal initial value for the given horizon. |
| Interpolation.GetInitialAntiCausalCoefficientMirrorOffBounds | src/main/java/fiji/plugin/turboreg2/TurboRegImage.java:557-563 | Returns `z·c[N−1]/(z−1)`, the anticausal initial value. |
| Interpolation.CausalPass | src/main/java/fiji/plugin/turboreg2/TurboRegImage.java:721-724 | The forward loop computes the causal filter `c[n] += z·c[n−1]` from the given start. |
| Interpolation.AntiCausalPass | src/main/java/fiji/plugin/turboreg2/TurboRegImage.java:725-729 | The backward loop computes the anticausal filter `c[n] = z·(c[n+1] − c[n])` from the given end. |
| Interpolation.ApplyPole | src/main/java/fiji/plugin/turboreg2/TurboRegImage.java:720-730 | One pole's causal and anticausal passes, each started at its mirror initial value. |
| Interpolation.ApplyPoles | src/main/java/fiji/plugin/turboreg2/TurboRegImage.java:720-730 | Every pole's two passes, in order. |
| Interpolation.ScaleInPlace | src/main/java/fiji/plugin/turboreg2/TurboRegImage.java:717-719 | Every sample multiplied by the gain. |
| Interpolation.SamplesToInterpolationCoefficient1D | src/main/java/fiji/plugin/turboreg2/TurboRegImage.java:687-731 | `c` becomes the B-spline coefficients of the old `c` (tolerance 0). |
| Interpolation.CausalConstant | src/main/java/fiji/plugin/turboreg2/TurboRegImage.java:720-724 | On a constant signal `b`, the causal pass outputs its steady state `b/(1−z)` everywhere. |
| Interpolation.AntiCausalConstant | src/main/java/fiji/plugin/turboreg2/TurboRegImage.java:725-729 | On a constant signal `b`, the anticausal pass outputs `z·b/(z−1)` everywhere. |
| Interpolation.OnePoleConstant | src/main/java/fiji/plugin/turboreg2/TurboRegImage.java:720-730 | One pole's two passes scale a constant signal by `z/((1−z)(z−1))`. |
| Interpolation.PassesConstant | src/main/java/fiji/plugin/turboreg2/TurboRegImage.java:720-730 | All poles' passes scale a constant signal by the product of those gains. |
| Interpolation.LambdaGain | src/main/java/fiji/plugin/turboreg2/TurboRegImage.java:714-716 | The gain factor `λ = Π (1−z)(1−1/z)` is the inverse of that product. |
| Interpolation.InterpolateConstant | src/main/java/fiji/plugin/turboreg2/TurboRegImage.java:687-731 | The coefficients of a constant signal are that constant (B-splines reproduce constants). |
| Raster.RowOf | src/main/java/fiji/plugin/turboreg2/TurboRegImage.java:455-464 | Row y of the raster holds cells `w·y .. w·y + w − 1`. |
| Raster.ColumnOf | src/main/java/fiji/plugin/turboreg2/TurboRegImage.java:440-450 | Column x holds cells `x + w·i` for i below the height. |
| Raster.WithRow | src/main/java/fiji/plugin/turboreg2/TurboRegImage.java:635-644 | Writing row y changes only its w cells, to the given values. |
| Raster.WithColumnAt | src/main/java/fiji/plugin/turboreg2/TurboRegImage.java:620-630 | Writing column x changes only its cells, to the given values. |
| Raster.RowOfWithRow | src/main/java/fiji/plugin/turboreg2/TurboRegImage.java:635-644 | Reading back a row just written gives what was written. |
| Raster.RowOfWithOtherRow | src/main/java/fiji/plugin/turboreg2/TurboRegImage.java:635-644 | Writing a row leaves every other row as it was. |
| Raster.WithRowOf | src/main/java/fiji/plugin/turboreg2/TurboRegImage.java:455-464 | Writing back the row just read changes nothing. |
| Raster.ColumnOfWithColumn | src/main/java/fiji/plugin/turboreg2/TurboRegImage.java:620-630 | Reading back a column just written gives what was written. |
| Raster.ColumnOfWithOtherColumn | src/main/java/fiji/plugin/turboreg2/TurboRegImage.java:620-630 | Writing a column leaves every other column as it was. |
| Raster.ExtractRow | src/main/java/fiji/plugin/turboreg2/TurboRegImage.java:455-464 | The buffer receives row y. |
| Raster.PutRow | src/main/java/fiji/plugin/turboreg2/TurboRegImage.java:635-644 | The raster becomes the one with row y replaced by the buffer. |
| Raster.ExtractColumn | src/main/java/fiji/plugin/turboreg2/TurboRegImage.java:440-450 | The buffer receives column x. |
| Raster.PutColumn | src/main/java/fiji/plugin/turboreg2/TurboRegImage.java:620-630 | The raster becomes the one with column x replaced by the buffer. |
| Raster.Apply | src/main/java/fiji/plugin/turboreg2/TurboRegImage.java:235-248 | Each line operation of a pass keeps the length, except the reduction, which halves it. |
| Raster.ApplyConstant | src/main/java/fiji/plugin/turboreg2/TurboRegImage.java:235-248 | Every line operation sends a constant line to a constant line: the gradients to zero, the others to the same value. |
| Raster.FilterLine | src/main/java/fiji/plugin/turboreg2/TurboRegImage.java:235-248 | One line through the operation, into a second buffer or in place, gives what the operation specifies. |
| Raster.MapRows | src/main/java/fiji/plugin/turboreg2/TurboRegImage.java:235-241 | The result of a rows pass has one output row per input row. |
| Raster.RowOfMapRows | src/main/java/fiji/plugin/turboreg2/TurboRegImage.java:235-241 | Row y of a rows pass is the operation applied to row y. |
| Raster.MapColumns | src/main/java/fiji/plugin/turboreg2/TurboRegImage.java:242-248 | The result of a columns pass has one output column per input column. |
| Raster.ColumnsDoneStep | src/main/java/fiji/plugin/turboreg2/TurboRegImage.java:242-248 | Writing column x into the raster with x columns done gives x + 1 columns done. |
| Raster.ColumnsDoneComplete | src/main/java/fiji/plugin/turboreg2/TurboRegImage.java:242-248 | With every column written, the raster is the columns pass, whatever it held before. |
| Raster.RowsDoneEnds | src/main/java/fiji/plugin/turboreg2/TurboRegImage.java:235-241 | With no row written the raster is as it was. With every row written it is the rows pass. |
| Raster.RowsShift | src/main/java/fiji/plugin/turboreg2/TurboRegImage.java:235-241 | Writing row y's output into the raster with y rows done gives y + 1 rows done. |
| Raster.RowOfConstant | src/main/java/fiji/plugin/turboreg2/TurboRegImage.java:455-464 | Every row of a constant raster is a constant line. |
| Raster.ColumnOfMapColumns | src/main/java/fiji/plugin/turboreg2/TurboRegImage.java:242-248 | Column x of a columns pass is the operation applied to column x. |
| Raster.ColumnsDoneOther | src/main/java/fiji/plugin/turboreg2/TurboRegImage.java:242-248 | Writing the first x columns leaves every later column as it was, so the in-place columns pass reads its input. |
| Raster.RowsRead | src/main/java/fiji/plugin/turboreg2/TurboRegImage.java:235-241 | A rows pass that writes over its own input still reads each row as it was. |
| Raster.MapRowsConstant | src/main/java/fiji/plugin/turboreg2/TurboRegImage.java:235-241 | A rows pass over a constant raster gives a constant raster. |
| Raster.MapColumnsConstant | src/main/java/fiji/plugin/turboreg2/TurboRegImage.java:242-248 | A columns pass over a constant raster gives a constant raster. |
| Raster.PassRow | src/main/java/fiji/plugin/turboreg2/TurboRegImage.java:235-241 | One step of the row loop: extract, filter, put. |
| Raster.PassColumn | src/main/java/fiji/plugin/turboreg2/TurboRegImage.java:242-248 | One step of the column loop: extract, filter, put. |
| Raster.RowsPass | src/main/java/fiji/plugin/turboreg2/TurboRegImage.java:235-241 | Unless canceled, the row loop, polling before each row, leaves the rows pass of the old input. Canceled or not, the output holds the filtered first rows and the old values after them. |
| Raster.ColumnsPass | src/main/java/fiji/plugin/turboreg2/TurboRegImage.java:242-248 | Unless canceled, the column loop, in place or not, leaves the columns pass of the old input. Canceled or not, the output holds the filtered first columns and the old values in the others. |
| Image.Separable | src/main/java/fiji/plugin/turboreg2/TurboRegImage.java:201-250 | A rows pass followed by a columns pass. The output has each dimension of its line operation. |
| Image.SeparableConstant | src/main/java/fiji/plugin/turboreg2/TurboRegImage.java:201-250 | A separable filter sends a constant raster to a constant raster. |
| Image.XGradientOf | src/main/java/fiji/plugin/turboreg2/TurboRegImage.java:384-421 | The horizontal gradient (gradient along rows, samples along columns) has the size of the image. |
| Image.YGradientOf | src/main/java/fiji/plugin/turboreg2/TurboRegImage.java:384-421 | The vertical gradient (samples along rows, gradient along columns) has the size of the image. |
| Image.GradientsOfConstant | src/main/java/fiji/plugin/turboreg2/TurboRegImage.java:384-421 | Both gradients of a constant raster vanish. |
| Image.BasicToCardinal2D | src/main/java/fiji/plugin/turboreg2/TurboRegImage.java:201-250 | Unless canceled, `cardinal` is the separable spline filter of the old `basic`, even when the two are the same raster. |
| Image.GetBasicFromCardinal2D | src/main/java/fiji/plugin/turboreg2/TurboRegImage.java:493-518 | Unless canceled, a fresh raster holding the separable B-spline coefficients of `cardinal`. |
| Image.GetHalfDual2D | src/main/java/fiji/plugin/turboreg2/TurboRegImage.java:523-552 | Unless canceled, a fresh half-size raster holding the separable reduction of `fullDual`. |
| Image.CardinalToDual2D | src/main/java/fiji/plugin/turboreg2/TurboRegImage.java:346-355 | Unless canceled, `dual` is the filter of degree `2·degree + 1` applied to the coefficients of degree `degree`. |
| Image.DualToCardinal2D | src/main/java/fiji/plugin/turboreg2/TurboRegImage.java:426-435 | Unless canceled, `cardinal` is the filter of the degree applied to the coefficients of degree `2·degree + 1`. |
| Image.CopyLine | src/main/java/fiji/plugin/turboreg2/TurboRegImage.java:401-403 | The copy of a whole line. |
| Image.GradientRow | src/main/java/fiji/plugin/turboreg2/TurboRegImage.java:384-400 | One step of the row loop of the gradients, writing both rasters. |
| Image.GradientRows | src/main/java/fiji/plugin/turboreg2/TurboRegImage.java:384-400 | Unless canceled, the x gradient holds the row gradients and the y gradient the row samples. |
| Image.GradientColumns | src/main/java/fiji/plugin/turboreg2/TurboRegImage.java:404-420 | Unless canceled, both rasters get their column pass, sharing one column buffer. |
| Image.CoefficientToXYGradient2D | src/main/java/fiji/plugin/turboreg2/TurboRegImage.java:384-421 | Unless canceled, the two rasters are the horizontal and the vertical gradient of the coefficients. |
| Image.ImageToXYGradient2D | src/main/java/fiji/plugin/turboreg2/TurboRegImage.java:593-615 | Unless canceled, fresh rasters holding the gradients of the image's cubic spline along rows and along columns. |
| Image.FullDual | src/main/java/fiji/plugin/turboreg2/TurboRegImage.java:255-341 | The full-size dual raster the levels are reduced from has the size of the image. |
| Image.DualLevel | src/main/java/fiji/plugin/turboreg2/TurboRegImage.java:255-341 | The dual raster of level d has the size halved d times in each dimension. |
| Image.Levels | src/main/java/fiji/plugin/turboreg2/TurboRegImage.java:255-341 | The first n levels form a stack of n levels: each level's rasters, then its height, then its width on top. |
| Image.Layout | src/main/java/ch/epfl/bigwww/turboreg2/TurboRegInterval.java:181-199 | A stack's layout is its entries with their values forgotten. |
| Image.LevelLayout | src/main/java/ch/epfl/bigwww/turboreg2/TurboRegInterval.java:181-199 | A level pushes its rasters of `hw·hh` cells, then its height, then its width. |
| Image.LevelsLayout | src/main/java/ch/epfl/bigwww/turboreg2/TurboRegInterval.java:181-199 | The layout of n levels has `Stride(kind)·n` entries. |
| Image.LevelShapedEntries | src/main/java/ch/epfl/bigwww/turboreg2/TurboRegInterval.java:181-199 | A level has the number of entries of its kind. Its width is on top and its height just below. Every raster has the level's size. |
| Image.LevelItemsShaped | src/main/java/fiji/plugin/turboreg2/TurboRegImage.java:270-311 | What one level pushes has the shape of its kind. |
| Image.StackedPush | src/main/java/fiji/plugin/turboreg2/TurboRegImage.java:264-277 | Pushing level n onto n − 1 levels gives a stack of n levels. |
| Image.LevelsLayoutLevel | src/main/java/ch/epfl/bigwww/turboreg2/TurboRegInterval.java:181-199 | Level d of the layout is the layout of a level halved d times. |
| Image.StackedLength | src/main/java/ch/epfl/bigwww/turboreg2/TurboRegInterval.java:181-199 | A stack of n levels has `Stride·n` entries, with the size of level n on top. |
| Image.StackedLevel | src/main/java/ch/epfl/bigwww/turboreg2/TurboRegInterval.java:181-199 | Every level of a stack has rasters of that level's size. |
| Image.ConstantLevel | src/main/java/fiji/plugin/turboreg2/TurboRegImage.java:255-341 | The level of a constant image has the shape of its kind. |
| Image.ConstantLevels | src/main/java/fiji/plugin/turboreg2/TurboRegImage.java:255-341 | The levels of a constant image form a stack. |
| Image.DualLevelConstant | src/main/java/fiji/plugin/turboreg2/TurboRegImage.java:270 | Reducing any constant dual raster keeps the constant at every level. |
| Image.DualLevelStep | src/main/java/fiji/plugin/turboreg2/TurboRegImage.java:270 | One more reduction of a constant dual level is constant with the same value. |
| Image.LevelItemsConstant | src/main/java/fiji/plugin/turboreg2/TurboRegImage.java:270-311 | A level built from a constant dual raster holds the constant, with vanishing gradients. |
| Image.PyramidOfConstant | src/main/java/fiji/plugin/turboreg2/TurboRegImage.java:255-341 | Every pyramid of any constant full dual raster holds that constant at every level. |
| Image.FullDualConstant | src/main/java/fiji/plugin/turboreg2/TurboRegImage.java:255-341 | A constant image has a constant full dual raster, whichever pyramid is built. |
| Image.CoefficientLevel | src/main/java/fiji/plugin/turboreg2/TurboRegImage.java:270-276 | Unless canceled, one coefficient-pyramid level: the degree-7 coefficients of the dual raster, its height, its width. |
| Image.ImageLevel | src/main/java/fiji/plugin/turboreg2/TurboRegImage.java:330-336 | Unless canceled, one image-pyramid level: the cubic samples of the dual raster, its height, its width. |
| Image.GradientLevel | src/main/java/fiji/plugin/turboreg2/TurboRegImage.java:298-309 | Unless canceled, one gradient-pyramid level: the y and x gradients, the samples, the height and the width. |
| Image.LevelPush | src/main/java/fiji/plugin/turboreg2/TurboRegImage.java:255-341 | What one level pushes, for the kind of pyramid. |
| Image.NextLevel | src/main/java/fiji/plugin/turboreg2/TurboRegImage.java:264-277 | Unless canceled, the next dual raster is the reduction of the current one, and the entries pushed are its level's. |
| Image.LevelStep | src/main/java/fiji/plugin/turboreg2/TurboRegImage.java:264-277 | One loop pass keeps the stack a stack of levels and advances the level. |
| Image.BuildLevels | src/main/java/fiji/plugin/turboreg2/TurboRegImage.java:264-277 | The loop pushes at most `depth − 1` levels, all correctly shaped. Unless canceled, it pushes exactly the first `depth − 1` levels. |
| Image.Pyramid | src/main/java/fiji/plugin/turboreg2/TurboRegImage.java:255-341 | The pyramid of a depth is a stack of `depth − 1` levels, and empty for depth ≤ 1. |
| Image.FullDualRaster | src/main/java/fiji/plugin/turboreg2/TurboRegImage.java:258-263 | The full dual raster is zero for depth ≤ 1. Otherwise, unless canceled, it is its full-size dual. |
| Image.PyramidOfFullDual | src/main/java/fiji/plugin/turboreg2/TurboRegImage.java:255-341 | The levels pushed from that raster are the pyramid. |
| Image.BuildPyramid | src/main/java/fiji/plugin/turboreg2/TurboRegImage.java:255-341 | Unless canceled, the entries pushed are the pyramid. Whatever happens, they are a stack of at most `depth − 1` levels. |
| Image.TurboRegImage.constructor | src/main/java/ch/epfl/bigwww/turboreg2/TurboRegInterval.java:33-45 | A new image has an empty pyramid and no execution context. |
| Image.TurboRegImage.SetTransformation | src/main/java/fiji/plugin/turboreg2/TurboRegImage.java:116-120 | Sets the transformation. |
| Image.TurboRegImage.SetPyramidDepth | src/main/java/ch/epfl/bigwww/turboreg2/TurboRegInterval.java:170-172 | Sets the depth. |
| Image.TurboRegImage.SetExecutionContext | src/main/java/ch/epfl/bigwww/turboreg2/TurboRegInterval.java:78-80 | Sets the context. |
| Image.TurboRegImage.SetData | src/main/java/fiji/plugin/turboreg2/TurboRegImage.java:172-179 | The buffer becomes the image, with its size, offsets and role. Nothing else changes. |
| Image.TurboRegImage.PushPyramid | src/main/java/fiji/plugin/turboreg2/TurboRegImage.java:255-341 | Pushes onto the stack: unless canceled, the pyramid of the kind; whatever happens, a stack of levels. |
| Image.TurboRegImage.BuildCoefficientPyramid | src/main/java/fiji/plugin/turboreg2/TurboRegImage.java:255-278 | Pushes the coefficient pyramid, built from the degree-7 dual of the coefficients. |
| Image.TurboRegImage.BuildImagePyramid | src/main/java/fiji/plugin/turboreg2/TurboRegImage.java:318-341 | Pushes the image pyramid, built from the cubic dual of the image. |
| Image.TurboRegImage.BuildImageAndGradientPyramid | src/main/java/fiji/plugin/turboreg2/TurboRegImage.java:283-313 | Pushes the image-and-gradient pyramid. |
| Image.TurboRegImage.BasicFromImage | src/main/java/fiji/plugin/turboreg2/TurboRegImage.java:469-488 | The cubic B-spline coefficients of the image. This pass is never interrupted. |
| Image.TurboRegImage.ImageGradients | src/main/java/fiji/plugin/turboreg2/TurboRegImage.java:593-615 | Unless canceled, the x and y gradient fields become the gradients of the image. |
| Image.TurboRegImage.BuildForRun | src/main/java/fiji/plugin/turboreg2/TurboRegImage.java:85-106 | A target gets the coefficient pyramid, or the image pyramid for a bilinear model. A source gets its gradients and the image-and-gradient pyramid, or the coefficient pyramid for a bilinear model. The gradients change only when that pyramid needs them. |
| Image.TurboRegImage.Run | src/main/java/fiji/plugin/turboreg2/TurboRegImage.java:83-107 | The coefficients become those of the image. Then the pyramid of the switch is pushed, and the gradients are set only when a non-bilinear source needs them. |
| Mask.HalfCell | src/main/java/ch/epfl/bigwww/turboreg2/TurboRegMask.java:168-241 | A cell of the reduced mask is never negative. |
| Mask.HalfMask | src/main/java/ch/epfl/bigwww/turboreg2/TurboRegMask.java:168-241 | The reduced mask has `(fw/2)·(fh/2)` cells, none negative. |
| Mask.ProgressStep | src/main/java/ch/epfl/bigwww/turboreg2/TurboRegMask.java:189-199 | One column pair adds columns 2x and 2x+1 to cell x and column 2x+1 to cell x+1. |
| Mask.AccumulatedStep | src/main/java/ch/epfl/bigwww/turboreg2/TurboRegMask.java:187-236 | One pass of the main loop adds the even input row to its output row, and the odd one to that row and the next. |
| Mask.PairsIntoRow | src/main/java/ch/epfl/bigwww/turboreg2/TurboRegMask.java:189-195 | The column-pair loop adds its input row to the output row, pair by pair. |
| Mask.RowComplete | src/main/java/ch/epfl/bigwww/turboreg2/TurboRegMask.java:189-199 | The pair loop and the last two columns together add the window sums of an input row. |
| Mask.RowInto | src/main/java/ch/epfl/bigwww/turboreg2/TurboRegMask.java:189-200 | One input row into one output row, skipping an odd last column. |
| Mask.PairsIntoTwoRows | src/main/java/ch/epfl/bigwww/turboreg2/TurboRegMask.java:201-210 | The pair loop of an odd input row feeds the output rows above and below. |
| Mask.PairIntoTwoRows | src/main/java/ch/epfl/bigwww/turboreg2/TurboRegMask.java:202-209 | One pair adds to cells x and x+1 in both rows and changes nothing else. |
| Mask.LastPairIntoTwoRows | src/main/java/ch/epfl/bigwww/turboreg2/TurboRegMask.java:210-213 | The last pair adds both columns to the last cell of both rows and changes nothing else. |
| Mask.TwoRowsComplete | src/main/java/ch/epfl/bigwww/turboreg2/TurboRegMask.java:201-214 | An odd input row adds its window sums to the output rows above and below. |
| Mask.ProgressLast | src/main/java/ch/epfl/bigwww/turboreg2/TurboRegMask.java:189-199 | After the pair loop every cell but the last has its full window sum, and the last pair completes it. |
| Mask.TwoRowsInto | src/main/java/ch/epfl/bigwww/turboreg2/TurboRegMask.java:201-215 | One odd input row into the rows above and below, skipping an odd last column. |
| Mask.LastRowInto | src/main/java/ch/epfl/bigwww/turboreg2/TurboRegMask.java:229-236 | The final odd input row into the last output row. |
| Mask.ClearRows | src/main/java/ch/epfl/bigwww/turboreg2/TurboRegMask.java:180-186 | Unless canceled, the output starts all zero. |
| Mask.RowPairStep | src/main/java/ch/epfl/bigwww/turboreg2/TurboRegMask.java:187-216 | One pass of the main loop adds both input rows of the pair. |
| Mask.LastRowPair | src/main/java/ch/epfl/bigwww/turboreg2/TurboRegMask.java:217-236 | The part after the main loop adds the last pair of input rows to the last output row. |
| Mask.MainPasses | src/main/java/ch/epfl/bigwww/turboreg2/TurboRegMask.java:187-216 | After the main loop every output cell holds what the passes made so far gave it. Unless canceled, it stops before the last pair. |
| Mask.GetHalfMask2D | src/main/java/ch/epfl/bigwww/turboreg2/TurboRegMask.java:168-241 | A fresh `(fw/2)·(fh/2)` mask, never negative. Unless canceled, it is the 3×3 window reduction of the input. |
| Mask.RowOfCell | src/main/java/ch/epfl/bigwww/turboreg2/TurboRegMask.java:168-241 | A cell lies in the output row it is indexed by, and in no other. |
| Mask.AccumulatedCell | src/main/java/ch/epfl/bigwww/turboreg2/TurboRegMask.java:187-236 | What the passes give a cell is what its window has seen so far. |
| Mask.PassGainCell | src/main/java/ch/epfl/bigwww/turboreg2/TurboRegMask.java:187-236 | Pass q feeds cell (x, y) both its input rows if q = y, its odd row if q = y − 1, and nothing otherwise. |
| Mask.WindowHalfCell | src/main/java/ch/epfl/bigwww/turboreg2/TurboRegMask.java:168-241 | Once every pass is made, a cell's window is its cell of the reduction. |
| Mask.AccumulatedHalfMask | src/main/java/ch/epfl/bigwww/turboreg2/TurboRegMask.java:168-241 | Once every pass is made, entry j of the loop's output is entry j of the reduction. |
| Mask.LastPassComplete | src/main/java/ch/epfl/bigwww/turboreg2/TurboRegMask.java:217-236 | The main loop, followed by the last pair, gives exactly the reduction. |
| Mask.HalfMaskAt | src/main/java/ch/epfl/bigwww/turboreg2/TurboRegMask.java:168-241 | Cell (x, y) of the reduction sits at `x + (fw/2)·y`. |
| Mask.TripleZero | src/main/java/ch/epfl/bigwww/turboreg2/TurboRegMask.java:189-213 | The part of a window in one input row sums to zero exactly when each of its cells is zero. |
| Mask.WindowZeroRow | src/main/java/ch/epfl/bigwww/turboreg2/TurboRegMask.java:168-241 | An all-zero window is zero in each of its input rows. |
| Mask.HalfCellZero | src/main/java/ch/epfl/bigwww/turboreg2/TurboRegMask.java:168-241 | An output cell is zero exactly when every input cell of its clipped 3×3 window is zero (both directions). |
| Mask.TripleOfOnes | src/main/java/ch/epfl/bigwww/turboreg2/TurboRegMask.java:189-213 | On an all-ones mask, one row of a window sums to 2 at the left edge and 3 elsewhere. |
| Mask.HalfCellOfOnes | src/main/java/ch/epfl/bigwww/turboreg2/TurboRegMask.java:168-241 | The reduction of the all-ones mask (`clearMask`) is 4 in the corner, 6 on the top and left edges, and 9 elsewhere. |
| Mask.HalfMaskIgnoresOddEdge | src/main/java/ch/epfl/bigwww/turboreg2/TurboRegMask.java:168-241 | Two masks that agree on the first `2·(fw/2)` columns and `2·(fh/2)` rows have the same reduction: an odd last row and column are never read. |
| Mask.SameWindow | src/main/java/ch/epfl/bigwww/turboreg2/TurboRegMask.java:168-241 | Masks that agree on the even-sized part give each cell the same value. |
| Mask.SameRow | src/main/java/ch/epfl/bigwww/turboreg2/TurboRegMask.java:189-213 | Masks that agree on the even-sized part give each cell the same share of each input row. |
| Mask.HalfMaskOfZeros | src/main/java/ch/epfl/bigwww/turboreg2/TurboRegMask.java:168-241 | The reduction of an all-zero mask is all zero. |
| Mask.MaskLevel | src/main/java/ch/epfl/bigwww/turboreg2/TurboRegMask.java:148-165 | Level d of the mask pyramid has `(w/2^d)·(h/2^d)` entries, none negative beyond level 0. |
| Mask.MaskLevels | src/main/java/ch/epfl/bigwww/turboreg2/TurboRegMask.java:148-165 | `buildPyramid` pushes the first n levels, finest first, each with the size of its level. The full-size mask is not pushed. |
| Mask.MaskLevelsAt | src/main/java/ch/epfl/bigwww/turboreg2/TurboRegMask.java:148-165 | Entry i of what is pushed is level i + 1. |
| Mask.PushLevel | src/main/java/ch/epfl/bigwww/turboreg2/TurboRegMask.java:157-163 | Unless canceled, one pass pushes the reduction of the current level. |
| Mask.BuildMaskLevels | src/main/java/ch/epfl/bigwww/turboreg2/TurboRegMask.java:148-165 | At most `depth − 1` levels are pushed. Nothing is pushed if already canceled. If never canceled, exactly the first `depth − 1` levels are pushed. |
| Mask.Regions | src/main/java/ch/epfl/bigwww/turboreg2/TurboRegMask.java:104-107 | The regions collected from the overlays, which are at most as many as the overlays. |
| Mask.RegionsCover | src/main/java/ch/epfl/bigwww/turboreg2/TurboRegMask.java:104-111 | The collected regions cover exactly what the overlays' regions cover. There are none exactly when no overlay has a region. |
| Mask.MaskValue | src/main/java/ch/epfl/bigwww/turboreg2/TurboRegMask.java:108-137 | `setData` leaves 0 or 1 at every pixel: 1 if there is no region or if some region covers the pixel. |
| Mask.MarkRegion | src/main/java/ch/epfl/bigwww/turboreg2/TurboRegMask.java:117-136 | One region sets to 1 the pixels it covers and leaves the others. |
| Mask.MarkRegions | src/main/java/ch/epfl/bigwww/turboreg2/TurboRegMask.java:117-137 | Over a zero mask, the marking loop leaves 1 on the union of the regions and 0 elsewhere. |
| Mask.CollectRegions | src/main/java/ch/epfl/bigwww/turboreg2/TurboRegMask.java:103-107 | The collecting loop keeps, in order, the regions of the overlays that have one. |
| Mask.TurboRegMask.constructor | src/main/java/ch/epfl/bigwww/turboreg2/TurboRegInterval.java:33-45 | A new mask has an empty pyramid and no execution context. |
| Mask.TurboRegMask.SetPyramidDepth | src/main/java/ch/epfl/bigwww/turboreg2/TurboRegInterval.java:170-172 | Sets the depth. |
| Mask.TurboRegMask.SetExecutionContext | src/main/java/ch/epfl/bigwww/turboreg2/TurboRegInterval.java:78-80 | Sets the context. |
| Mask.TurboRegMask.ClearMask | src/main/java/ch/epfl/bigwww/turboreg2/TurboRegMask.java:57-68 | Every entry of the mask becomes 1. |
| Mask.TurboRegMask.SetData | src/main/java/ch/epfl/bigwww/turboreg2/TurboRegMask.java:92-141 | Size and offsets come from the truncated selection bounds (`+1` on each size). The new mask holds, at every pixel, 1 when there is no region, otherwise 1 exactly on the union of the regions and 0 elsewhere. |
| Mask.TurboRegMask.BuildPyramid | src/main/java/ch/epfl/bigwww/turboreg2/TurboRegMask.java:148-165 | Pushes at most `depth − 1` correctly sized mask levels. Unless canceled, it pushes exactly the reductions of the mask. |
| Mask.TurboRegMask.Run | src/main/java/ch/epfl/bigwww/turboreg2/TurboRegMask.java:81-84 | The same as `buildPyramid`. |
| PointHandler.WithCoord | src/main/java/ch/epfl/bigwww/turboreg2/TurboRegPointHandler.java:555-562 | Setting coordinate j changes that coordinate only. |
| PointHandler.PointCount | src/main/java/ch/epfl/bigwww/turboreg2/TurboRegPointHandler.java:388-397 | 1 for a translation, 3 for a rigid body, 2 for a scaled rotation, 3 for an affine, 4 for a bilinear model. Always between 1 and 4, with each count's models named both ways. |
| PointHandler.DefaultPoints | src/main/java/ch/epfl/bigwww/turboreg2/TurboRegPointHandler.java:460-497 | The starting layout has `pointCount` landmarks. |
| PointHandler.DefaultPointsInImage | src/main/java/ch/epfl/bigwww/turboreg2/TurboRegPointHandler.java:464-492 | Every starting landmark lies in `[0, w]×[0, h]`. |
| PointHandler.DefaultPointsDistinct | src/main/java/ch/epfl/bigwww/turboreg2/TurboRegPointHandler.java:464-492 | On a non-empty image the starting landmarks are pairwise distinct. |
| PointHandler.DefaultPointsSymmetric | src/main/java/ch/epfl/bigwww/turboreg2/TurboRegPointHandler.java:464-492 | The starting layout is symmetric about the vertical centre line: the mirror of every landmark is a landmark. |
| PointHandler.Dist2 | src/main/java/ch/epfl/bigwww/turboreg2/TurboRegPointHandler.java:421-423 | The squared distance is never negative. |
| PointHandler.Dist2Symmetric | src/main/java/ch/epfl/bigwww/turboreg2/TurboRegPointHandler.java:421-423 | The squared distance is symmetric. |
| PointHandler.Moved | src/main/java/ch/epfl/bigwww/turboreg2/TurboRegPointHandler.java:414-429 | A move changes at most the current landmark. The number of landmarks is kept. |
| PointHandler.MovedClipped | src/main/java/ch/epfl/bigwww/turboreg2/TurboRegPointHandler.java:419-428 | The current landmark moves to the clipped position or stays. Where it moves to lies inside the image. Except for landmarks 1 and 2 of a rigid body, the move is always made. |
| PointHandler.MovedKeepsSeparated | src/main/java/ch/epfl/bigwww/turboreg2/TurboRegPointHandler.java:421-425 | For a rigid body, a move keeps landmarks 1 and 2 more than 10 pixels apart if they were. |
| PointHandler.MovedIdempotent | src/main/java/ch/epfl/bigwww/turboreg2/TurboRegPointHandler.java:414-429 | Repeating the same move changes nothing more. |
| PointHandler.ColumnNames | src/main/java/ch/epfl/bigwww/turboreg2/TurboRegPointHandler.java:549-575 | The x and y column names of an image differ. |
| PointHandler.Resized | src/main/java/ch/epfl/bigwww/turboreg2/TurboRegPointHandler.java:577 | Setting the row count keeps the first n cells and pads with zero cells. |
| PointHandler.WithRowCount | src/main/java/ch/epfl/bigwww/turboreg2/TurboRegPointHandler.java:577 | After `setRowCount(n)` the table has n rows and the same columns, all of length n. |
| PointHandler.Written | src/main/java/ch/epfl/bigwww/turboreg2/TurboRegPointHandler.java:580-582 | Writing a column keeps its length. |
| PointHandler.WrittenColumns | src/main/java/ch/epfl/bigwww/turboreg2/TurboRegPointHandler.java:578-583 | Writing the coordinate columns keeps the row count and the set of columns. |
| PointHandler.ResultsCells | src/main/java/ch/epfl/bigwww/turboreg2/TurboRegPointHandler.java:573-584 | After `getResults`, the table has `pointCount` rows. Cell i of the x and y columns holds landmark i plus the offset, the remaining cells are as resized, and every other column is only resized. |
| PointHandler.ReadPoints | src/main/java/ch/epfl/bigwww/turboreg2/TurboRegPointHandler.java:549-562 | Reading fails exactly when the row count is not the landmark count or a column is missing. Otherwise coordinate j of landmark i is cell i less offset j, or 0 for an empty cell. |
| PointHandler.ReadResults | src/main/java/ch/epfl/bigwww/turboreg2/TurboRegPointHandler.java:549-584 | Reading back what `getResults` wrote, with the same offset, recovers the landmarks (round trip). |
| PointHandler.ResultsOfRead | src/main/java/ch/epfl/bigwww/turboreg2/TurboRegPointHandler.java:549-584 | Conversely, writing back landmarks read from a table with no empty cell in those columns restores the two columns. |
| PointHandler.Loaded | src/main/java/ch/epfl/bigwww/turboreg2/TurboRegPointHandler.java:529-564 | The table constructor ends with `pointCount` landmarks: those read, or the starting layout. |
| PointHandler.TurboRegPointHandler.ClipBounds | src/main/java/ch/epfl/bigwww/turboreg2/TurboRegPointHandler.java:419-420 | Moves are clipped to the image's bounding box. |
| PointHandler.TurboRegPointHandler.ForInterval | src/main/java/ch/epfl/bigwww/turboreg2/TurboRegPointHandler.java:92-98 | `pointCount` landmarks, all at the origin, with no offset. |
| PointHandler.TurboRegPointHandler.FromPoints | src/main/java/ch/epfl/bigwww/turboreg2/TurboRegPointHandler.java:507-519 | The caller's landmark array is shared, with no image and the given offsets. |
| PointHandler.TurboRegPointHandler.FromTable | src/main/java/ch/epfl/bigwww/turboreg2/TurboRegPointHandler.java:529-564 | The landmarks are those the table gives, less the image offsets. With no table, the wrong row count or a missing column, they are the starting layout. |
| PointHandler.TurboRegPointHandler.ReadColumns | src/main/java/ch/epfl/bigwww/turboreg2/TurboRegPointHandler.java:555-562 | The read loop leaves the landmarks read from the table. |
| PointHandler.TurboRegPointHandler.GetResults | src/main/java/ch/epfl/bigwww/turboreg2/TurboRegPointHandler.java:573-584 | Gives the table with `pointCount` rows and the landmarks plus the offset in this image's columns. |
| PointHandler.TurboRegPointHandler.GetPoint | src/main/java/ch/epfl/bigwww/turboreg2/TurboRegPointHandler.java:377-381 | The current landmark is one of the landmarks. |
| PointHandler.TurboRegPointHandler.MovePoint | src/main/java/ch/epfl/bigwww/turboreg2/TurboRegPointHandler.java:414-429 | The landmarks become the move of the current one to the clipped position, unless a rigid body refuses it. It marks the handler interactive. |
| PointHandler.TurboRegPointHandler.SetCurrentPoint | src/main/java/ch/epfl/bigwww/turboreg2/TurboRegPointHandler.java:435-439 | Sets the current landmark index, unchecked. |
| PointHandler.TurboRegPointHandler.SetPoints | src/main/java/ch/epfl/bigwww/turboreg2/TurboRegPointHandler.java:445-453 | The first `|points|` landmarks take the given values unclipped, and the others stay. The handler is no longer interactive. |
| PointHandler.TurboRegPointHandler.SetTransformation | src/main/java/ch/epfl/bigwww/turboreg2/TurboRegPointHandler.java:460-497 | Fresh landmarks in the starting layout of the model (`pointCount` of them). Landmark 0 becomes current and the handler is interactive. |
| PointHandler.ReadDone | src/main/java/ch/epfl/bigwww/turboreg2/TurboRegPointHandler.java:555-562 | Landmarks that hold each cell less its offset are what reading the table gives. |
| Apply.Zeros | src/main/java/fiji/plugin/turboreg2/TurboRegApply.java:80 | The all-zero plane index. |
| Apply.Next | src/main/java/fiji/plugin/turboreg2/TurboRegApply.java:95-101 | One carry step keeps the number of axes. |
| Apply.NextAt | src/main/java/fiji/plugin/turboreg2/TurboRegApply.java:95-101 | The carry step zeroes the leading digits that reach their extent, increments the first that does not, and leaves the rest. |
| Apply.Rank | src/main/java/fiji/plugin/turboreg2/TurboRegApply.java:91-103 | The position of an in-range plane is below the number of planes. |
| Apply.Unrank | src/main/java/fiji/plugin/turboreg2/TurboRegApply.java:91-103 | The plane at a position has one digit per axis. |
| Apply.UnrankRank | src/main/java/fiji/plugin/turboreg2/TurboRegApply.java:91-103 | Unrank undoes Rank. |
| Apply.RankUnrank | src/main/java/fiji/plugin/turboreg2/TurboRegApply.java:91-103 | Rank undoes Unrank, and Unrank gives in-range planes. |
| Apply.NextRank | src/main/java/fiji/plugin/turboreg2/TurboRegApply.java:95-101 | The carry step keeps a plane in range. It moves it one position on, or back to 0 after the last. |
| Apply.NextRankNoCarry | src/main/java/fiji/plugin/turboreg2/TurboRegApply.java:95-101 | Without a carry the step just increments the position. |
| Apply.NextRankCarry | src/main/java/fiji/plugin/turboreg2/TurboRegApply.java:95-101 | With a carry the step increments the position of the other axes, or wraps to 0. |
| Apply.Odometer | src/main/java/fiji/plugin/turboreg2/TurboRegApply.java:91-103 | The plane after k steps has one digit per axis. |
| Apply.Visited | src/main/java/fiji/plugin/turboreg2/TurboRegApply.java:91-103 | The plane run at iteration i: the state after i + 1 steps. |
| Apply.RankZeros | src/main/java/fiji/plugin/turboreg2/TurboRegApply.java:80 | The all-zero plane is in range and first in the order. |
| Apply.OdometerRank | src/main/java/fiji/plugin/turboreg2/TurboRegApply.java:91-103 | After k steps the odometer is at position k, or back at 0 after all of them. |
| Apply.PositiveExtents | src/main/java/fiji/plugin/turboreg2/TurboRegApply.java:87-90 | A positive plane count means every extent is positive. |
| Apply.OdometerVisitsEachPlaneOnce | src/main/java/fiji/plugin/turboreg2/TurboRegApply.java:87-103 | The `nPlanes` iterations run pairwise distinct planes, all in range, and every in-range plane among them. The last is the all-zero plane. |
| Apply.Increment | src/main/java/fiji/plugin/turboreg2/TurboRegApply.java:95-101 | The in-place carry loop with its early exit leaves the carry step of the old plane. |
| Apply.PlaneCount | src/main/java/fiji/plugin/turboreg2/TurboRegApply.java:87-90 | `nPlanes` is the product of the extents beyond x and y. |
| Apply.AllFramePlanes | src/main/java/fiji/plugin/turboreg2/TurboRegApply.java:86-103 | The all-frames run transforms `nPlanes` planes, in the odometer's order. |
| Apply.Planes | src/main/java/fiji/plugin/turboreg2/TurboRegApply.java:79-117 | With no axes beyond x and y, one empty plane. For all frames, the odometer sequence. Otherwise the current position, once, or once per channel with the channel digit set. |
| Apply.Clamp | src/main/java/fiji/plugin/turboreg2/TurboRegApply.java:213-218 | The written value is within `[min, max]` when `min ≤ max`. It is the value itself inside, `min` below, and `max` above. |
| Apply.ClampIdempotentMonotone | src/main/java/fiji/plugin/turboreg2/TurboRegApply.java:213-218 | Clamping twice is clamping once. Clamping keeps the order of two values. |
| Apply.WriteClamped | src/main/java/fiji/plugin/turboreg2/TurboRegApply.java:213-218 | The copy loop writes every transformed value, clamped to the channel's display range, or to 0 to 255 without a channel, in order. With no channel every written value is in [0, 255]; with a channel whose minimum is at most its maximum, every written value is in that range. |

## Left out

- Floating point. Samples, coefficients, landmarks and bounds are `real`. Float and double rounding, the `(float)` stores, and the overflow of `int` and `long` are not modelled. The golden ratio `0.5(√5−1)` and the pole `√3−2` are decimal constants. The pole is checked against its spline's characteristic polynomial only to within 10⁻⁵⁰.
- Interpolation.SamplesToInterpolationCoefficient1D: models only tolerance 0, which is the only value the code passes. With a positive tolerance the horizon needs `Math.log`, so `Horizon` and the causal initial value take that estimate as a parameter. It also requires at least one sample: with no samples the Java code reads `c[0]` for degrees 3 and 7.
- Image.BasicToCardinal2D: requires degree 3 or 7, the only degrees its callers pass. The 1-D filter with the default one-tap kernel, which writes nothing, is modelled in `Kernels.SymmetricFirMirrorOffBounds1D`.
- Kernels.SymmetricFirMirrorOffBounds1D: with two taps it requires a non-empty line. On an empty line the code reads `c[0]` and fails. The same holds for `Kernels.AntiSymmetricFirMirrorOffBounds1D`, `Kernels.CoefficientToGradient1D` and `Kernels.CoefficientToSamples1D`, which require at least one sample. The caller passes separate line buffers, so `c != s` is required too.
- Image.TurboRegImage.BasicFromImage: `getBasicFromCardinal2D()` is not interruptible. The model states its result unconditionally.
- `setData(ImageDisplay)` of the image is left out. Its ImgLib2 cursors and views, and `getImageDisplayPlane`, belong to outside libraries. `setData` with a buffer is modelled.
- The static `getPyramidDepth(ImageDisplay, ImageDisplay, OverlayService)` reads the sizes from displays and the overlay service. Only its halving loop is modelled (`Interval.PyramidDepth`), on the four sizes.
- Mask.TurboRegMask.SetData: the selection bounds are numbers, and each overlay's region of interest is a predicate on absolute pixel positions. The `IterableRegionOfInterest` and `contains` branches both mark exactly the covered pixels, so they are one case. The row-major raster order is as the code notes.
- Status and progress telemetry are left out: `setStatusService`, `addWorkload`, `workloadStep` and `workloadDone`.
- Concurrency is left out: the thread service, the futures and their joins. Cancellation is an execution context whose flag may turn true at any poll and stays true.
- The plane transform of TurboRegApply (`runPlane`, `RunPlane`) and TurboRegTransform are not part of this model. `Apply.Planes` is the list of planes the run hands to `runPlane`, and `Apply.WriteClamped` is its final copy back.
- Apply.PlaneCount: `nPlanes` is an `int` in the code. Its overflow for stacks of more than 2³¹−1 planes is not modelled.
- The results table is a value: a row count and columns by name, whose cells are numbers or empty. `setRowCount` keeps the first cells and pads with zero cells, as a double column's default. `getResults` returns the new table rather than updating the caller's.
- PointHandler.TurboRegPointHandler.GetResults: requires both coordinate columns, and at most `pointCount` landmarks. The code fails in those cases: it finds no column to write, or writes past the row count.
- PointHandler.TurboRegPointHandler.MovePoint: requires an image (`interval`) of non-negative size, as every image's bounding box has, and, for a rigid body, an existing other landmark. The code dereferences both.
- PointHandler.TurboRegPointHandler.MovePoint: requires `0 <= currentPoint < precisionPoint.length`. `setCurrentPoint` stores any index unchecked, and the code then fails with an `ArrayIndexOutOfBoundsException` when it reads `precisionPoint[currentPoint]`.
- PointHandler.TurboRegPointHandler.SetPoints: requires at most as many given points as landmarks. With more, the code overwrites every landmark row and then fails with an `ArrayIndexOutOfBoundsException`; that partial update is not modelled.
- Apply.Planes: requires a channel axis, when there is one, to be an axis of the display beyond x and y (index 2 or more). With the channel at index 0 or 1 the code writes `plane[channelAxis - 2]` and fails with an `ArrayIndexOutOfBoundsException`.
- PointHandler.TurboRegPointHandler.SetTransformation: requires an image, which the code dereferences.
- Landmarks are `Point` values in one array: each Java `double[2]` row is not a separate object, so aliasing of those rows is not modelled. The constructor from an external array shares the array itself.
- The drawing code, `setSpectrum` and its colours, and the UI-only flag `started` are left out. `interactive` is kept.
- Getters (`getPoints`, `getMask`, `getImage`, `getCoefficient`, `getXGradient`, `getYGradient`, `getPyramid`, `getWidth` and `getHeight`) are field reads of the classes. They are not modelled as separate members.
