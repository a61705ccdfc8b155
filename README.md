# GrdPro core in Dafny

GrdPro reads a DMol3 `density.grd` file and computes density profiles from it. It has three
parts, and this model covers all three:

- The loader, `read_grd`. Line 0 of the file is a category label. Line 2 holds six lattice
  constants `a b c alpha beta gamma`. Line 4 holds seven integers: `step` and the inclusive index
  bounds `i_from i_to j_from j_to k_from k_to`. The lines from 5 up to the second-to-last each
  hold one density value. The loader checks the value count against the bounds.
- The clip engine, `clip`. It reshapes the values into an array `[z, y, x]` and cuts it
  vertically along a segment of the xy plane. The endpoints are scaled onto grid indices and
  snapped to multiples of `step`. Each of the `step_num + 1` samples is the sum over all
  z-layers of one column.
- The stack engine, `stack`. It does the same along the z axis; each sample is the total of a
  whole xy-layer.

Modules:

- `Results` holds `Result`/`Option` and one error constructor per exception the code raises.
- `PyArith` models Python's `//`, `int()` on a real, `range()` and the snapping
  `int(v // step * step)`.
- `PyText` models `str.split`, `strip`, and `int()`/`float()` on decimal tokens.
- `ReadGrd` is the loader.
- `DensityField` models `numpy.reshape`, numpy's integer indexing and the sums.
- `Clip` and `Stack` are the two engines.

Each `while` and `for` statement of the source is a method with loop invariants, proved equal to
a function that specifies it. The list comprehensions are recursive functions (`ReadGrd.ConvertAll`,
`Clip.Columns`, `Stack.Planes`).

- `ReadGrd.RemoveEmpty` is the `while '' in d: d.remove('')` loop.
- `Clip.SampleColumns` and `Stack.SamplePlanes` are the sampling loops.
- `ReadGrd.ReadGrd`, `Clip.ClipGrid` and `Stack.StackGrid` compose these loops.

Every exception becomes an error result, checked in the order the source evaluates:

- a missing line 2 or 4 is `MissingLine` (IndexError);
- a bad token is `BadNumber`, and a wrong field count in the tuple unpacking is `FieldCount`
  (ValueError);
- a zero step, extent or `step_num` is `ZeroDivision`;
- a failed length check is `InvalidGrdLength`;
- a failed reshape is `ReshapeMismatch`;
- a rejected clip endpoint is `FromPointOutOfRange` or `ToPointOutOfRange`, and a rejected stack
  endpoint is `ZFromOutOfRange` or `ZToOutOfRange`;
- a numpy IndexError is `IndexOutOfBounds`;
- stack's `sum(sum(...))` on a layer without rows is `NotIterable` (TypeError).

Where the code and its written description differ, the model follows the code:

- The category is line 0 exactly as read. Nothing is trimmed (`ReadGrd.CategoryIsFirstLine`).
- Only the space character separates header fields. A tab is part of a field
  (`ReadGrd.HeaderTokensOfWord`).
- The length check divides truly, so it accepts value counts that `numpy.reshape` then rejects
  (`DensityField.LengthCheckAdmitsUnreshapable`).
- A clip whose snapped span gives `step_num == 0` raises a division by zero, not a dedicated
  error. This includes equal from and to points (`Clip.EqualPointsDivideByZero`).
- The stack `z_from` check is `z_from < k_from or k_from > k_to`. It never compares `z_from`
  with `k_to`, so a `z_from` above the grid is accepted and gives an empty profile
  (`Stack.ZFromAboveTopAccepted`, `Stack.ZFromAboveTopEmptyProfile`).
- Sample indices are `int(position) // step`: truncation toward zero, then floor division. The
  indices are not offset by `i_from`, `j_from` or `k_from` (`Clip.SampleEnds`,
  `Stack.PlaneIndex`).
- The out-of-range errors name the endpoint but not the axis.

Reals are exact, with no IEEE rounding. `step` may be negative or zero in a file, so every
operation is total: `//` is modelled for either sign of the divisor, and the error paths are
stated in the contracts: the engines' (`Clip.ClipSpec`, `Stack.StackSpec`), their components'
(`DensityField.Reshape`, `Clip.PlanClip`, `Stack.PlanStack`, `Clip.Columns`, `Stack.Planes`) and
the loader lemmas' (`ReadGrd.MissingHeaderLines`, `ReadGrd.FieldCountErrors`, `ReadGrd.LengthCheck`).

## Model

| member | source | states |
|---|---|---|
| PyArith.FloorDiv | clip.py:50 | `a // b` brackets the dividend: `q*b <= a < q*b + b` for `b > 0`, and the mirror image for `b < 0` |
| PyArith.FloorDivIsFloor | clip.py:50 | `a // b` is the floor of the true quotient `a / b`, for either sign of `b` |
| PyArith.FloorDivUnique | clip.py:50 | any `q` that brackets `a` as above is `a // b` |
| PyArith.FloorDivAddMultiple | stack.py:66 | adding `i` whole steps to the dividend adds exactly `i` to `a // b` |
| PyArith.FloorDivOfMultiple | stack.py:61 | `(k*b) // b == k` |
| PyArith.FloorDivMonotone | clip.py:77 | for a positive divisor, `//` never decreases when the dividend grows |
| PyArith.Trunc | clip.py:77 | `int(r)` is the integer part rounded toward zero: within 1 of `r` and on the side of zero |
| PyArith.TruncOfInt | clip.py:77 | `int()` of an integral real is that integer |
| PyArith.TruncMonotone | clip.py:77 | `int()` is monotone |
| PyArith.RangeLen | clip.py:76 | `range(n)` and `range(len)` hold the same integers `k`: `0 <= k < len` exactly when `0 <= k < n` |
| PyArith.Snap | clip.py:61-64 | `int(v // step * step)` is a multiple of `step`, with `m <= v < m + step` for a positive step and the mirror bounds for a negative one |
| PyArith.SnapBounds | clip.py:61-64 | the floor of `v / step` times `step` brackets `v` as above |
| PyArith.SnapOfMultiple | clip.py:61-64 | snapping a multiple of `step` returns it unchanged |
| PyArith.SnapIdempotent | clip.py:61-64 | snapping twice is snapping once |
| PyText.Split | Libs/read_grd.py:11 | `s.split(sep)` has at least one piece and no piece contains `sep` |
| PyText.JoinSplit | Libs/read_grd.py:11 | joining the pieces with `sep` restores the text |
| PyText.SplitJoin | Libs/read_grd.py:15 | splitting a join of separator-free pieces gives back the pieces, empty ones included |
| PyText.SplitWithoutSep | Libs/read_grd.py:15 | a text without `sep` splits into itself alone |
| PyText.SplitAfterPrefix | Libs/read_grd.py:11 | the first piece of `p + sep + rest` is `p`, and the others are the pieces of `rest` |
| PyText.ConcatSplit | Libs/read_grd.py:15 | the pieces laid end to end are the text with every `sep` deleted |
| PyText.Strip | Libs/read_grd.py:21 | `strip()` result is no longer than its input and neither starts nor ends with whitespace |
| PyText.StripPadded | Libs/read_grd.py:21 | `strip()` removes exactly the whitespace around a token whose ends are not whitespace |
| PyText.FormatNat | Libs/read_grd.py:22 | `str(n)` is a non-empty digit string whose decimal value is `n`, with no leading zero unless it is `"0"` |
| PyText.ParseIntFormatInt | Libs/read_grd.py:22 | `int(str(n)) == n`, also with whitespace on either side |
| PyText.SignedDigitsFormatInt | Libs/read_grd.py:22 | the signed digits of `str(n)` read back as `n` |
| PyText.ParseRealOfInt | Libs/read_grd.py:21 | every token `int()` accepts, `float()` accepts with the same value |
| PyText.SignedDigits | Libs/read_grd.py:22 | an accepted token is an optional sign or a digit followed by digits only; a digit string reads as its decimal value; a negative result has a leading `-` |
| PyText.ParseInt | Libs/read_grd.py:22 | `int(tok)` accepts only a stripped token of an optional sign and digits, reads a stripped digit string as its decimal value, and is negative only after a `-` |
| PyText.ParseMantissa | Libs/read_grd.py:21 | a mantissa that `float()` accepts is non-empty and never negative |
| PyText.ParseUnsigned | Libs/read_grd.py:21 | an unsigned float literal that converts is non-empty and never negative |
| PyText.ParseReal | Libs/read_grd.py:21 | `float(tok)` accepts only a non-blank token, and is negative only when the stripped token starts with `-` |
| ReadGrd.Lines | Libs/read_grd.py:11 | `split('\n')` on the text: at least one line, none holding a newline, and joined with newlines they give back the text |
| ReadGrd.NonEmptyAppend | Libs/read_grd.py:16-17 | dropping empty strings distributes over concatenation |
| ReadGrd.NonEmptyOfNoEmpty | Libs/read_grd.py:16-17 | a list without `''` is left as it is |
| ReadGrd.ConcatNonEmpty | Libs/read_grd.py:16-17 | dropping empty strings does not change the concatenation |
| ReadGrd.NonEmptyRemoveAt | Libs/read_grd.py:17 | `d.remove('')` deletes one `''` and keeps the non-empty strings in order |
| ReadGrd.IndexOfEmpty | Libs/read_grd.py:17 | the position `remove('')` deletes holds an empty string, and no earlier position does: it is the first `''` |
| ReadGrd.RemoveEmpty | Libs/read_grd.py:16-17 | the removal loop leaves exactly the non-empty strings, in order |
| ReadGrd.HeaderTokens | Libs/read_grd.py:15-20 | `split(' ')` with the `''` removed: every field is non-empty and space-free, and laid end to end the fields are the line without its spaces |
| ReadGrd.HeaderTokensOfJoin | Libs/read_grd.py:15-20 | words separated by any number of spaces come back as the non-empty words, in order |
| ReadGrd.HeaderTokensOfWord | Libs/read_grd.py:15-20 | a line without a space, tabs included, is a single field |
| ReadGrd.ConvertAll | Libs/read_grd.py:21-23 | a list comprehension of `float()` or `int()`: on success one value per token, each its token's conversion; on failure `BadNumber` names the first token that does not convert, every earlier token converting |
| ReadGrd.ConvertAllOk | Libs/read_grd.py:21-23 | the list converts exactly when every token converts |
| ReadGrd.ParseLattice | Libs/read_grd.py:21 | on success there are six fields, each converting to its lattice constant in order; convertible fields of another count give `FieldCount(2, 6, n)` |
| ReadGrd.ParseStepArgs | Libs/read_grd.py:22 | on success there are seven fields, each converting to step and bounds in order; convertible fields of another count give `FieldCount(4, 7, n)` |
| ReadGrd.ValueLines | Libs/read_grd.py:23 | `data[5:-1]` has `|lines| - 6` entries, entry `k` being line `5 + k`, and is empty for fewer than six lines |
| ReadGrd.AxisFactor | Libs/read_grd.py:25 | the true-division factor `(to - from) / step + 1` is the number `n` of samples with `from + (n - 1) * step == to` |
| ReadGrd.GrdLength | Libs/read_grd.py:25 | when `step` divides every span, the length check's product is the integer product of the per-axis counts |
| ReadGrd.ParseGrd | Libs/read_grd.py:11-28 | a loaded grid has line 0 as category, a nonzero step and a value count equal to the length-check product |
| ReadGrd.ParseLines | Libs/read_grd.py:14-28 | on the split lines: a loaded grid has line 0 as category, a nonzero step and a value count equal to the length-check product |
| ReadGrd.LoadGrd | Libs/read_grd.py:11-28 | a loaded grid comes from a text of at least five lines: line 0 is the category, the fields of line 2 read as the lattice, those of line 4 as step and bounds, the value lines as the values in order; the step is nonzero and the value count passes the length check |
| ReadGrd.ReadGrd | Libs/read_grd.py:11-28 | the loader with its split and removal loops returns exactly `LoadGrd(text)` |
| ReadGrd.CategoryIsFirstLine | Libs/read_grd.py:14 | the category is the first line exactly as written, untrimmed |
| ReadGrd.MissingHeaderLines | Libs/read_grd.py:14-18 | fewer than 3 lines fail on line 2, fewer than 5 on line 4, and a text without a newline fails on line 2 |
| ReadGrd.FieldsInFileOrder | Libs/read_grd.py:14-28 | a loaded grid is built from line 0, line 2 converted, line 4 converted and the body lines converted |
| ReadGrd.FieldCountErrors | Libs/read_grd.py:21-22 | convertible header lines with the wrong number of fields fail with a `FieldCount` naming the line and the count |
| ReadGrd.ValuesAreBodyLines | Libs/read_grd.py:23 | the values are lines 5 up to the second-to-last, one each, in order: `|lines| - 6` of them, none for a five-line file |
| ReadGrd.LengthCheck | Libs/read_grd.py:25-26 | once everything converts, a zero step divides by zero; otherwise loading succeeds exactly when the count equals the product of `(to - from) / step + 1`, and fails with `InvalidGrdLength` when it does not |
| ReadGrd.OtherLinesIgnored | Libs/read_grd.py:11-23 | lines 1 and 3, and the last line of a file of six or more lines, never change the result |
| ReadGrd.ExactFactor | Libs/read_grd.py:25 | a divisible span's factor is the integer count `(to - from) // step + 1` |
| DensityField.AxisCount | clip.py:50 | `(to - from) // step + 1` counts the multiples of `step` in the span, with bounds for either sign of `step` |
| DensityField.ReshapeSize | clip.py:50 | `reshape_size` fails exactly for a zero step, is otherwise the per-axis counts in z, y, x order, and when `step` divides every span its product `nz*ny*nx` is the count the length check demands |
| DensityField.Reshape | clip.py:51 | numpy's rule: with no negative size it succeeds iff the product is the value count; with one it succeeds iff the other sizes have a nonzero product dividing the count, and infers the quotient; with more it fails; the cells are the values in order |
| DensityField.InferredSize | clip.py:51 | the inferred size restores the value count |
| DensityField.LoadedGridNeverInfers | clip.py:50-51 | on a grid that passed the length check, a successful reshape never needed to infer a size |
| DensityField.FactorSign | Libs/read_grd.py:25 | a negative per-axis count has a negative length-check factor, and a positive count a factor of at least 1 |
| DensityField.LoadedGridReshapes | clip.py:50-51 | a grid with a positive step that divides every forward span, and with a value count that passed the length check, always reshapes |
| DensityField.LengthCheckAdmitsUnreshapable | Libs/read_grd.py:25 | with step 2 and x bounds 0..3, five values pass the length check, yet the reshape to (1, 2, 2) fails |
| DensityField.FlatIndexInRange | clip.py:51 | row-major index `(z*ny + y)*nx + x` of a cell inside the shape is below `nz*ny*nx` |
| DensityField.CoordsOfFlatIndex | clip.py:51 | the coordinates recovered from a flat index are the cell's own |
| DensityField.FlatIndexOfCoords | clip.py:51 | every flat position is the index of exactly the cell its coordinates name |
| DensityField.ReshapeCell | clip.py:51 | after a reshape, `array[z, y, x]` is `values[(z*ny + y)*nx + x]` |
| DensityField.NpIndex | clip.py:77 | a numpy index is accepted iff `-n <= i < n`, and then selects the entry congruent to `i` modulo `n` |
| DensityField.SumConcat | clip.py:77 | `sum` of a concatenation is the sum of the sums |
| DensityField.SumPointwise | stack.py:66 | summing pointwise sums of equal-length lists is the sum of their sums |
| DensityField.Column | clip.py:77 | `array[:, y, x]` has one entry per z-layer, entry `z` being the loaded value at the row-major index `(z*ny + y)*nx + x` |
| DensityField.LayerPrefixTotal | stack.py:66 | the column totals of the first `r` rows add up to the sum of those rows' cells |
| DensityField.Layer | stack.py:66 | `array[z, :, :]` flattened is the `ny*nx` loaded values from index `z*ny*nx` on, in order |
| DensityField.PlaneSum | stack.py:66 | `sum(sum(array[z, :, :]))` is the total of every value of layer `z` |
| Clip.Scaled | clip.py:56-59 | `p * 1.0 / extent * (to - from)` is `p` scaled onto the index span: times `extent` it is `p * (to - from)`; 0 maps to 0 and `extent` to `to - from` |
| Clip.Endpoints | clip.py:56-64 | each snapped endpoint index is a multiple of `step` bracketing its scaled coordinate, mirrored for a negative step |
| Clip.StepNum | clip.py:71 | `max(dx, dy) // step` brackets the longer span: `n*step <= m < n*step + step` for a positive step, mirrored for a negative one |
| Clip.PlanVector | clip.py:66-73 | an out-of-range from point fails first, then an out-of-range to point; with both inside, a zero `step_num` divides by zero; a plan keeps the vector and step, and its increments are the spans divided by `step_num` |
| Clip.PlanClip | clip.py:56-73 | a zero `a`, `b` or step divides by zero; otherwise the from point is rejected iff its snapped indices leave the grid, then the to point likewise; a plan keeps the step, each endpoint index is a multiple of `step` bracketing its scaled coordinate (`m <= v < m + step`, mirrored for a negative step), and both endpoints lie in the grid |
| Clip.PlanClipPlanned | clip.py:61-73 | every plan has snapped endpoints, a nonzero `step_num` of its vector, and increments that divide the spans into `step_num` parts |
| Clip.ForwardStepNum | clip.py:71 | for a forward vector `step_num` is positive and `step_num * step` is the longer span |
| Clip.LongerAxisIncrement | clip.py:72-73 | for a forward vector the increment along the longer axis is exactly `step` |
| Clip.StepLengthSquared | clip.py:81 | `x_step ** 2 + y_step ** 2` is never negative and never below the square of either increment |
| Clip.ForwardStepLength | clip.py:71-73 | for a forward vector a step along the cut is at least `step` long: the squared length is at least `step ** 2` |
| Clip.IncrementsWithin | clip.py:77 | `from + inc*i` moves monotonically from `from` to `to` as `i` goes from 0 to `step_num` |
| Clip.AxisSample | clip.py:77 | `int(from + inc*i) // step` brackets the truncated position: `k*step <= t < k*step + step`, mirrored for a negative step |
| Clip.SampleX | clip.py:77 | sample 0's x index is `x_from // step`, and sample `step_num` reads `x_to // step` when `x_step` is the span over `step_num` |
| Clip.SampleY | clip.py:77 | the same for y: `y_from // step` at sample 0, `y_to // step` at sample `step_num` |
| Clip.SnapIndexMonotone | clip.py:77 | `int(r) // step` is monotone in `r` for a positive step |
| Clip.SampleMonotone | clip.py:77 | the sample index along an axis grows with its position |
| Clip.AxisSampleBounds | clip.py:77 | along a forward axis the sample indices are non-decreasing and lie between the endpoints' indices |
| Clip.AxisSampleEnds | clip.py:77 | sample 0 reads the from index floor-divided by `step`, and when the increment is the span over `n`, sample `n` reads the to index likewise |
| Clip.SampleEnds | clip.py:77 | the first sample is at the from point's column and the last at the to point's, as absolute indices divided by `step` |
| Clip.SamplesFollowVector | clip.py:76-77 | with a forward vector both sample indices are non-decreasing in `i` and stay between the endpoints' indices |
| Clip.ColumnAt | clip.py:77 | a sample yields a value iff numpy accepts both its y and x index, and the value is the sum of the column at those wrapped indices |
| Clip.Columns | clip.py:75-77 | the profile succeeds iff every sample's column is inside the array, entry `i` being sample `i`'s column sum; otherwise IndexError |
| Clip.SampleColumns | clip.py:75-77 | the sampling loop returns exactly `Columns` over `range(step_num + 1)` |
| Clip.ClipSpec | clip.py:47-84 | errors come in the source's order: reshape_size's ZeroDivision, then the reshape ValueError, then the plan's error, then IndexError exactly when a sample's column is outside the array; a clip echoes the header, returns the snapped vector, `step_num + 1` and the squared step length of its plan, and `max(0, step_num + 1)` entries |
| Clip.ClipGrid | clip.py:50-84 | the engine with its loop returns exactly `ClipSpec` |
| Clip.ClipFile | clip.py:47-84 | loading then clipping, with the loops, returns exactly `ClipText` |
| Clip.ClipProfileEntries | clip.py:75-77 | in a successful clip entry `i` is the sum of the column at sample `i`'s wrapped y and x indices, and there are `max(0, step_num + 1)` entries |
| Clip.ForwardProfileLength | clip.py:76-82 | with a forward vector the profile has `clip_step_num` entries, at least two |
| Clip.EqualPointsDivideByZero | clip.py:66-72 | equal from and to points always fail, and inside the grid they fail with a division by zero |
| Stack.SnappedZ | stack.py:50-54 | the snapped z index is a multiple of `step` bracketing `v / c * (k_to - k_from)`, mirrored for a negative step |
| Stack.PlanZ | stack.py:56-61 | `z_from` is rejected iff `z_from < k_from or k_from > k_to`, then `z_to` iff outside `[k_from, k_to]`; otherwise the plan keeps both and `step_num` brackets `z_to - z_from` in steps, for either sign of `step` |
| Stack.PlanStack | stack.py:50-61 | a zero `c` or step divides by zero; otherwise `z_from` is rejected iff its snapped index is, then `z_to`; a plan keeps the step, each endpoint index is a multiple of `step` bracketing its scaled coordinate, neither is rejected, and `step_num == (z_to - z_from) // step` |
| Stack.PlaneIndex | stack.py:66 | sample `i` reads layer `z_from // step + i`, so successive samples read successive layers |
| Stack.PlaneAt | stack.py:65-66 | a sample is a plane sum iff numpy accepts its layer index and the layer has rows; IndexError and TypeError otherwise |
| Stack.Planes | stack.py:63-66 | the profile succeeds iff every sample does, entry `i` being sample `i`'s plane sum |
| Stack.PlanesFirstFailure | stack.py:64-66 | the profile fails with the error of its first failing sample |
| Stack.SamplePlanes | stack.py:63-66 | the sampling loop returns exactly `Planes` over `range(step_num + 1)` |
| Stack.StackSpec | stack.py:41-73 | errors come in the source's order: reshape_size's ZeroDivision, then the reshape ValueError, then the plan's error; with a plan it succeeds exactly when every sample's plane does; a stack echoes the header and returns the plan's `z_from`, `z_to`, `step`, `step_num + 1` and `max(0, step_num + 1)` entries |
| Stack.StackGrid | stack.py:44-73 | the engine with its loop returns exactly `StackSpec` |
| Stack.StackFile | stack.py:41-73 | loading then stacking, with the loops, returns exactly `StackText` |
| Stack.PlaneEntry | stack.py:66 | a successful sample is the total of layer `z_from // step + i`, wrapped as numpy wraps |
| Stack.PlanesAreLayerTotals | stack.py:63-66 | every entry of a successful profile is the total of its layer |
| Stack.StackProfileEntries | stack.py:63-73 | in a successful stack entry `i` is the total of layer `z_from // step + i`, and there are `max(0, step_num + 1)` entries |
| Stack.EqualEndpointsOneLayer | stack.py:61-71 | equal snapped endpoints give `clip_step_num` 1 and one entry, the total of that layer |
| Stack.BackwardStackIsEmpty | stack.py:56-66 | an accepted `z_from` above `z_to` (positive step) gives `clip_step_num <= 0` and an empty profile |
| Stack.ZFromAboveTopAccepted | stack.py:56-57 | with `c = 1`, step 1 and z bounds 0..2, a `z_from` of 3.0 maps to index 6, above `k_to`, and is accepted |
| Stack.ZFromAboveTopEmptyProfile | stack.py:56-73 | that grid's stack from 3.0 to 0.5 succeeds with vector (6, 1), `clip_step_num` -4 and no entries |

## Left out

- File access: `os.path.isfile`, `open` and `read` are left out. The loader and both engines take
  the file's text (`ClipFile`, `StackFile`) or the loaded grid (`ClipGrid`, `StackGrid`). The
  missing-file ValueError is not modelled.
- The command-line front ends (`if __name__ == '__main__'` in `clip.py` and `stack.py`) are left
  out: option parsing, output formatting and writing the result file are I/O.
- The `isinstance` checks (clip.py:53-54, stack.py:47-48) are left out. Points are `real` pairs
  and z values are `real`, so the check always passes.
- The `print` of each layer at stack.py:65 is left out; it is output only. Its IndexError is the
  same one the next line raises.
- Clip.ClipSpec: the result keeps `x_step ** 2 + y_step ** 2` instead of
  `math.sqrt(x_step ** 2 + y_step ** 2)`. Reals in Dafny have no square root.
- Floating point is modelled as exact reals. IEEE rounding, overflow, `inf` and `nan` are not
  modelled.
- PyText.ParseReal accepts decimal literals with an optional sign, point and exponent, after
  stripping ASCII whitespace. It does not model `float()`'s `inf`/`nan` spellings, underscores,
  Unicode digits or Unicode whitespace.
- PyText.ParseInt has the same limits for `int()`.
- The angles `alpha`, `beta` and `gamma` are parsed and echoed but never used, as in the source.
- The loader's text is the output of Python's `read()` in text mode, whose universal newlines turn
  `'\r\n'` and a lone `'\r'` into `'\n'`. That translation is not modelled: `ReadGrd.Lines`
  splits at `'\n'` alone and treats `'\r'` as an ordinary character, so a text the model is given
  stands for the translated text, which holds no `'\r'`.
- Clip.StepLengthSquared: states that the squared step length is at least each increment's square,
  not that it is positive whenever an increment is nonzero.
