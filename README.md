# fractal_rs, modelled in Dafny

fractal_rs draws the Mandelbrot set. It renders a view of the complex plane,
a point of interest (origin, pinhole size, iteration limit), into an RGB
image. A render thread receives commands: zoom, change the iteration limit,
nudge or re-centre the origin, jump to a preset. After every frame it scales
the pinhole by a zoom step. The repository also holds a decimal software
float, `SoftFloat`, written for deep zooms. It has normalisation, `+`, `-`,
`*`, ordering, printing and conversion from `f64`.

This project models four things:
- the `SoftFloat` arithmetic on exact integers;
- the three generations of the view-state command machine (the executor's,
  the one before the refactor and the oldest one), together with one pass of
  the render loop;
- the rainbow colour map and the escape-time kernels: the whole-image loop
  and the tile-of-rows loop;
- the builder that sets up a render.

Modules follow the source files:

- `Prelude` (prelude.dfy): u32/i32/u64 ranges, the panic outcome of Rust's checked arithmetic, powers of ten, `Shift(v, e)` = v·10^e
- `SoftFloats` (soft_float.dfy): `remove_trailing_zeros`, `expand_significand_to`, `Add`, `Sub`, `Mul` of src/soft_float.rs
- `SoftFloatText` (soft_float_text.dfy): `Display` and the text half of `From<f64>` of src/soft_float.rs
- `SoftFloatOrder` (soft_float_order.dfy): `partial_cmp` of src/soft_float.rs
- `Fractals` (fractals.dfy): `PoI` (src/fractals.rs) and `Context` (src/fractal_builder.rs)
- `Executor` (executor.dfy): `Command`, `handle_command` and one pass of the Rayon render loop (src/executor.rs)
- `Palette` (palette.dfy): `color_rainbow` (src/before_refactor/fractal.rs, identical in src/fractal.rs)
- `Kernel` (kernel.dfy): the escape-time loop, `mandelbrot` over a whole image, `mandelbrot_raw` over a tile of rows
- `BeforeRefactor` (before_refactor.dfy): the `Fractal` struct of src/before_refactor/fractal.rs
- `OldFractal` (old_fractal.dfy): the `Fractal` struct and its own `Command` of src/fractal.rs
- `FractalBuilder` (fractal_builder.dfy): the builder of src/fractal_builder.rs

Conventions:
- A `SoftFloat` stands for ±significand·10^exponent. `Value` gives that
  number as an exact `real`.
- Integer overflow panics as in a debug build. It is modelled as the `Panic`
  outcome: `Outcome<T> = Ok(value) | Panic`.
- The generic float `F` and `f64` are exact `real`s. Plane arithmetic, the
  escape recurrence and the preset coordinates are therefore idealised. None
  of them is bit-exact.
- Structs the source updates through `&mut self` are classes. Each class
  method is proved against a pure function of the old state:
  `Executor.LiveContext` against `Executor.Handle`/`Executor.Pass`,
  `BeforeRefactor.Fractal` against `Executor.Handle`, and `OldFractal.Fractal`
  against `OldFractal.Handle`.
- A `SoftFloat` is a `Copy` value. Its `&mut self` loops are methods that
  return the new value: `RemoveTrailingZeros` is proved equal to
  `Normalized`, and `Mul` is proved equal to `MulSpec`.
- `From<f64>` is modelled from the point where the float has been printed.
  It takes the sign bit and the text Rust prints for |a|.

Three behaviours of the source that a reader might not expect:
- `LessIterations` in the executor subtracts 200 only from a limit above 200,
  so 300 becomes 100 and 200 stays 200 (src/executor.rs:61-63,
  `Executor.LessIterationsBounds`).
- The oldest variant subtracts `200.max(limit - 200)`. The inner `limit - 200`
  underflows for a limit below 200, and a limit of 400 or more drops to 200
  (src/fractal.rs:38, `OldFractal.LessIterationsRegimes`).
- A pixel (x, y) maps to origin + (x / width − 1/2)·pinhole, and likewise for
  y (src/before_refactor/fractal.rs:174-176). The pixel at integer index
  (img_width / 2, img_height / 2), rounded down, maps to the origin when both
  sizes are even (`Kernel.CentrePixel`). For an odd size it lies half a pixel
  off.

## Model

| member | source | states |
|---|---|---|
| `Prelude.CheckedPow10` | src/soft_float.rs:54 | `10u64.pow(k)` succeeds exactly when k ≤ 19, with the value 10^k |
| `Prelude.Pow10U64Bound` | src/soft_float.rs:285 | 10^k fits a u64 if and only if k ≤ 19 |
| `SoftFloats.Magnitude` | src/soft_float.rs:9-17 | significand·10^exponent is never negative, and is zero exactly when the significand is zero |
| `SoftFloats.Value` | src/soft_float.rs:9-17 | the signed number is zero exactly for a zero significand; otherwise it is positive exactly when the sign flag is set; its absolute value is `Magnitude` |
| `SoftFloats.StripZeros` | src/soft_float.rs:28-31 | the stripping loop as a function: the significand divided by 10^k with the exponent raised by k; the result has no trailing zero and is no larger |
| `SoftFloats.StripBound` | src/soft_float.rs:28-31 | a u64 significand loses at most 19 zeros, so the exponent stays in i32 |
| `SoftFloats.Normalized` | src/soft_float.rs:24-39 | keeps the value; zero becomes +0 with exponent 0; with a negative exponent no trailing zero is left; a non-negative exponent is untouched; the sign of a nonzero value is kept |
| `SoftFloats.NormalizedValue` | src/soft_float.rs:28-31 | stripping k zeros and adding k to the exponent keeps significand·10^exponent |
| `SoftFloats.RemoveTrailingZeros` | src/soft_float.rs:24-39 | the in-place loop returns exactly `Normalized` of the old value |
| `SoftFloats.NormalizedIdempotent` | src/soft_float.rs:24-39 | normalising twice is normalising once |
| `SoftFloats.NormalizedMagnitude` | src/soft_float.rs:24-39 | normalising keeps the magnitude, and the sign of a nonzero value |
| `SoftFloats.Pad` | src/soft_float.rs:54 | `significand *= 10u64.pow(zeros)` panics exactly when the power or the product leaves u64 |
| `SoftFloats.Expand` | src/soft_float.rs:47-59 | panics exactly when a padding overflows; otherwise pads the significand with the smaller abs(exponent) by 10^difference and keeps the other |
| `SoftFloats.ExpandAligns` | src/soft_float.rs:41-59 | for exponents ≤ 0, both padded significands read at the smaller exponent keep their values |
| `SoftFloats.PadAligns` | src/soft_float.rs:51-58 | a significand padded by 10^(e-m) and read at exponent m is the same number |
| `SoftFloats.Add` | src/soft_float.rs:128-164 | every sum that does not panic is normalised, and a zero sum is +0 |
| `SoftFloats.AddAligned` | src/soft_float.rs:147-162 | the same-sign sum is normalised, a zero sum is +0, and a nonzero left operand gives a nonzero sum |
| `SoftFloats.ExpandKeepsNonZero` | src/soft_float.rs:51-58 | padding by a power of ten keeps a nonzero significand nonzero |
| `SoftFloats.Sub` | src/soft_float.rs:166-229 | every difference whose left operand is not −0 is normalised, and such a zero difference is +0 |
| `SoftFloats.SubAligned` | src/soft_float.rs:184-227 | the same-sign difference is normalised, a zero difference is +0, and it is zero exactly when the aligned significands are equal |
| `SoftFloats.AddExact` | src/soft_float.rs:128-164 | for exponents ≤ 0, a sum that does not panic is exactly Value(x) + Value(y), whatever the signs |
| `SoftFloats.AddSameSignExact` | src/soft_float.rs:147-162 | with equal signs, the aligned significands are added at the smaller exponent, exactly |
| `SoftFloats.AlignedSumExact` | src/soft_float.rs:148-160 | the aligned sum of two same-signed values is exact |
| `SoftFloats.SubExact` | src/soft_float.rs:166-229 | for exponents ≤ 0, a difference that does not panic is exactly Value(x) − Value(y), the cross-sign cases going through Add |
| `SoftFloats.SubSameSignExact` | src/soft_float.rs:184-227 | with equal signs, the smaller aligned significand is subtracted from the larger and the sign is chosen as the source does, exactly |
| `SoftFloats.AlignedDifferenceExact` | src/soft_float.rs:187-225 | the aligned difference of two same-signed values is exact |
| `SoftFloats.NormalizedNegated` | src/soft_float.rs:174-175 | flipping the sign of a normalised nonzero value keeps it normalised, as `res.positive = false` needs |
| `SoftFloats.SubNegativeZero` | src/soft_float.rs:170-177 | −0 − (+0) returns −0: the sign is set after the sum has been normalised |
| `SoftFloats.AddExpandOverflow` | src/soft_float.rs:807-818 | in the model, the sum of the operands of fixing_fractal_expand_overflow is `Panic`: padding 5530062307277344492 by 10^2 leaves u64 |
| `SoftFloats.Truncate` | src/soft_float.rs:246-249 | the product divided by the fewest powers of ten that bring it within u64 |
| `SoftFloats.TruncateUnique` | src/soft_float.rs:246-249 | any such pair (quotient, count) is the one `Truncate` gives |
| `SoftFloats.Mul` | src/soft_float.rs:234-266 | the loop returns `MulSpec`: a panic exactly when the exponent leaves i32, else the truncated product at the summed exponent plus the divisions, normalised |
| `SoftFloats.MulSpec` | src/soft_float.rs:234-266 | every product is normalised; a nonzero product is positive exactly when the signs are equal; a zero product is +0 |
| `SoftFloats.MulTruncation` | src/soft_float.rs:243-252 | the product's magnitude is at most the exact one and within one unit of the last kept digit; with no truncation the product is exact |
| `SoftFloats.TruncationBounds` | src/soft_float.rs:246-249 | dropping k low digits of p loses less than one unit at 10^(e+k), and nothing when k = 0 |
| `SoftFloats.ExactProduct` | src/soft_float.rs:243 | the u128 product of the significands at the summed exponent is the product of the magnitudes |
| `SoftFloats.SignedProduct` | src/soft_float.rs:237 | the product of two values is the product of the magnitudes, negated exactly when the signs differ |
| `SoftFloats.MulExample` | src/soft_float.rs:604-609 | 0.00001 × 10000 = 0.1 |
| `SoftFloats.NormalizedTenThousand` | src/soft_float.rs:263 | 10000·10^-5 normalises to 1·10^-1 |
| `SoftFloats.MulOverflowExample` | src/soft_float.rs:797-805 | in the model, squaring −0.7436438870371587 (the operand of fixing_fractal_mul_overflow) drops the 13 low digits of the 32-digit product and gives +5530062307277344492·10^-19 |
| `SoftFloats.StripFraction` | src/soft_float.rs:25-31 | stripping that stops at exponent 0: the value is kept and the exponent stays ≤ 0 |
| `SoftFloats.NormalizedFraction` | src/soft_float.rs:24-39 | the correction of finding 2: the value is kept, an exponent ≤ 0 stays ≤ 0, and zero becomes +0 |
| `SoftFloats.NormalizedFractionValue` | src/soft_float.rs:28-31 | stripping only fractional zeros keeps significand·10^exponent |
| `SoftFloats.AddAlignedFraction` | src/soft_float.rs:147-162 | corrected (finding 2): the same-sign sum over the corrected normalisation panics exactly when the source's does, and for exponents ≤ 0 it is exactly Value(x) + Value(y) with the exponent still ≤ 0 |
| `SoftFloatText.DigitString` | src/soft_float.rs:65 | `u64::to_string`: non-empty decimal digits with no leading zero unless the number is 0 |
| `SoftFloatText.ParseDigitString` | src/soft_float.rs:65 | reading back a printed number gives the number |
| `SoftFloatText.DigitStringParse` | src/soft_float.rs:114 | printing a parsed canonical numeral gives the numeral |
| `SoftFloatText.ParseLeadingZeros` | src/soft_float.rs:114 | leading zeros do not change the parsed value |
| `SoftFloatText.DisplayMagnitude` | src/soft_float.rs:63-81 | the magnitude text starts with a digit and holds a '.' exactly when the exponent is negative; with an exponent ≥ 0 it is exactly the significand's digits, so a positive exponent is not printed |
| `SoftFloatText.Display` | src/soft_float.rs:63-81 | the text is non-empty and starts with '-' exactly when the value is not positive |
| `SoftFloatText.DisplayZeroFraction` | src/soft_float.rs:67-73 | a zero significand with a negative exponent prints "0." and abs(exponent) zeros |
| `SoftFloatText.DisplayLeadingZeros` | src/soft_float.rs:69-73 | with fewer digits than fractional places, the output is "0." and the missing zeros, then the digits |
| `SoftFloatText.DisplayAboveOne` | src/soft_float.rs:74-76 | otherwise a '.' is inserted abs(exponent) digits from the right |
| `SoftFloatText.DisplayBelowOneExample` | src/soft_float.rs:384-393 | 125·10^-7 prints "0.0000125" |
| `SoftFloatText.DisplayWithPointExample` | src/soft_float.rs:396-405 | 6089523·10^-5 prints "60.89523" |
| `SoftFloatText.DisplayNegativeExample` | src/soft_float.rs:408-417 | the negative value prints "-60.89523" |
| `SoftFloatText.Split` | src/soft_float.rs:108 | `str::split` yields at least one piece |
| `SoftFloatText.SplitNone` | src/soft_float.rs:108 | a text without the separator is one piece |
| `SoftFloatText.SplitOnce` | src/soft_float.rs:108 | a text with one separator splits into the two sides |
| `SoftFloatText.FractionExponent` | src/soft_float.rs:109-112 | the exponent is minus the length of the second piece, or 0 without one |
| `SoftFloatText.ParseU64` | src/soft_float.rs:114 | `parse::<u64>` accepts only a non-empty text |
| `SoftFloatText.FromFloatText` | src/soft_float.rs:83-125 | the exponent is never i32::MIN, a text without '.' gives exponent 0, and a clear sign bit gives a positive value |
| `SoftFloatText.SplitWithoutPoint` | src/soft_float.rs:108 | a text without '.' splits into itself alone |
| `SoftFloatText.FromFractionText` | src/soft_float.rs:83-125 | "whole.fraction" gives exponent −len(fraction) and the joined digits as significand; it panics exactly when those leave u64; the sign is negative only for a negative nonzero float |
| `SoftFloatText.FromWholeText` | src/soft_float.rs:83-125 | a text without '.' gives exponent 0 and the number itself |
| `SoftFloatText.FromNegativeZero` | src/soft_float.rs:486-493 | −0.0 and 0.0 both become +0 |
| `SoftFloatText.FromWholeExamples` | src/soft_float.rs:434-441 | 100.0 becomes 100·10^0 |
| `SoftFloatText.FromFractionLeadingZeros` | src/soft_float.rs:514-521 | 0.001 becomes 1·10^-3 |
| `SoftFloatText.FromFractionMixed` | src/soft_float.rs:523-530 | 12.5 becomes 125·10^-1 |
| `SoftFloatText.FromDisplay` | src/soft_float.rs:63-125 | parsing the printed magnitude of any value with exponent ≤ 0 (other than −0) gives the value back |
| `SoftFloatText.FromDisplayBelowOne` | src/soft_float.rs:63-125 | for values below one, the printed "0.00…digits" parses back to the value |
| `SoftFloatText.FromDisplayAboveOne` | src/soft_float.rs:63-125 | for values with an integer part, the printed "whole.fraction" parses back to the value |
| `SoftFloatText.DisplayFromFraction` | src/soft_float.rs:419-426 | Display(From(s)) = s for every canonical decimal text with a fraction, the sign included |
| `SoftFloatText.DisplayFromWhole` | src/soft_float.rs:419-429 | Display(From(s)) = s for every canonical whole number, and −0 prints "0" |
| `SoftFloatText.StripPastPoint` | src/soft_float.rs:28-31 | as written (finding 2): 0.5 + 9.5 is stored as 1·10^1 and prints "1", and adding 0.5 to it gives 0.6 |
| `SoftFloatText.StripFractionExample` | src/soft_float.rs:24-39 | corrected (finding 2): 10.0 keeps its integer zero, as 10·10^0, and prints "10" |
| `SoftFloatText.NormalizedFractionDisplays` | src/soft_float.rs:24-39 | corrected (finding 2): the corrected normalisation keeps the value and the exponent ≤ 0, and its printed text parses back to it |
| `SoftFloatText.FractionSumChain` | src/soft_float.rs:24-39 | corrected (finding 2): (0.5 + 9.5) + 0.5 gives 10·10^0 and then 105·10^-1, which prints "10.5" |
| `SoftFloatOrder.Cmp` | src/soft_float.rs:339 | `Ord::cmp` on integers: Less exactly when a < b, Equal exactly when a = b |
| `SoftFloatOrder.SplitPower` | src/soft_float.rs:285 | `10u64.pow(abs(exponent))` succeeds exactly for abs(exponent) ≤ 19 |
| `SoftFloatOrder.PartialCmp` | src/soft_float.rs:271-376 | never None; with different signs the positive operand is Greater; with equal signs it panics exactly when an exponent is outside −19..19 |
| `SoftFloatOrder.FractionPadFits` | src/soft_float.rs:309-320 | padding the shorter fraction to the longer one's length cannot overflow |
| `SoftFloatOrder.CompareSplit` | src/soft_float.rs:295-366 | the whole parts decide first: a smaller left whole part gives Less, a larger one Greater |
| `SoftFloatOrder.WholePart` | src/soft_float.rs:295-298 | significand div 10^abs(exponent) is the integer part of the magnitude |
| `SoftFloatOrder.PartialCmpWholeSound` | src/soft_float.rs:271-366 | with equal signs, exponents in −19..0 and different whole parts, `partial_cmp` orders the values correctly |
| `SoftFloatOrder.CompareExact` | src/soft_float.rs:271-376 | corrected (finding 1): Less, Equal and Greater exactly when Value(x) <, = and > Value(y) |
| `SoftFloatOrder.PartialCmpMisorders` | src/soft_float.rs:341-349 | as written (finding 1): 1.5 compared with 1.55 is Greater, although 1.5 < 1.55 |
| `SoftFloatOrder.PartialCmpPositiveTests` | src/soft_float.rs:551-555 | the positive-number assertions of comparsion_works |
| `SoftFloatOrder.PartialCmpSignedTests` | src/soft_float.rs:558-565 | the mixed-sign and negative-number assertions |
| `SoftFloatOrder.PartialCmpPaddingTests` | src/soft_float.rs:567-568 | 11.01 > 11.001 and 0.09 > 0.011 |
| `SoftFloatOrder.PartialCmpLongerTests` | src/soft_float.rs:569-571 | 9.1234 > 9.123 and 0.1 > 0.000123 |
| `SoftFloatOrder.PartialCmpEqualFractionRows` | src/soft_float.rs:579-600 | the rows with equal fractions, and 2 < 3 |
| `SoftFloatOrder.PartialCmpSmallerFractionRows` | src/soft_float.rs:586-590 | the rows with a smaller left fraction |
| `SoftFloatOrder.PartialCmpLargerFractionRows` | src/soft_float.rs:593-597 | the rows with a larger left fraction |
| `Executor.Preset` | src/executor.rs:96-136 | presets exist exactly for indices 1 to 9 |
| `Executor.Tune` | src/executor.rs:65-73 | only the origin changes: Up/Down move only origin_y and Left/Right only origin_x, by +tune for Up/Right and −tune for Down/Left |
| `Executor.Recentre` | src/executor.rs:74-87 | only the origin changes; the shift is the click's offset from the image centre scaled by pinhole/size, with y negated |
| `Executor.Zoom` | src/executor.rs:202 | the pinhole is multiplied by the step and nothing else changes; a step of 1 leaves the context unchanged |
| `Executor.Handle` | src/executor.rs:57-143 | panics exactly on MoreIterations past u32::MAX; no command changes the image size |
| `Executor.ZoomChangesOnlyStep` | src/executor.rs:59-60 | ZoomOut adds 0.1 and ZoomIn subtracts 0.1 from the step; nothing else changes |
| `Executor.ZoomRoundTrip` | src/executor.rs:59-60 | ZoomIn undoes ZoomOut and the reverse |
| `Executor.LessIterationsBounds` | src/executor.rs:61-63 | never panics; a limit ≤ 200 is unchanged; a larger one drops by exactly 200; a positive limit stays positive; only the limit changes |
| `Executor.MoreIterationsAdds` | src/executor.rs:64 | below u32::MAX − 200 the limit rises by exactly 200 and nothing else changes |
| `Executor.LessUndoesMore` | src/executor.rs:61-64 | LessIterations undoes MoreIterations for a positive limit; from 0 it leaves 200 |
| `Executor.FineTuneMovesOneCoordinate` | src/executor.rs:65-73 | Up/Down add/subtract 0.15·pinhole to origin_y, Right/Left to origin_x; nothing else changes |
| `Executor.FineTuneRoundTrip` | src/executor.rs:65-73 | Down undoes Up and Left undoes Right |
| `Executor.ChangeOriginCentre` | src/executor.rs:74-87 | a click at the image centre leaves the view unchanged |
| `Executor.ChangeOriginDirection` | src/executor.rs:74-87 | a click right of the centre moves origin_x up; a click below it moves origin_y down, since Y is inverted; only the origin changes |
| `Executor.SetPOIHome` | src/executor.rs:88-95 | SetPOI(0) resets origin (0,0), pinhole 4, step 1, limit 200 and keeps the image size |
| `Executor.SetPOIOnlyOrigin` | src/executor.rs:96-136 | indices 1 to 9 set only the origin, to the preset; other indices change nothing; repeating the command changes nothing |
| `Executor.PresetsInHomeView` | src/executor.rs:96-134 | every preset origin lies inside the home view's square |
| `Executor.GetStateNoOp` | src/executor.rs:138-141 | GetState changes nothing |
| `Executor.HandleKeepsValid` | src/executor.rs:57-143 | a non-empty image stays non-empty after any command |
| `Executor.Pass` | src/executor.rs:171-202 | one loop pass panics exactly when its command does |
| `Executor.PassIdleZooms` | src/executor.rs:202 | a pass without a command multiplies the pinhole by the step and changes nothing else; step 1 is stationary |
| `Executor.PassUsesUpdatedStep` | src/executor.rs:173-202 | the zoom uses the step as the pass's command left it |
| `Executor.PassFrame` | src/executor.rs:171-202 | a pass is the command followed by the zoom |
| `Executor.LiveContext.constructor` | src/executor.rs:162 | the render thread's context starts as the given one |
| `Executor.LiveContext.HandleCommand` | src/executor.rs:57-143 | the in-place update leaves exactly `Handle` of the old context, or on a panic the old context |
| `Executor.LiveContext.RenderPass` | src/executor.rs:171-202 | the in-place pass leaves exactly `Pass` of the old context |
| `Executor.TwoPassExample` | src/executor.rs:171-202 | from the home view, ZoomIn and then an idle pass shrink the pinhole 4 → 3.6 → 3.24 |
| `Palette.Sector` | src/before_refactor/fractal.rs:1052-1054 | the array index (iteration mod 360) div 60 is below 6 |
| `Palette.Rising` | src/before_refactor/fractal.rs:1055-1058 | the rising shade is 0 at the start of a sector |
| `Palette.Falling` | src/before_refactor/fractal.rs:1056-1059 | the falling shade is 255 at the start of a sector |
| `Palette.Hue` | src/before_refactor/fractal.rs:1061-1065 | every escaped colour has a channel at 255 and a channel at 0 |
| `Palette.ColorRainbow` | src/before_refactor/fractal.rs:1046-1069 | black exactly when iteration ≥ limit, otherwise the hue of the iteration |
| `Palette.HuePeriodic` | src/fractal.rs:171-184 | the hue depends only on iteration mod 360 |
| `Palette.ColorRainbowPeriodic` | src/fractal.rs:165-188 | below the limit the colour repeats every 360 iterations |
| `Palette.HueAtMultiple` | src/before_refactor/fractal.rs:1061-1065 | a multiple of 360 is pure red |
| `Palette.HueSectorStarts` | src/before_refactor/fractal.rs:1061-1065 | the six sector starts are red, yellow, green, cyan, blue, magenta |
| `Kernel.Step` | src/before_refactor/fractal.rs:187-197 | one pass of the loop body counts one iteration |
| `Kernel.Run` | src/before_refactor/fractal.rs:186-198 | the loop stops within the limit, at the limit or with sum ≥ 4 |
| `Kernel.Escape` | src/before_refactor/fractal.rs:178-198 | the iteration count never exceeds the limit |
| `Kernel.EscapeTime` | src/before_refactor/fractal.rs:178-198 | the loop returns `Escape`, and a count below the limit means the orbit reached sum ≥ 4 |
| `Kernel.Iterate` | src/before_refactor/fractal.rs:187-197 | the six assignments of the loop body, `iteration += 1` included, take the loop state to its `Step` |
| `Kernel.EscapeOrigin` | src/before_refactor/fractal.rs:186-198 | the origin never escapes: its count is the limit |
| `Kernel.EscapeTwo` | src/before_refactor/fractal.rs:186-198 | the point 2 escapes after one step |
| `Kernel.EscapeStable` | src/before_refactor/fractal.rs:186-198 | a point that escaped keeps its count under any larger limit |
| `Kernel.RunStable` | src/before_refactor/fractal.rs:186-198 | an orbit that stops before a limit runs identically under any larger limit |
| `Kernel.PixelColor` | src/before_refactor/fractal.rs:174-200 | a pixel is black exactly when its point of the plane does not escape within the limit |
| `Kernel.CentrePixel` | src/before_refactor/fractal.rs:174-176 | for even dimensions the centre pixel maps to the origin |
| `Kernel.PixelOrder` | src/before_refactor/fractal.rs:173 | `enumerate_pixels_mut` visits cell y·width + x as column x of row y, once for every pixel |
| `Kernel.Render` | src/before_refactor/fractal.rs:169-202 | every cell k of the buffer gets the colour of pixel (k mod width, k div width) |
| `Kernel.RenderRows` | src/before_refactor/fractal.rs:208-254 | a tile writes only its rows; with rows at least a width apart, cell (row, col) gets the colour of pixel (col, row + id·height) |
| `Kernel.TileRow` | src/before_refactor/fractal.rs:218-252 | one pass of the outer loop adds row pixel_y to the finished rows and writes nothing else |
| `Kernel.RenderRow` | src/before_refactor/fractal.rs:223-252 | the inner loop colours the width cells of row pixel_y and nothing else |
| `Kernel.RowsApart` | src/before_refactor/fractal.rs:250 | with a stride at least the width, every cell of an earlier row comes before a later row |
| `BeforeRefactor.Fractal.constructor` | src/before_refactor/fractal.rs:40-48 | the struct's fields are the given context |
| `BeforeRefactor.Fractal.HandleCommand` | src/before_refactor/fractal.rs:51-131 | the in-place update leaves exactly the executor's `Handle` of the old state, or on a panic the old state |
| `BeforeRefactor.Fractal.Mandelbrot` | src/before_refactor/fractal.rs:169-202 | every cell of the image buffer gets the colour of its pixel of the view |
| `BeforeRefactor.Fractal.MandelbrotRaw` | src/before_refactor/fractal.rs:208-254 | as written (finding 3): writes only its rows, at stride img_height; for images no wider than tall, cell (row, col) gets pixel (col, row + id·height) |
| `BeforeRefactor.RawStrideCollides` | src/before_refactor/fractal.rs:250 | as written (finding 3): in a 3 × 2 image, pixels (2, 0) and (0, 1) of a tile share cell 2 |
| `BeforeRefactor.Fractal.MandelbrotRawByWidth` | src/before_refactor/fractal.rs:208-254 | corrected (finding 3): at stride img_width, cell (row, col) gets pixel (col, row + id·height) for every image shape |
| `BeforeRefactor.ByWidthMatchesImage` | src/executor.rs:193-196 | corrected (finding 3): at stride img_width, the tile's cells are the whole image's cells y·img_width + x, the order the frame is read back in |
| `BeforeRefactor.ByWidthInjective` | src/before_refactor/fractal.rs:250 | corrected (finding 3): at stride img_width, distinct pixels get distinct cells |
| `OldFractal.LimitMinus200` | src/fractal.rs:38 | `limit - 200` succeeds exactly when limit ≥ 200 |
| `OldFractal.Handle` | src/fractal.rs:34-49 | no command changes the image size |
| `OldFractal.LessIterationsRegimes` | src/fractal.rs:38 | panics below 200; subtracts 200 from 200..400; sets 200 from 400 up |
| `OldFractal.MoreIterationsAdds` | src/fractal.rs:39 | adds exactly 200; LessIterations undoes it when the limit was ≤ 200 |
| `OldFractal.ZoomChangesOnlyStep` | src/fractal.rs:36-37 | ±0.1 on the step only, and ZoomIn undoes ZoomOut |
| `OldFractal.ChangeOriginNoInversion` | src/fractal.rs:40-47 | a centre click keeps the origin; clicks below the centre raise origin_y, since there is no Y inversion; only the origin changes |
| `OldFractal.Fractal.constructor` | src/fractal.rs:23-31 | the struct's fields are the given state |
| `OldFractal.Fractal.HandleCommand` | src/fractal.rs:34-49 | the in-place update leaves exactly `Handle` of the old state, or on a panic the old state |
| `OldFractal.Fractal.Mandelbrot` | src/fractal.rs:87-124 | a fresh buffer of img_width·img_height cells, non-empty exactly for a non-empty image, each cell with its pixel's colour |
| `OldFractal.NonEmptyImage` | src/fractal.rs:91 | the buffer has cells exactly when both dimensions are positive |
| `FractalBuilder.Default` | src/fractal_builder.rs:22-40 | a non-empty square image with a positive limit, the Mandelbrot function and the Rayon executor |
| `FractalBuilder.DefaultIsHomeView` | src/fractal_builder.rs:22-40 | the default view is the executor's home view at limit 300 |
| `FractalBuilder.WithMandelbrot` | src/fractal_builder.rs:43-47 | selects Mandelbrot and keeps the context and executor |
| `FractalBuilder.Julia` | src/fractal_builder.rs:49-51 | always panics (`todo!()`) |
| `FractalBuilder.RunOn` | src/fractal_builder.rs:54-61 | succeeds exactly for Rayon, installing it and keeping the rest |
| `FractalBuilder.WithPoi` | src/fractal_builder.rs:63-67 | replaces the point of interest and keeps the size, step, function and executor |
| `FractalBuilder.WithPoiLastWins` | src/fractal_builder.rs:63-67 | setting the point of interest twice keeps the second |
| `FractalBuilder.WithPoiSame` | src/fractal_builder.rs:63-67 | setting the current point of interest changes nothing |
| `FractalBuilder.StepsCommute` | src/fractal_builder.rs:43-67 | the builder steps commute, and a valid context stays valid |
| `FractalBuilder.BuilderChain` | src/fractal_builder.rs:78-91 | the test's chain succeeds with the 608 × 608 default and the given point of interest |

## Left out

- src/quadruple.rs (double-double arithmetic) is not part of this model. It is correct only under exact IEEE-754 rounding, which exact reals do not capture.
- src/fractal_exotic.rs and the rug and SIMD kernels are not modelled. They rely on a bignum library and on CPU intrinsics.
- The thread, channel and rayon plumbing is not modelled: `run_on_*`, `Rayon::execute` beyond one loop pass, spin-waits, `Instant` timing, `println!`, and the image read-back and send. The chunking of the pixel vector among threads is left out with them.
- `Fractal::start` of the builder is not modelled, because it only hands the context to an executor's thread.
- src/opengl.rs, src/pipe.rs and src/main.rs are not modelled. They are UI and plumbing.
- `simple_julia` and `color_gray` are not modelled, because they rely on float rounding and `Complex::norm`.
- `From<f64>`: the `format!("{}", a)` of the float is not modelled. The model starts from the printed text of the absolute value and the float's sign bit.
- `partial_cmp`'s `a_split == 0` branch is not modelled, because `10u64.pow` panics before it could return 0.
- The `f` and `q` shade bytes of `color_rainbow` are modelled as exact rational floors, not as f64 rounding.
- Float arithmetic in the escape recurrence, in `ChangeOrigin`, in `FineTune` and in the zoom is exact `real` arithmetic. Preset coordinates are exact decimals.
- `GetState` prints the context. It is modelled only as changing nothing.
- `Executor.Handle`, `OldFractal.Handle`: `ChangeOrigin` requires a non-empty image, because f64 division by a zero size has no `real` counterpart.
- `Kernel.Render`, `BeforeRefactor.Fractal.Mandelbrot`: these require a non-empty image whenever the buffer is non-empty, for the same reason.
- `Kernel.RenderRows`, `BeforeRefactor.Fractal.MandelbrotRaw`: these require the tile's last cell to lie in the slice and within u32. In Rust a later cell panics on the slice index, or on the u32 index computation in a debug build.
- `BeforeRefactor.Fractal.MandelbrotRaw`: the colours are stated only for images no wider than tall. For wider images rows overlap, and which write survives is not stated; that is finding 3.
- `SoftFloats.AddExact`, `SoftFloats.SubExact`: exactness is stated for exponents ≤ 0, the ones conversion from `f64` produces. For positive exponents `expand_significand_to` pads by the difference of absolute values, and the sum is wrong; see finding 2.
- `SoftFloats.Sub`: its normalisation clauses exclude −0 as the left operand. −0 − (+0) returns −0 (`SoftFloats.SubNegativeZero`). `From<f64>` never produces −0.
- `OldFractal.Fractal.Mandelbrot`: the colours are stated per buffer cell. `Kernel.PixelOrder` gives the cell of pixel (x, y).
- `Executor.HandleKeepsValid`: only non-empty image dimensions are kept as an invariant. The pinhole size and step may become zero or negative, as in the source.

## Findings

| source | as written | input that shows it | evidently intended | confidence | as-written member | corrected member |
|---|---|---|---|---|---|---|
| src/soft_float.rs:341-349 | with equal whole parts and a padded left fraction still smaller, `partial_cmp` orders by the raw exponents | 1.5 (15·10^-1) vs 1.55 (155·10^-2): returns Greater | Less, the order of the values | not executed | `SoftFloatOrder.PartialCmpMisorders` | `SoftFloatOrder.CompareExact` |
| src/soft_float.rs:24-39 | `remove_trailing_zeros` keeps stripping past the decimal point, giving a positive exponent that `expand_significand_to` then mis-aligns | 0.5 + 9.5 is stored as 1·10^1, prints "1", and (0.5 + 9.5) + 0.5 gives 0.6 | strip only fractional zeros; the exponent stays ≤ 0, and (0.5 + 9.5) + 0.5 gives 10.5 (`SoftFloatText.FractionSumChain`) | not executed | `SoftFloatText.StripPastPoint` | `SoftFloats.AddAlignedFraction` |
| src/before_refactor/fractal.rs:250 | `mandelbrot_raw` stores pixel (x, y) at y·img_height + x | a 3 × 2 image: pixels (2, 0) and (0, 1) of a tile both land in cell 2. For an image taller than wide the tile overruns its chunk of `pixels_count / num_threads` cells (src/before_refactor/fractal.rs:851, 888), e.g. 2 × 4 on one thread indexes cell 13 of 8, a slice-index panic | row stride img_width, the layout the frame is read back in (src/before_refactor/fractal.rs:894, src/executor.rs:195) | not executed | `BeforeRefactor.RawStrideCollides` | `BeforeRefactor.ByWidthMatchesImage` |
