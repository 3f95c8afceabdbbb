# magnus_pixbuf_proc curves, in Dafny

A model of the pixel-processing core of `magnus_pixbuf_proc`. That is the C
extension which `magnus` calls on a Gdk pixbuf buffer to apply a GIMP-like
"Colors → Curves" adjustment in place. The model has three modules:

- `Interpolation` (`interpolation.dfy`): piecewise-linear curves through control
  points. This is the reference definition. It proves, for any list of
  strictly increasing control points with non-decreasing values, that the
  curve stays in range, is non-decreasing, passes through every control point,
  and has segments that join.
- `ToneCurves` (`tone_curves.dfy`): the two hard-coded curves,
  `curve1_chan_value_map` (breakpoint (170,20)) and `curve2_chan_value_map`
  (breakpoints (120,20) and (170,220)). Each is written as the C code's
  arithmetic, over exact reals, and is proved equal, at every real x, to the
  interpolation through its control points. `MapByte` is one channel sample
  through a curve. The C code assigns the `double` result to `unsigned char`,
  which truncates, so `MapByte` takes the floor.
- `PixbufProc` (`pixbuf_proc.dfy`): the body of `mpp_curves`. The selector is
  reduced modulo 3: 0 is a no-op with no writes, 1 picks curve 1, 2 picks
  curve 2. Otherwise a single left-to-right loop rewrites bytes `p`, `p+1` and
  `p+2` and steps `p` by 3 while `p` is below the length.
  - `MapBuffer` is the reference pass, one pixel group at a time.
  - `Curves` is the loop on a value copy. It also returns the indices it
    stores to, in order.
  - `MapInPlace` is the same loop on a mutable `array<byte>`, and
    `CurvesInPlace` is the whole call around it.
  - Width and height are taken and ignored, as in the C code.

Facts about the C code that the model keeps:
- Every selector is reduced `% 3`, so none is rejected.
- There are two curves.
- The `double` to `unsigned char` conversion truncates.
- A selector that is 0 mod 3 returns before the loop, whatever the buffer
  length.
- For the other selectors, a length not divisible by 3 makes the loop write
  past the end. The model therefore requires
  `selector % 3 == 0 || |buf| % 3 == 0`.

The curves are modelled over exact reals. The bit-level IEEE-754 `double`
result of the C arithmetic is not verified.

## Model

| member | source | states |
|---|---|---|
| Interpolation.Interpolate | magnus_pixbuf_proc.c:23 | the y-min + x-fraction * y-range mapping through a list of control points: below the first breakpoint it is the first segment, and from the last breakpoint on it is the last segment |
| Interpolation.InterpolateRange | magnus_pixbuf_proc.c:23 | the y-min + x-fraction * y-range mapping through rising control points stays between the first and last y on [first x, last x] |
| Interpolation.InterpolateMonotone | magnus_pixbuf_proc.c:23 | that mapping is non-decreasing on its whole domain, across segment boundaries |
| Interpolation.InterpolateAtControlPoint | magnus_pixbuf_proc.c:23 | that mapping passes exactly through every control point |
| Interpolation.InterpolateContinuous | magnus_pixbuf_proc.c:23 | at each inner control point, the segment ending there reaches the value the next segment starts with |
| Interpolation.InterpolateSlope | magnus_pixbuf_proc.c:23 | if no chord between control points rises faster than k per unit, the mapping never rises faster than k per unit, across breakpoints too |
| Interpolation.LerpRange | magnus_pixbuf_proc.c:23 | one segment y-min + x-fraction * y-range stays within [y-min, y-max] on its interval |
| ToneCurves.Curve1 | magnus_pixbuf_proc.c:33-37 | `curve1_chan_value_map` over reals: the output is below 20 exactly when the input is below the breakpoint 170, and [0,255] maps into [0,255] |
| ToneCurves.Curve2 | magnus_pixbuf_proc.c:46-52 | `curve2_chan_value_map` over reals: the output is below 20 exactly when the input is below 120, below 220 exactly when the input is below 170, and [0,255] maps into [0,255] |
| ToneCurves.Curve1IsInterpolation | magnus_pixbuf_proc.c:33-37 | curve 1 as coded equals, at every real x, the interpolation through (0,0), (170,20), (255,255) |
| ToneCurves.Curve2IsInterpolation | magnus_pixbuf_proc.c:46-52 | curve 2 as coded equals, at every real x, the interpolation through (0,0), (120,20), (170,220), (255,255) |
| ToneCurves.Curve1Range | magnus_pixbuf_proc.c:33-37 | curve 1 maps [0,255] into [0,255] |
| ToneCurves.Curve1Monotone | magnus_pixbuf_proc.c:33-37 | curve 1 is non-decreasing on [0,255] |
| ToneCurves.Curve1ControlPoints | magnus_pixbuf_proc.c:33-37 | curve 1 gives 0 at 0, 20 at 170 and 255 at 255 |
| ToneCurves.Curve1Continuous | magnus_pixbuf_proc.c:33-37 | curve 1 has no jump on [0,255], the breakpoint at 170 included: 0 <= Curve1(x2) - Curve1(x1) <= 47/17 * (x2 - x1) for x1 <= x2 |
| ToneCurves.Curve2Range | magnus_pixbuf_proc.c:46-52 | curve 2 maps [0,255] into [0,255] |
| ToneCurves.Curve2Monotone | magnus_pixbuf_proc.c:46-52 | curve 2 is non-decreasing on [0,255] across all three segments |
| ToneCurves.Curve2ControlPoints | magnus_pixbuf_proc.c:46-52 | curve 2 gives 0 at 0, 20 at 120, 220 at 170 and 255 at 255 |
| ToneCurves.Curve2Continuous | magnus_pixbuf_proc.c:46-52 | curve 2 has no jump on [0,255], at 120 and 170 included: 0 <= Curve2(x2) - Curve2(x1) <= 4 * (x2 - x1) for x1 <= x2 |
| ToneCurves.MapByte | magnus_pixbuf_proc.c:70-72 | the stored byte is the whole part of the selected curve's value at the old byte: r <= curve(b) < r + 1, which always fits in a byte |
| ToneCurves.MapByteIsInterpolation | magnus_pixbuf_proc.c:70-72 | the stored byte is the truncation of the control-point curve at the old byte |
| ToneCurves.MapByteMonotone | magnus_pixbuf_proc.c:70-72 | after truncation to a byte each curve is still non-decreasing |
| ToneCurves.MapByteControlPoints | magnus_pixbuf_proc.c:70-72 | at the integral control points, truncation loses nothing |
| ToneCurves.MapByteNotIdempotent | magnus_pixbuf_proc.c:70 | applying curve 1 twice differs from applying it once (170 goes to 20, then to 2) |
| PixbufProc.Select | magnus_pixbuf_proc.c:61-65 | every selector resolves: `% 3` of 0 is the no-op, 1 is curve 1, 2 is curve 2, each if and only if |
| PixbufProc.SelectPeriodic | magnus_pixbuf_proc.c:61-65 | selectors three apart resolve alike (3 acts as 0, 4 as 1) |
| PixbufProc.MapBuffer | magnus_pixbuf_proc.c:67-74 | the group-of-three pass keeps the length and maps each byte from the original byte at the same index |
| PixbufProc.MapBufferUnique | magnus_pixbuf_proc.c:67-74 | any buffer that holds the mapped byte at every index is exactly the group-of-three pass |
| PixbufProc.MapBufferAppend | magnus_pixbuf_proc.c:69-74 | pixel groups are processed independently: the pass distributes over concatenation at a pixel boundary |
| PixbufProc.Transform | magnus_pixbuf_proc.c:57-74 | the effect of the call on the buffer: same length; unchanged for a selector that is 0 mod 3, at any length; otherwise every byte is the selected curve applied to the original byte at the same index |
| PixbufProc.TransformNoOp | magnus_pixbuf_proc.c:61-62 | a selector that is 0 modulo 3 leaves a buffer of any length byte-for-byte unchanged |
| PixbufProc.TransformNoOpPartialPixel | magnus_pixbuf_proc.c:61-62 | selector 3 leaves the 4-byte buffer (10,20,30,40) unchanged |
| PixbufProc.TransformLocal | magnus_pixbuf_proc.c:69-74 | each output byte depends only on the original byte at the same index |
| PixbufProc.TransformMonotone | magnus_pixbuf_proc.c:69-74 | the call keeps the order of any two channel values of the buffer |
| PixbufProc.TransformLightBreakpoint | magnus_pixbuf_proc.c:69-74 | with selector 1 the pixel (170,170,170) becomes (20,20,20) |
| PixbufProc.TransformMidControlPoints | magnus_pixbuf_proc.c:69-74 | with selector 2 the pixel (0,255,120) becomes (0,255,20) |
| PixbufProc.Curves | magnus_pixbuf_proc.c:57-74 | a no-op selector returns at any length with no writes; otherwise the stride-3 loop stays in bounds when the length is a multiple of 3; it stores to every index exactly once, in order 0, 1, ..., n-1 (none for a no-op selector); its result is the reference pass; width and height do not affect it |
| PixbufProc.MapInPlace | magnus_pixbuf_proc.c:67-74 | the stride-3 loop on the caller's array, for whole pixels, leaves exactly the reference pass of the original bytes and writes nothing else |
| PixbufProc.CurvesInPlace | magnus_pixbuf_proc.c:57-74 | the whole call on the caller's array: a no-op selector at any length leaves it untouched; otherwise it ends as the reference pass of the original bytes |

## Left out

- Python C-API glue: argument parsing, `Py_buffer` acquire and release, returning `None`, the method table, module definition, `PyInit_magnus_pixbuf_proc` and the `error` object (magnus_pixbuf_proc.c:58, 76-108). This is host binding, not logic.
- IEEE-754 rounding of the `double` arithmetic (magnus_pixbuf_proc.c:35-36, 49-51): the curves are exact reals plus floor. At byte inputs the exact values are 2x/17 and 20+47(x-170)/17 for curve 1, and x/6, 20+4(x-120) and 220+7(x-170)/17 for curve 2. Each is either an integer or at least 1/17 away from one. Where the exact value is an integer, the `double` result may land just below it and truncate one lower. That can happen, for instance, on curve 2's 120..169 segment and at multiples of 17 or 6. This is not modelled.
- A selector that is not 0 mod 3 with a buffer length that is not a multiple of 3 (magnus_pixbuf_proc.c:69-73): there the C loop writes past the buffer end, which is undefined behaviour. `Curves`, `CurvesInPlace` and `Transform` require `selector % 3 == 0 || |buf| % 3 == 0` instead. `MapBuffer`, the pass over whole pixels, requires `|buf| % 3 == 0`.
- The conversion of a Python integer to the `unsigned int` selector, which wraps modulo 2^32, happens in the argument parser and is not modelled. The selector is a `u32` here.
- Concurrency and buffer aliasing: the call is synchronous and the caller owns the buffer.
