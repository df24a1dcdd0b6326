# Optical-flow velocity calculator, modelled in Dafny

`optical_flow.py` defines `OpticalFlowCalculator`. Each frame goes through these steps:

1. The frame is resized and converted to grayscale.
2. OpenCV's Farneback estimator computes a dense flow field between the previous and the current grayscale image.
3. The field is sampled every `move_step` pixels in both directions.
4. The x and y displacements are summed.
5. The sums are divided by a sample count and by a timestep.
6. The result is optionally converted from pixels per second to metres per second, using the camera's perspective angle and the subject's distance.

A second entry point, `processBytes`, accepts raw R-G-B bytes. It first reorders them into a persistent B-G-R staging buffer, a `bytearray`, with three extended-slice assignments.

The model keeps the calculator's own logic and takes everything OpenCV computes as input:

- `flow_types.dfy` (module `FlowTypes`): Python's `None`, the two exceptions the calculator raises itself, flow vectors, the per-frame outcome, and Python truthiness of optional numbers.
- `channel_swap.dfy` (module `ChannelSwap`): the three extended-slice assignments of `processBytes`, on an `array<bv8>`, and the wrapping of the staging buffer as a native-size image.
- `sampling.dfy` (module `Sampling`): the nested stride loops over the flow field, as methods with loop invariants. The loops are proved against `Grid`, the sequence of visited points, and against the sums over it.
- `velocity.dfy` (module `Velocity`): the sample count, `_get_velocity`, `_velocity_meters_per_second` and the timestep rule.
- `optical_flow.dfy` (module `OpticalFlow`): the class itself. Its fields are the staging buffer, the two grayscale buffers whose references swap on every frame that is not cancelled, and `prev_time`.
- `arith.dfy` (module `Arith`): facts about Euclidean division and multiplication shared by the other modules.

Floating-point values are modelled as `real`. Integer division in the source is Python 2 `/` on non-negative integers, so it is floor division, which Dafny's `/` matches for a positive divisor. A division by zero that raises `ZeroDivisionError` in Python is the outcome `Raised(ZeroDivision)`. A length mismatch in an extended-slice assignment raises `ValueError` in Python and is the outcome `Raised(SliceSizeMismatch)`. A display cancel returns `None` in Python and is the outcome `Cancelled`.

Behaviour the model follows from the code:

- An extended-slice assignment `buf[k::3] = vals` on a `bytearray` has three outcomes:
  - an empty `vals` deletes the slice and shortens the buffer;
  - a `vals` of the slice's length overwrites the slice;
  - any other length raises `ValueError` and leaves the buffer as it was.
- Consequences for `processBytes`:
  - Take a buffer whose length is a multiple of 3, as constructed, and a wrongly sized input of three bytes or more. The call raises `ValueError` (`StageChannelsPartialWrite`):
    - one or two bytes longer than the buffer: the input gets past the first assignment, and the assignments before the failing one have already rewritten the buffer;
    - any other wrong length: the input fails at the first assignment, with the buffer untouched (`OtherLengthFailsFirst`).
  - An input of at most two bytes makes `rgb_bytes[2::3]` empty, so the first assignment deletes the blue channel. The staging buffer is left shorter (`ShortInputShrinks`). An empty input raises nothing at all, and one byte into a six-byte buffer raises nothing either (`OneByteIntoSixBytes`). Every later input of the original size then raises `ValueError` (`ShrunkBufferRejects`).
- On a display cancel, the call returns before the buffer swap and before `prev_time` is updated. By then, however, the current grayscale buffer's contents have already been overwritten with this frame.
- The constructor validates nothing. Its preconditions are what the rest of the code needs to run; see "Left out".
- "Caller supplied a timestep" means a truthy timestep: `None` and `0` both fall back to the clock. A stored `prev_time` of `0.0` is falsy too, so the fallback of 1 is used.
- `time.time()` is read and stored as `prev_time` on every call that is not cancelled. The clock difference is used only when the timestep is falsy.
- Both entry points default `timestep` to 1 and `distance` to `None`. The model has no default arguments: a call that omits them is the call with `Some(1.0)` and `None`.
- The sample count is `(h * w) / step²` as written, not the number of visited points. `CountMatchesVisited`, `CountAtMostVisited` and `CountBelowVisited` state how the two relate.
- The grayscale buffers come from `cv.CreateImage`, which does not clear them. The model therefore claims nothing about their contents before the first frame.
- `processBytes` wraps the staging buffer with a row step of three times the native width (`StagedImage`). The source passes three times the scaled width instead; see "Findings". For a scale-down of 1 the two agree. For a scale-down above 1, `ProcessBytes` models the intended call rather than line 97 as written.

## Model

| member | source | states |
|---|---|---|
| `OpticalFlow.OpticalFlowCalculator.constructor` | optical_flow.py:41-81 | scaled width and height are `native / scaledown`; the staging buffer is `native_w * native_h * 3` zero bytes; the two grayscale buffers are distinct and sized to the scaled frame; `prev_time` starts as `None` |
| `OpticalFlow.ScaledSize` | optical_flow.py:69-70 | `int(n / scaledown)` lies between 1 and n when 1 <= scaledown <= n |
| `OpticalFlow.OpticalFlowCalculator.Cancels` | optical_flow.py:130-132 | definition of the cancel test: a window is attached and the key's low byte is ESC (27), stated as the key being 27 plus a multiple of 256; the property that uses it is `ProcessFrame`'s |
| `OpticalFlow.OpticalFlowCalculator.ProcessFrame` | optical_flow.py:101-145 | the current buffer receives this frame's grayscale; on cancel, returns `None` with both buffer references and `prev_time` unchanged; otherwise swaps the two buffer references without copying, so `prev_gray` holds this frame; sets `prev_time` to `now`; returns the normalised velocity of the sums over exactly the grid points, computed with the effective timestep |
| `OpticalFlow.ConsecutiveFrames` | optical_flow.py:135-141 | over two calls that are not cancelled, the second divides by its own truthy timestep, else by the time elapsed since the first call's clock reading, else (that reading being 0) by 1; both buffers are back in their roles, `prev_gray` holding the second frame |
| `OpticalFlow.OpticalFlowCalculator.ProcessBytes` | optical_flow.py:83-99 | the staging buffer ends as the three slice assignments leave it, possibly a new shorter buffer after a deletion; a correctly sized input leaves the channel-swapped input in it; if an assignment raises ValueError, returns that with the grayscale buffers and `prev_time` untouched; otherwise processes the native image over the buffer (native row step, see "Findings") as a frame |
| `ChannelSwap.StageInPlace` | optical_flow.py:93-95 | the run of the three slice assignments on the array yields exactly the staging function's flag and bytes; the buffer afterwards is the same array or, after a deletion, a fresh one |
| `ChannelSwap.AssignSlice` | optical_flow.py:93-95 | one `buf[k::3] = vals` on the array agrees with `SliceAssign`: deletion into a fresh array, overwrite in place, or failure with nothing changed |
| `ChannelSwap.AssignEvery3` | optical_flow.py:93 | an equal-length `buf[k::3] = vals` rewrites exactly the bytes at offsets congruent to k modulo 3 and no others |
| `ChannelSwap.DeleteEvery3` | optical_flow.py:93-95 | `del buf[k::3]` keeps, in order, exactly the bytes at offsets not congruent to k modulo 3 |
| `ChannelSwap.Every3` | optical_flow.py:93-95 | definition of `s[k::3]`: `ceil((len - k) / 3)` elements, element i being `s[k + 3i]`; the property about it is `WithChannelReadBack` |
| `ChannelSwap.WithChannelReadBack` | optical_flow.py:93-95 | after `buf[k::3] = vals` with `vals` of the slice's length, reading `buf[k::3]` gives `vals` back and the other offsets keep their bytes |
| `ChannelSwap.WithoutChannel` | optical_flow.py:93-95 | deleting `buf[k::3]` shortens the buffer by exactly the slice's length |
| `ChannelSwap.SliceAssign` | optical_flow.py:93-95 | the buffer never grows; a non-empty `vals` keeps its length; a failing assignment leaves it unchanged |
| `ChannelSwap.StageChannels` | optical_flow.py:93-95 | the three assignments in order never grow the buffer, and keep its length for an input of at least one pixel |
| `ChannelSwap.SwapPixels` | optical_flow.py:93-95 | byte j of the result is the input byte at the same pixel's mirrored channel |
| `ChannelSwap.SwapPixelsAt` | optical_flow.py:93-95 | for every pixel i, output bytes 3i, 3i+1 and 3i+2 are input bytes 3i+2, 3i+1 and 3i |
| `ChannelSwap.SwapPixelsInvolution` | optical_flow.py:93-95 | swapping channels twice gives back the original bytes |
| `ChannelSwap.StageChannelsSwaps` | optical_flow.py:93-95 | with an input of the buffer's length, a multiple of 3, staging succeeds and the buffer holds the channel-swapped input, whatever it held before |
| `ChannelSwap.StageChannelsSucceedsIff` | optical_flow.py:93-95 | for an input of at least three bytes, staging succeeds if and only if the input length equals the buffer length and is a multiple of 3 |
| `ChannelSwap.StageChannelsPartialWrite` | optical_flow.py:93-95 | for a buffer whose length is a multiple of 3 (as constructed), an input of at least three bytes of another length fails; one 1 byte too long has already written channels 0 and 1; 2 bytes too long, channel 0; any other length, nothing |
| `ChannelSwap.OtherLengthFailsFirst` | optical_flow.py:93 | for a buffer whose length is a multiple of 3, an input of at least three bytes whose length is neither the buffer's nor one or two more fails at the first assignment with the buffer unchanged |
| `ChannelSwap.ShortInputShrinks` | optical_flow.py:93-95 | an input of at most two bytes always leaves a shorter buffer, and an empty one raises nothing |
| `ChannelSwap.OneByteIntoSixBytes` | optical_flow.py:93-95 | one byte into a six-byte buffer succeeds, leaving three bytes whose last is the input byte |
| `ChannelSwap.ShrunkBufferRejects` | optical_flow.py:93-95 | after an input of at most two bytes, an input of the original buffer's size fails |
| `ChannelSwap.StagedImage` | optical_flow.py:97 | with the native row step, the pixel at (row, col) starts at the bytes of the caller's pixel `row * width + col` |
| `ChannelSwap.StagedImagePixels` | optical_flow.py:97 | in the image over the staged buffer (native row step), pixel (row, col) is the caller's pixel `row * width + col` with its channels reversed |
| `ChannelSwap.StagedImageAsWritten` | optical_flow.py:97 | with the scaled width's row step, the pixel at (row, col) starts at the bytes of the caller's pixel `row * scaledWidth + col` |
| `ChannelSwap.AsWrittenRowStepMisplacesRows` | optical_flow.py:97 | with the row step taken from the scaled width, a 4 x 2 image at scale-down 2 shows at (1, 0) the caller's pixel (0, 2) rather than (1, 0) |
| `Sampling.SumFlow` | optical_flow.py:117-125 | the nested loops return the sums of the two flow components over `Grid(h, w, step)`, the sequence of points they visit |
| `Sampling.SumRow` | optical_flow.py:121-125 | the inner loop on row y adds to the running sums exactly the components at (y, 0), (y, step), ... below the width |
| `Sampling.SumConcat` | optical_flow.py:123-125 | the sum over a concatenation of points is the sum of the two parts, so adding row by row gives the sum over the whole grid |
| `Sampling.Grid` | optical_flow.py:119-121 | every visited point lies inside the flow field |
| `Sampling.GridMembers` | optical_flow.py:119-121 | a point is visited if and only if both coordinates are multiples of `move_step`, x < width and y < height |
| `Sampling.GridRowMajor` | optical_flow.py:119-121 | the visited points are in strictly increasing row-major order, so none is visited twice |
| `Sampling.GridSize` | optical_flow.py:119-121 | `ceil(h / step) * ceil(w / step)` points are visited |
| `Sampling.SumOfConstantField` | optical_flow.py:123-125 | over a constant field, each sum is the number of points times that component |
| `Velocity.SampleCount` | optical_flow.py:149 | the count is the number of whole `step x step` cells that fit in the `h * w` pixels: count * step² <= h * w < (count + 1) * step² |
| `Velocity.CountMatchesVisited` | optical_flow.py:149 | when both dimensions are multiples of the step, `(h * w) / step²` equals the number of visited points |
| `Velocity.CountAtMostVisited` | optical_flow.py:149 | the count never exceeds the number of visited points |
| `Velocity.CountBelowVisited` | optical_flow.py:149 | for 3 x 3 with step 2, the count is 2 while 4 points are visited |
| `Velocity.CountZeroBelowOneCell` | optical_flow.py:149 | the count is 0 when h * w < step² |
| `Velocity.Converts` | optical_flow.py:154 | definition of the conversion test `perspective_angle and distance_meters` under Python truthiness; the property that uses it is `AxisVelocity`'s |
| `Velocity.MetresPerSecond` | optical_flow.py:157-163 | succeeds if and only if tan(angle/2), the distance and `dim / 2` are all non-zero; the result times the pixels per metre gives back the pixel velocity |
| `Velocity.AxisVelocity` | optical_flow.py:147-155 | raises exactly when the count or the timestep is zero, or when converting with a zero divisor; without conversion, result * count * timestep = sum; with conversion, result * pixels-per-metre * count * timestep = sum |
| `Velocity.FrameVelocity` | optical_flow.py:144-145 | a velocity pair is returned exactly when neither axis raises; x is normalised and converted over the width and y over the height; conversion happens only when angle and distance are both non-zero |
| `Velocity.ConstantFieldVelocity` | optical_flow.py:117-155 | a field constant at c, with both dimensions multiples of the step, yields `(c.dx / dt, c.dy / dt)` in pixel units |
| `Velocity.SmallFieldRaises` | optical_flow.py:149-151 | a field with fewer pixels than step² raises ZeroDivisionError whatever the sums |
| `Velocity.EffectiveTimestep` | optical_flow.py:137-140 | the timestep divided by is zero exactly when no truthy timestep is given, a truthy previous time is stored, and `now` equals it |

## Findings

| source | as written | input that shows it | evidently intended | confidence | as-written member | corrected member |
|---|---|---|---|---|---|---|
| optical_flow.py:97 | the native-size image over the staging buffer is given a row step of three times the scaled-down `frame_width` | native 4 x 2, scale-down 2: if OpenCV accepts the shorter step, row 1, column 0 of the image reads the caller's pixel at row 0, column 2 (if it rejects it, the call fails instead) | row step of three times the native width, so each image row is one row of the caller's pixels | high by reading; not executed | `ChannelSwap.StagedImageAsWritten`, shown by `ChannelSwap.AsWrittenRowStepMisplacesRows` | `ChannelSwap.StagedImage`, proved by `ChannelSwap.StagedImagePixels`; `ProcessBytes` uses it |

## Left out

- OpenCV computations are caller-supplied inputs:
  - `cv.Resize` and `cv.CvtColor` (optical_flow.py:111-113) together are the function parameter `toGray`.
  - `cv.CalcOpticalFlowFarneback` (optical_flow.py:115) is the `field` parameter. The model does not tie the field to the grayscale buffers it was computed from.
- Allocation: `cv.CreateImage` (optical_flow.py:67-77) becomes plain array allocation. The scaled colour image `frame2`, the native image `image` and the flow image `flow` are not fields, because only OpenCV writes them.
- `cv.SetData` (optical_flow.py:97) shares the staging buffer with the image. The model passes the image a copy of the buffer's bytes; nothing writes the buffer between the two.
- What OpenCV does with an image header over a staging buffer shorter than the header's size is not modelled; `toGray` receives such an image as it is.
- Whether OpenCV rejects the row step of line 97 for a scale-down above 1 is not modelled; see "Findings".
- ChannelSwap.DeleteEvery3: a deleted slice shortens the same `bytearray` object in CPython; the model returns a new, shorter array that `ProcessBytes` stores in `bgrbytes`. The contents and the length are modelled; the identity of the buffer object is not.
- A `BufferError` that CPython raises when a `bytearray` with live buffer exports is resized is not modelled.
- Drawing and display are not modelled: `cv.NamedWindow`, `cv.Line`, `cv.Circle`, `cv.ShowImage` and the flow colour `mv_color_bgr` (optical_flow.py:55, 62, 127-131). The window name counts only as "a window is attached" (`windowed`). The result of `cv.WaitKey(1)` is the parameter `key`.
- `time.time()` (optical_flow.py:138) is the parameter `now`.
- `math.tan(perspective_angle / 2)` (optical_flow.py:159) is the constructor parameter `tanHalfAngle`. The model has no trigonometry.
- Floating point is modelled as exact real arithmetic. This covers the 32-bit flow components, the rounding of the sums and divisions, and infinities and NaN.
- OpticalFlowCalculator.constructor requires 1 <= scaledown <= native width and height, and move_step >= 1. The source checks none of these:
  - scaledown 0 raises ZeroDivisionError;
  - the source does not guard against a scaled size of 0, and what `cv.CreateImage` then does is not modelled;
  - move_step 0 makes `range` raise ValueError;
  - a negative move_step makes the sampling loops empty.
- A non-integer scaledown, for which `int(...)` truncates a float quotient, is not modelled.
- The command-line program (optical_flow.py:165-208) is not modelled: option parsing, video capture, the frame loop and the timing printout.
