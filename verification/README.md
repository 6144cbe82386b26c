# Signing on the web: a Dafny model of the signature pad

This project models the signature pad of `signing-on-the-web.js` (`gfx.Draw`
and `gfx.Filter`) in Dafny and proves properties of the model.

- **`gfx.Draw`** records pointer gestures as strokes of weighted points.
  - With the plain pen, every move draws a straight segment of fixed thickness.
  - With the "awesome pen", the width of each segment comes from a table indexed
    by the pointer's travel distance. When a gesture ends, the canvas is wiped
    and every stroke of three or more points is redrawn as a chain of quadratic
    curves through the midpoints of consecutive points; shorter strokes are not
    redrawn, so they are wiped. Each curve is cut into pieces whose widths step
    linearly from one point's weight to the next.
- **`gfx.Filter`** holds four per-pixel filters over RGBA image data.

The model treats the 2D canvas as a sink of commands and treats the pad's
handlers as pure functions from a state to a next state plus the commands they
issued.

| file | module | models |
|---|---|---|
| `wrappers.dfy` | `Wrappers` | `Option` and `Result` |
| `curve_slicer.dfy` | `CurveSlicer` | `curveSlice`, `curveSliceUpTo`, `curveSliceFrom`, and the curve's point at a parameter (`At`, the reference the slices are proved against) |
| `stroke_width.dfy` | `StrokeWidth` | the 26-entry `strokes` table, `strokeThicknessMultiplier` and `calcStrokeWidth` |
| `canvas.dfy` | `Canvas` | the drawing commands, and a replay that recovers the curves a command trace draws |
| `stroke_renderer.dfy` | `StrokeRenderer` | `drawDividedSmoothPath` |
| `smooth_path.dfy` | `SmoothPath` | `drawSmoothPath` |
| `signature_pad.dfy` | `SignaturePad` | `initialize`, `eventStart`, `eventMove`, `drawPoint`, `eventStop`, `clear` and `toggleAwesomePen` |
| `image_filters.dfy` | `ImageFilters` | `desaturate`, `multiply`, `brightness` and `extract` |

Weights, distances and channel values are `real`. Pointer positions arrive as `int` (the handlers floor them) and are stored as `real`.

The pad's `curves` and `points` alias each other: the current stroke is the
last element of `curves`. The model stores the earlier strokes (`done`) and the
current stroke (`points`, an `Option`) separately, and derives `curves()` from
them. This makes growing the current stroke grow the last stroke, as in the
source. It also makes `clear` drop the current stroke. In the source, a move
that arrives after `clear` but before the pointer is released first strokes its
segment and records its position, then pushes onto a null `points` and throws.
The model returns a `Failure` for that move, and the failure carries the
commands and the state the handler had produced before it threw. A throwing
handler does not stop the browser from dispatching later moves, so a run of
moves (`Moves`) goes on after a failure and collects the errors thrown.

## Model

| member | source | states |
|---|---|---|
| `CurveSlicer.SliceUpTo` | 01_SigningOnTheWeb/src/js/signing-on-the-web.js:276-285 | the slice keeps the curve's start; at `t == 1` the curve is unchanged |
| `CurveSlicer.SliceFrom` | 01_SigningOnTheWeb/src/js/signing-on-the-web.js:287-296 | the slice keeps the curve's end; at `t == 1` the curve is unchanged |
| `CurveSlicer.UpToEnds` | 01_SigningOnTheWeb/src/js/signing-on-the-web.js:276-285 | the slice up to `t` ends on the curve at `t`, for every `t` including 1 |
| `CurveSlicer.FromEnds` | 01_SigningOnTheWeb/src/js/signing-on-the-web.js:287-296 | for `t != 1`, the slice from `t` starts on the curve at `t` |
| `CurveSlicer.FromOneKeepsWholeCurve` | 01_SigningOnTheWeb/src/js/signing-on-the-web.js:288 | at `t == 1` the `t != 1` guard keeps the whole curve, so the slice does not start at the curve's end (for a curve with distinct ends) |
| `CurveSlicer.UpToReparam` | 01_SigningOnTheWeb/src/js/signing-on-the-web.js:276-285 | the slice up to `t`, traced at `u`, is the original curve at `t * u` (it is the same curve, reparametrised) |
| `CurveSlicer.FromReparam` | 01_SigningOnTheWeb/src/js/signing-on-the-web.js:287-296 | for `t != 1`, the slice from `t`, traced at `u`, is the original curve at `t + (1 - t) * u` |
| `CurveSlicer.Slice` | 01_SigningOnTheWeb/src/js/signing-on-the-web.js:265-274 | a slice from 0 keeps the start; a slice to 1 keeps the end; the slice from 0 to 1 is the whole curve |
| `CurveSlicer.SliceReparam` | 01_SigningOnTheWeb/src/js/signing-on-the-web.js:265-274 | the slice between `t1` and `t2`, traced at `u`, is the original curve at `t1 + (t2 - t1) * u`, through all three branches, including the composition of up-to and from at `t1 / t2` |
| `CurveSlicer.SliceEnds` | 01_SigningOnTheWeb/src/js/signing-on-the-web.js:265-274 | for `0 <= t1 < t2`, the slice starts on the curve at `t1` and stops on it at `t2` |
| `StrokeWidth.Scan` | 01_SigningOnTheWeb/src/js/signing-on-the-web.js:314-318 | the loop's result is the width of the last covering entry at or after `i` when there is one, and otherwise the width chosen before `i` |
| `StrokeWidth.CalcStrokeWidth` | 01_SigningOnTheWeb/src/js/signing-on-the-web.js:312-320 | the width is the multiplier times the width of the last entry whose tolerance covers the distance, or times 3 when none does |
| `StrokeWidth.ScanPicksLastMatch` | 01_SigningOnTheWeb/src/js/signing-on-the-web.js:314-318 | whenever entry `j` is the last covering entry, the loop returns exactly its width |
| `StrokeWidth.LastMatchExists` | 01_SigningOnTheWeb/src/js/signing-on-the-web.js:314-318 | once any entry covers the distance, there is a last covering entry at or after it |
| `StrokeWidth.ShippedTableShape` | 01_SigningOnTheWeb/src/js/signing-on-the-web.js:101-128 | the shipped table has 26 entries, tolerances strictly descending and widths strictly ascending |
| `StrokeWidth.ShippedWidths` | 01_SigningOnTheWeb/src/js/signing-on-the-web.js:101-128 | every shipped width lies between 0.81 and 4.7 |
| `StrokeWidth.SmallestCoveringTolWins` | 01_SigningOnTheWeb/src/js/signing-on-the-web.js:312-320 | on a table with descending tolerances, the chosen entry is the covering entry with the smallest tolerance |
| `StrokeWidth.BeyondCoarsestIsDefault` | 01_SigningOnTheWeb/src/js/signing-on-the-web.js:312-320 | a distance above 0.350 gets the default 3 × 1.35 |
| `StrokeWidth.WidthNonIncreasing` | 01_SigningOnTheWeb/src/js/signing-on-the-web.js:312-320 | on a table with ascending widths, a larger distance within the first tolerance never gets a wider line |
| `StrokeWidth.PadWidthNonIncreasing` | 01_SigningOnTheWeb/src/js/signing-on-the-web.js:312-320 | the pad's own width never grows with the distance, up to 0.350 |
| `StrokeWidth.PadWidthRange` | 01_SigningOnTheWeb/src/js/signing-on-the-web.js:312-320 | every width the pad computes lies between 0.81 × 1.35 and 4.7 × 1.35 |
| `StrokeWidth.ScanWithin` | 01_SigningOnTheWeb/src/js/signing-on-the-web.js:313-318 | when the starting width and every table width lie within bounds, so does the loop's result |
| `StrokeWidth.WidthJumpsPastCoarsest` | 01_SigningOnTheWeb/src/js/signing-on-the-web.js:312-320 | the width is 0.81 × 1.35 at 0.350 and jumps to 3 × 1.35 just beyond, so the width is not monotone over all distances |
| `StrokeWidth.AscendingTableScenario` | 01_SigningOnTheWeb/src/js/signing-on-the-web.js:314-318 | on a table in ascending tolerance order, the last covering entry is the coarsest, so 0.05 gets width 4 and not 2 |
| `StrokeRenderer.Divisions` | 01_SigningOnTheWeb/src/js/signing-on-the-web.js:229 | the number of pieces is at least 1 and is `1 + floor(5 · abs(Δk))`, given as floor bounds |
| `StrokeRenderer.Cut` | 01_SigningOnTheWeb/src/js/signing-on-the-web.js:242 | the cut points run from 0 at `i == 0` to 1 at `i == divs` |
| `StrokeRenderer.CutIncreasing` | 01_SigningOnTheWeb/src/js/signing-on-the-web.js:240-255 | consecutive cut points strictly increase |
| `StrokeRenderer.SubdividePieces` | 01_SigningOnTheWeb/src/js/signing-on-the-web.js:239-256 | the loop yields one piece per remaining division; piece `j` has width `p1.k + dk · i` and is the slice between consecutive cut points |
| `StrokeRenderer.DividedSmoothPath` | 01_SigningOnTheWeb/src/js/signing-on-the-web.js:224-263 | there is one piece per division, and the next start point carries the control point's weight |
| `StrokeRenderer.DividedWidths` | 01_SigningOnTheWeb/src/js/signing-on-the-web.js:226-247 | piece `i` is drawn at the weight `(i + 1) / divs` of the way from `p1.k` to `cp.k`, so the last piece is drawn at exactly `cp.k` |
| `StrokeRenderer.DividedChained` | 01_SigningOnTheWeb/src/js/signing-on-the-web.js:240-262 | the pieces chain end to start from `p1` to exactly `p2`, and `p1` becomes `(p2.x, p2.y, cp.k)` |
| `StrokeRenderer.PieceIsSlice` | 01_SigningOnTheWeb/src/js/signing-on-the-web.js:240-245 | piece `i` is the slice of the whole curve between cut points `i` and `i + 1` |
| `StrokeRenderer.PieceTracesCurve` | 01_SigningOnTheWeb/src/js/signing-on-the-web.js:240-248 | piece `i` traces the original curve between parameters `i / n` and `(i + 1) / n` |
| `StrokeRenderer.PieceCommandsReplay` | 01_SigningOnTheWeb/src/js/signing-on-the-web.js:247-253 | one piece's commands stroke once, draw the piece from the current pen, and leave the pen at the piece's end |
| `StrokeRenderer.EmitStrokesEachPiece` | 01_SigningOnTheWeb/src/js/signing-on-the-web.js:240-256 | the loop strokes once per piece |
| `StrokeRenderer.EmitDrawsPieces` | 01_SigningOnTheWeb/src/js/signing-on-the-web.js:240-256 | replayed from its start, a chained run of pieces draws exactly those curves and leaves the pen at the last piece's end |
| `SmoothPath.CallStart` | 01_SigningOnTheWeb/src/js/signing-on-the-web.js:204-215 | the start of call `i` carries the weight of point `i - 1` |
| `SmoothPath.DividedRun` | 01_SigningOnTheWeb/src/js/signing-on-the-web.js:210-216 | the loop draws at least one piece per call, and nothing when it makes no call |
| `SmoothPath.RunChained` | 01_SigningOnTheWeb/src/js/signing-on-the-web.js:204-216 | the loop's pieces chain end to start from the first point, and the last piece ends at the start point handed on |
| `SmoothPath.RunEndsAtLastMid` | 01_SigningOnTheWeb/src/js/signing-on-the-web.js:210-218 | the loop hands on the last midpoint, that of `points[n-3]` and `points[n-2]`, at the weight of `points[n-3]` |
| `SmoothPath.RunFollowsCalls` | 01_SigningOnTheWeb/src/js/signing-on-the-web.js:204-216 | threading the mutated start point through the loop gives the same pieces as starting each call at the previous midpoint with the previous point's weight |
| `SmoothPath.StrokeCommands` | 01_SigningOnTheWeb/src/js/signing-on-the-web.js:203-220 | a stroke of two points or fewer issues no command; a longer one opens a path first |
| `SmoothPath.ClosingCurve` | 01_SigningOnTheWeb/src/js/signing-on-the-web.js:203-220 | the closing curve is controlled by `points[n-2]` and ends at `points[n-1]`; it starts at the first point when the stroke has exactly three points, and otherwise at the midpoint of `points[n-3]` and `points[n-2]` |
| `SmoothPath.StrokeReplay` | 01_SigningOnTheWeb/src/js/signing-on-the-web.js:203-220 | whatever the pen, one stroke draws the pieces of its `n - 3` divided calls and then the closing curve from the last midpoint, or from the first point when the stroke has exactly three points |
| `SmoothPath.StrokeCountOfStroke` | 01_SigningOnTheWeb/src/js/signing-on-the-web.js:203-220 | a stroke strokes once per divided piece plus once for the closing curve |
| `SmoothPath.StrokeJoined` | 01_SigningOnTheWeb/src/js/signing-on-the-web.js:203-220 | the curves drawn for a stroke join end to start, from its first point to its last |
| `SmoothPath.StrokeCommandsDraw` | 01_SigningOnTheWeb/src/js/signing-on-the-web.js:203-220 | one stroke's commands draw its drawing and its stroke count, whatever the pen |
| `SmoothPath.AllStrokes` | 01_SigningOnTheWeb/src/js/signing-on-the-web.js:199-221 | when every stroke has two points or fewer, the loop over strokes issues nothing |
| `SmoothPath.SmoothPathCommands` | 01_SigningOnTheWeb/src/js/signing-on-the-web.js:196-222 | the redraw starts by clearing the canvas, and issues nothing but the clear when no stroke has more than two points |
| `SmoothPath.AllStrokesDraw` | 01_SigningOnTheWeb/src/js/signing-on-the-web.js:199-221 | the loop over strokes draws each stroke's drawing in stroke order |
| `SmoothPath.SmoothPathDraws` | 01_SigningOnTheWeb/src/js/signing-on-the-web.js:196-222 | whatever the pen, the redraw draws each stroke's smoothed curves in order, and strokes once per piece plus once per closing curve |
| `SignaturePad.Clear` | 01_SigningOnTheWeb/src/js/signing-on-the-web.js:298-310 | `clear` empties `curves` and drops `points`; it keeps `isDrawing` and the pen; it wipes the canvas and sets colour `#0d3d78`, round caps and width 10 |
| `SignaturePad.Initial` | 01_SigningOnTheWeb/src/js/signing-on-the-web.js:130-141 | after `initialize` the pad is not drawing, uses the plain pen and has no strokes |
| `SignaturePad.Start` | 01_SigningOnTheWeb/src/js/signing-on-the-web.js:143-153 | pointer down appends a new one-point stroke at weight 1 and starts drawing, issuing no command |
| `SignaturePad.OnMove` | 01_SigningOnTheWeb/src/js/signing-on-the-web.js:155-164 | a move when not drawing changes nothing; a move while drawing with no current stroke throws; otherwise it returns and the number of strokes is unchanged |
| `SignaturePad.DrawPoint` | 01_SigningOnTheWeb/src/js/signing-on-the-web.js:175-194 | in both outcomes, the move strokes one straight segment from the last recorded position to the move's position at the move's weight, and records that position; it throws exactly when there is no current stroke, and then the strokes are unchanged; otherwise it appends exactly that point to the current stroke |
| `SignaturePad.MoveAppendsToLastStroke` | 01_SigningOnTheWeb/src/js/signing-on-the-web.js:175-194 | a move while drawing leaves every earlier stroke as it was and appends exactly one point, at the move's position and weight, to the last stroke |
| `SignaturePad.MoveDrawsSegment` | 01_SigningOnTheWeb/src/js/signing-on-the-web.js:175-194 | a move while drawing strokes once, a straight segment from the stroke's previous point to its new point at the new point's weight |
| `SignaturePad.SegmentReplay` | 01_SigningOnTheWeb/src/js/signing-on-the-web.js:185-189 | a straight segment's commands stroke once and add no curve |
| `SignaturePad.HandlersKeepTracking` | 01_SigningOnTheWeb/src/js/signing-on-the-web.js:143-194 | every handler keeps the last recorded position equal to the current stroke's last point |
| `SignaturePad.HandlersKeepValid` | 01_SigningOnTheWeb/src/js/signing-on-the-web.js:143-194 | every handler keeps every stroke non-empty |
| `SignaturePad.Stop` | 01_SigningOnTheWeb/src/js/signing-on-the-web.js:166-173 | pointer up stops drawing, keeps the strokes, and issues no command with the plain pen |
| `SignaturePad.StopRedraws` | 01_SigningOnTheWeb/src/js/signing-on-the-web.js:166-173 | with the awesome pen, pointer up clears and then draws every stroke's smoothed curves in order; with the plain pen it draws nothing |
| `SignaturePad.ShortGestureWiped` | 01_SigningOnTheWeb/src/js/signing-on-the-web.js:143-222 | a gesture of at most one move strokes its segment while drawing, but the pointer-up that ends it issues exactly the commands it would have issued without the gesture; with the awesome pen and only short strokes, that is the wipe alone |
| `SignaturePad.ClearThenStopOnlyWipes` | 01_SigningOnTheWeb/src/js/signing-on-the-web.js:298-310 | after `clear`, an awesome redraw only wipes the canvas |
| `SignaturePad.Toggle` | 01_SigningOnTheWeb/src/js/signing-on-the-web.js:330-332 | `toggleAwesomePen` flips the pen and changes nothing else |
| `SignaturePad.ToggleTwice` | 01_SigningOnTheWeb/src/js/signing-on-the-web.js:330-332 | toggling twice restores the pad |
| `SignaturePad.GesturePoints` | 01_SigningOnTheWeb/src/js/signing-on-the-web.js:143-194 | a gesture of `k` moves records `k + 1` points |
| `SignaturePad.GestureRecordsStroke` | 01_SigningOnTheWeb/src/js/signing-on-the-web.js:143-194 | pointer down followed by any moves never throws, strokes once per move, appends exactly one new stroke of the gesture's points and leaves every earlier stroke as it was |
| `SignaturePad.PenWeights` | 01_SigningOnTheWeb/src/js/signing-on-the-web.js:176-193 | a gesture's first point has weight 1, and point `i` is move `i - 1`'s position at that move's weight |
| `SignaturePad.PlainPenWeights` | 01_SigningOnTheWeb/src/js/signing-on-the-web.js:180-193 | with the plain pen, every later point of a gesture has weight 10 |
| `SignaturePad.ClearWhileDrawingBreaksMove` | 01_SigningOnTheWeb/src/js/signing-on-the-web.js:175-194 | after `clear` in the middle of a gesture the pad is still drawing with no current stroke; the next move still strokes its segment from the gesture's start and records its position, then throws, and no stroke is recorded |
| `SignaturePad.StrandedMoves` | 01_SigningOnTheWeb/src/js/signing-on-the-web.js:155-194 | while drawing with no current stroke, every move strokes one segment and throws once, and the recorded strokes never change |
| `SignaturePad.ClearedGestureKeepsThrowing` | 01_SigningOnTheWeb/src/js/signing-on-the-web.js:155-194 | after `clear` mid-gesture, each remaining move of the gesture throws and strokes once, and no stroke is recorded |
| `ImageFilters.MapPixels` | 01_SigningOnTheWeb/src/js/signing-on-the-web.js:14-77 | each of the four filter loops visits every pixel and replaces it by its per-pixel rule, keeping the data's length |
| `ImageFilters.Desaturate` | 01_SigningOnTheWeb/src/js/signing-on-the-web.js:11-26 | every pixel becomes grey (equal colour channels) and opaque, by the per-pixel rule |
| `ImageFilters.DesaturateDarkensGray` | 01_SigningOnTheWeb/src/js/signing-on-the-web.js:16 | with the weights as written, a grey pixel of level `v > 0` becomes `0.99 v`, and white becomes 252.45 |
| `ImageFilters.DesaturateCorrectedKeepsGray` | 01_SigningOnTheWeb/src/js/signing-on-the-web.js:15-16 | with weights that sum to 1, the grey level lies between the darkest and the brightest channel, grey pixels keep their level, and desaturating is idempotent |
| `ImageFilters.DesaturateCorrected` | 01_SigningOnTheWeb/src/js/signing-on-the-web.js:11-26 | the corrected filter applies the corrected per-pixel rule to every pixel |
| `ImageFilters.SquareDarkens` | 01_SigningOnTheWeb/src/js/signing-on-the-web.js:32-34 | on 0..255, `c * c / 255` stays within `0..c`, with equality exactly at 0 and 255 |
| `ImageFilters.Multiply` | 01_SigningOnTheWeb/src/js/signing-on-the-web.js:28-39 | every pixel is squared channel by channel on the 0..255 scale and made opaque |
| `ImageFilters.Brighten` | 01_SigningOnTheWeb/src/js/signing-on-the-web.js:47 | a brightened channel is at most 255 and at most the scaled channel, and equals one of them: it is their minimum |
| `ImageFilters.BrightenNeverDarkens` | 01_SigningOnTheWeb/src/js/signing-on-the-web.js:47-49 | a factor of at least 1 never darkens a channel in 0..255 |
| `ImageFilters.Brightness` | 01_SigningOnTheWeb/src/js/signing-on-the-web.js:41-54 | every pixel is scaled by the factor, capped at 255 and made opaque; a missing or zero factor scales by 1.25 |
| `ImageFilters.ExtractTwoCases` | 01_SigningOnTheWeb/src/js/signing-on-the-web.js:64-77 | a pixel whose red channel is above the threshold keeps its colour and becomes transparent; any other pixel becomes the opaque fill colour, in both directions |
| `ImageFilters.Extract` | 01_SigningOnTheWeb/src/js/signing-on-the-web.js:58-80 | every pixel is judged by its red channel against the threshold and filled with the colour; a missing or zero threshold means 200, and a missing colour means `{0, 67, 124}` |

## Left out

- The pixel filters require whole pixels: image data always holds four channels per pixel, and a trailing partial pixel is not modelled.
- JavaScript numbers are IEEE-754 doubles; the model computes with exact reals. Exact identities therefore hold only in the model: that the last divided piece is drawn at exactly `cp.k` (`DividedWidths`), and the piece count `Divisions` when `5 · abs(Δk)` lands on an integer, may differ by a rounding error in the browser.
- Channels are unrounded reals. The rounding and clamping a `Uint8ClampedArray` applies on store are not modelled, and neither are NaN channels.
- ImageFilters.BrightnessFactor: only a missing value and 0 count as falsy. Other falsy JavaScript values (`NaN`, `""`, `null`) are folded into "missing".
- ImageFilters.ExtractThreshold: only a missing value and 0 count as falsy, as for the brightness factor.
- ImageFilters.ExtractColor: the fill in the source's else-branch tests `rgb` again. Because of the default on line 60 that test always succeeds, so the model uses the colour directly.
- `initialize` binds jQuery handlers and obtains the 2D context. The model keeps only its state effect (`Initial`). It assumes the canvas and context exist, so it does not model `clear`'s guard for a pad that was never initialised.
- Coordinates arrive already floored and local to the canvas (the `pageX - offset` and `Math.floor` of the handlers are not modelled).
- `distance` is not modelled. `Math.sqrt` has no counterpart over the reals, so each move carries its travel distance already divided by the canvas width (`Move.dist`).
- `toImage` is not modelled (`toDataURL` and jQuery element creation).
- Rasterisation and line caps are not modelled: the canvas is modelled only as the list of commands it receives.
- The width the final `quadraticCurveTo` of `drawSmoothPath` is stroked with is not stated by any contract. It is the last `lineWidth` set on the canvas. For a stroke of four or more points, that is the last divided piece's width. For a three-point stroke there is no divided piece, so it is whatever was set before: the previous stroke's last piece, the last `drawPoint` segment's width, or the 10 that `clear` sets. The model records the commands, not the canvas's width state.
- `drawSmoothPath` assigns the loop's stroke to an undeclared global `points` rather than to `this.points`. That write has no effect on the pad, and the model omits it.
- `CurveSlicer.Slice` requires `t1 == 0 || t2 != 0`. For `t1 != 0` and `t2 == 0` the source divides by zero and works with infinities, which reals cannot express. Every call in the source has `t2 = i / divs > 0`.
- SmoothPath.StrokeReplay: states the curves drawn, through the replay of the command trace, but not each curve's width. The widths are stated separately by `StrokeRenderer.DividedWidths`.
- SmoothPath.SmoothPathDraws: states the curves drawn and the number of strokes, but not each curve's width, as for `StrokeReplay`.
- SignaturePad.StopRedraws: states the curves drawn, but not each curve's width, as for `StrokeReplay`.
- The CSS3 animation demo (`css3basics.js`) is not part of this model.
- Splatter, ink pooling, drips and idle timers are not part of this model: `signing-on-the-web.js` has none of them.

Some behaviours of the code that a reader may not expect, each modelled as written:

- The stroke width is not monotone in the distance. With the shipped table it is non-increasing up to 0.350 (`PadWidthNonIncreasing`) and then jumps up to the default (`WidthJumpsPastCoarsest`).
- The width lookup keeps the last covering entry, not the first, so it depends on the table's order. On a table in ascending tolerance order, the coarsest covering entry wins (`AscendingTableScenario`).
- `curveSliceFrom` at `t == 1` keeps the whole curve instead of collapsing to its end point (`FromOneKeepsWholeCurve`). The source never reaches that case with `t1 != 0`.
- `eventStop` does not check `isDrawing`. With the awesome pen, every pointer-up redraws.
- With the awesome pen, a tap or a one-move stroke disappears at pointer-up: its segment is drawn while the pointer moves, and the redraw wipes it and does not draw it again (`ShortGestureWiped`).
- A move between `clear` and pointer-up still draws its segment, then throws (`ClearWhileDrawingBreaksMove`, `ClearedGestureKeepsThrowing`).

## Findings

| source | as written | input that shows it | evidently intended | confidence | as-written member | corrected member |
|---|---|---|---|---|---|---|
| 01_SigningOnTheWeb/src/js/signing-on-the-web.js:16 | grey = `0.21 r + 0.71 g + 0.07 b`; the weights sum to 0.99 | over the reals, a white pixel (255, 255, 255) becomes 252.45 and a grey pixel (v, v, v) becomes 0.99 v. Stored into the `Uint8ClampedArray`, which rounds to the nearest integer with ties to even, white becomes 252 and every grey level above 50 darkens by at least 1 on each pass; levels below 50 are fixed points (50 itself sits on a rounding tie) | luminance weights 0.21 / 0.72 / 0.07, which sum to 1, so grey stays grey and white stays white | medium, not executed | `ImageFilters.DesaturateDarkensGray` | `ImageFilters.DesaturateCorrectedKeepsGray` |
