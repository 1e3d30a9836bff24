# Terminal pie chart, modelled in Dafny

This project models the data and geometry core of a terminal pie-chart
widget (`piechart/piechart.go`). The widget stores named, coloured slices
and keeps a running total of their weights. It gives each slice a
cumulative end angle. During a reveal animation it shows only the slices
the sweep has reached, the current one cut short. It looks up the slice
drawn at a cell's polar angle, and it draws the chart row by row, with a
legend entry for one slice on each row of a band of rows. The source centres
that band so that an even number of slices that fits in the rows loses its
last entry; the model records this under "## Findings" and draws with the
corrected band, one row per slice. Every number the widget keeps in a
`float64` is a `real` here.

Modules and files:

- `wrappers.dfy`, module `Wrappers`: `Option`.
- `values.dfy`, module `PieValues`: the slice record, the total `Sum`, clamping of negative weights, and the descending sort.
- `angles.dfy`, module `Angles`: angle allocation, the sweep filter of visible slices, and the first-match lookup.
- `animation.dfy`, module `Animation`: progress and sweep-angle arithmetic.
- `layout.dfy`, module `Layout`: the pieces a frame emits, the legend band, and the row-by-row bookkeeping of newlines and legend entries.
- `piechart.dfy`, module `PieChart`: the widget itself, as `class Model`, whose methods update its fields in place.

Inputs that the model turns into parameters:

- The wall clock becomes an integer instant `now` in nanoseconds.
- The floating-point geometry is computed by the caller:
  - `halfWidth(y)`: the rounded ellipse half-width of row `y`;
  - `fallbackWidth`: the rounded radius over the aspect ratio;
  - `cellAngle(x, y)`: a cell's polar angle;
  - `correctedDegrees(p)`: the aspect-corrected sweep angle for progress `p`.
- A frame is a sequence of `Piece`s: padding, a point or a blank per cell, a legend entry and a line break. The characters and colour escape codes are not modelled.

## Model

| member | source | states |
|---|---|---|
| PieChart.DefaultSettings | piechart/piechart.go:50-66 | without options: legend shown, animation off, centre column twice the radius, aspect ratio 2, empty value prefix, 500 ms duration |
| PieChart.Model.constructor | piechart/piechart.go:50-66 | the fields take the settings; no slices, total 0, sweep 0, animation starting at `now`; the total invariant holds |
| PieValues.Max0 | piechart/piechart.go:77 | the stored weight is the input weight or 0, whichever is larger |
| PieChart.Model.Push | piechart/piechart.go:76-80 | appends the clamped record as the last slice, earlier slices untouched; the total grows by exactly the clamped weight, so it stays the sum of the weights |
| PieValues.ClampAll | piechart/piechart.go:84-86 | a batch is stored one clamped record per input, in order, none negative |
| PieChart.Model.PushAll | piechart/piechart.go:83-92 | afterwards the slices are sorted by weight, non-increasing, and are a permutation of the old slices plus the clamped batch; the total is the old total plus the batch's clamped total |
| PieValues.SortByValueDescending | piechart/piechart.go:89-91 | the result is sorted non-increasing by weight and is a permutation of the input; no order of ties is promised |
| PieValues.SumPermutation | piechart/piechart.go:89-91 | reordering the slices keeps the total, so sorting preserves the total invariant |
| PieValues.SumConcat | piechart/piechart.go:84-86 | the total of two runs of slices is the sum of their totals |
| PieChart.Model.PopulateAngles | piechart/piechart.go:95-103 | with a positive total, each slice's end angle becomes its running share of 360 degrees; only the angles change |
| Angles.Allocate | piechart/piechart.go:97-101 | allocation keeps the slice count and every field of every slice but its angle |
| Angles.AllocateStep | piechart/piechart.go:98-100 | each end angle is the running start angle plus the slice's share, and becomes the next slice's start |
| Angles.AllocateKeepsWeights | piechart/piechart.go:95-103 | allocation keeps the total and the non-negativity of the weights |
| Angles.ArcIsShare | piechart/piechart.go:98-99 | each slice's arc, from the previous end angle, is its weight's share of 360 degrees |
| Angles.AnglesNonDecreasing | piechart/piechart.go:96-102 | with non-negative weights the end angles never decrease |
| Angles.AnglesInRange | piechart/piechart.go:96-102 | when the total is the sum of non-negative weights, every end angle lies in [0, 360] |
| Angles.LastAngleIsFullCircle | piechart/piechart.go:96-102 | the last end angle is exactly 360 |
| PieChart.Model.GetVisibleSegments | piechart/piechart.go:116-148 | the early-exit loop returns the sweep-filtered slices |
| Angles.FirstBeyond | piechart/piechart.go:123-125 | the kept prefix is as long as possible: every slice in it ends at or before the sweep, and the next one ends past it |
| Angles.VisibleSegments | piechart/piechart.go:117-119 | without animation every slice is shown unchanged; no more slices are shown than stored |
| Angles.VisibleIsSweptPrefix | piechart/piechart.go:121-147 | while animating: the longest prefix ending within the sweep, plus one cut-short slice exactly when the sweep is past the previous end angle |
| Angles.Partial | piechart/piechart.go:134-139 | the cut-short slice keeps its name and colour, and ends at the sweep angle |
| Angles.PartialIsProportional | piechart/piechart.go:137 | the cut-short weight is to the full weight as the swept part of the arc is to the whole arc, so it lies between 0 and the full weight |
| Angles.VisibleWithinSweep | piechart/piechart.go:121-147 | while animating no visible slice ends past the sweep angle |
| Angles.FullSweepShowsAll | piechart/piechart.go:121-147 | a full 360-degree sweep over allocated angles shows every slice unchanged |
| Angles.ZeroSweepShowsNothing | piechart/piechart.go:121-147 | a zero sweep shows nothing when the first slice has a positive arc |
| Angles.FirstReaching | piechart/piechart.go:107-112 | a slice it finds is one of the searched slices and its end angle reaches the bound |
| Angles.FirstReachingIsFirstMatch | piechart/piechart.go:106-113 | the lookup finds nothing exactly when no end angle reaches the bound, and otherwise finds the first slice whose angle does |
| PieChart.Model.SelectItemFromAngle | piechart/piechart.go:106-113 | the linear search returns the first visible slice with 180 - angle at most its end angle, or none |
| Animation.Progress | piechart/piechart.go:226-227 | the progress is the elapsed time as a fraction of the duration (progress times duration is the elapsed time), never negative when time has not gone back |
| Animation.ProgressReachesOne | piechart/piechart.go:227-229 | progress reaches 1 exactly when the elapsed time reaches the duration |
| Animation.SweepAngleAt | piechart/piechart.go:221-245 | the sweep is 360 when animation is off or over; otherwise it is the corrected angle, brought into [0, 360) by adding 360 to a negative one |
| PieChart.Model.UpdateAnimation | piechart/piechart.go:220-246 | the sweep angle becomes the one for the elapsed progress at `now`; a finished animation sweeps the full circle |
| PieChart.Model.IsAnimationComplete | piechart/piechart.go:249-254 | true exactly when animation is off or the progress has reached 1 |
| PieChart.Model.RestartAnimation | piechart/piechart.go:257-262 | with animation on, the sweep goes back to 0 and restarts at `now`, not complete; with animation off nothing changes |
| PieChart.Model.View | piechart/piechart.go:151-217 | assigns the angles, then draws 2r+1 rows with 2r line breaks and none trailing; with the corrected band of the Findings row (`Layout.LegendBand`), the legend entries are slices 0, 1, ... in order, one per slice up to the row count |
| PieChart.Model.Render | piechart/piechart.go:156-214 | from row -r to row r: exactly 2r newlines, the last piece not a newline; with the corrected band of the Findings row, legend indices 0..min(n, 2r+1)-1 in order, without repeats; nothing for a negative radius |
| PieChart.Model.DrawNextRow | piechart/piechart.go:162-213 | one pass of the row loop draws exactly `RowPieces` of row y at the width `RowWidth(y)`, with a legend entry exactly when y is in the band and entries remain; the row has the row shape, and the entry index advances by one exactly when an entry is drawn |
| PieChart.Model.AppendNextRow | piechart/piechart.go:161-213 | one pass of the row loop extends the output by one row and keeps the row-count, newline and legend-index bookkeeping |
| Layout.RowWidth | piechart/piechart.go:162-165 | the row's half-width is the ellipse half-width, except that it is the fallback width exactly when the ellipse half-width is 0 and the aspect ratio is not 1 |
| PieChart.Model.DrawRow | piechart/piechart.go:167-213 | a row is its padding of the absolute offset from the centre column, its cells, the legend entry when due, and a line break unless it is the last |
| PieChart.RowPieces | piechart/piechart.go:167-213 | a row ends in a line break exactly when it is not the last; it has one newline (zero if last) and carries one legend index when it shows an entry |
| PieChart.Model.DrawCells | piechart/piechart.go:173-182 | the column loop draws one cell per column from -width to width, each that column's lookup |
| PieChart.RowCells | piechart/piechart.go:173-182 | a row has 2 * width + 1 cells (none for a negative width), each a point or a blank |
| PieChart.CellShowsFirstReachingSlice | piechart/piechart.go:176-181 | a cell is blank exactly when no visible slice reaches its angle, and otherwise has the colour of the first slice that does |
| Layout.RowEnd | piechart/piechart.go:203-213 | the legend entry, with its lead, comes first when due, then a line break unless the row is the last |
| Layout.RowShape | piechart/piechart.go:167-213 | padding plus point or blank cells plus the row end adds no newline and no legend index beyond the row end's |
| Layout.DrawnStep | piechart/piechart.go:161-213 | the loop invariant: newline count, trailing newline and legend indices so far, preserved by one row |
| Layout.DrawnAll | piechart/piechart.go:161-214 | after the last row: 2r newlines, none trailing, and the legend indices of the whole band |
| Layout.LegendBefore | piechart/piechart.go:185-207 | the legend index before row y never exceeds the number of slices or the number of rows drawn, and stays 0 without a legend |
| Layout.LegendBeforeCount | piechart/piechart.go:185-208 | the legend index before row y is the number of band rows already drawn, capped at the number of slices |
| Layout.LegendBand | piechart/piechart.go:157-159 | corrected band: when the slices fit in the rows the band lies within them and has exactly one row per slice, otherwise it covers every row |
| Layout.LegendShowsEverySlice | piechart/piechart.go:156-208 | with the corrected band, min(n, 2r+1) legend entries are drawn |
| Layout.CeilHalf | piechart/piechart.go:157 | half of the spare rows rounded up, for either sign: a <= 2 * CeilHalf(a) <= a + 1 |
| Layout.LegendBandAsWritten | piechart/piechart.go:157-159 | the band as written cuts the same number of rows from each edge |
| Layout.AsWrittenLegendOmitsLast | piechart/piechart.go:157-159 | with the band as written, an even number of slices that fits in the rows gets one legend entry fewer than it has slices |

## Left out

- Trigonometry, square root and rounding are left out. `math.Atan2`, `Sqrt`, `Round`, `Cos` and `Sin` are floating-point numerics. The row half-width, the fallback width, the cell angle and the corrected sweep angle come in as parameters; the corrected angle is required to lie in [-180, 180].
- The clock is left out. `time.Now` and `time.Since` are I/O, so every operation that reads the clock takes `now`, in nanoseconds.
- The legend entry's text is left out. The name padded to the longest name, the rounded percentage, the `%.2f` value with its prefix, the trailing blanks, and the colour styling are formatting in foreign libraries. An entry is modelled as the slice's index and its lead of blanks.
- The construction options are a `Settings` record. `WithData` is `PushAll` called after construction. The `centerX` that `WithAspectRatio` rounds is given directly.
- A zero or negative animation duration is left out. `WithAnimationDuration` (piechart/options.go:22-26) accepts any duration. The constructor and the `Valid` invariant require a positive one, because the progress divides by it. Floating-point division by zero, giving an infinite or NaN progress, is not modelled.
- A zero total is left out. `PopulateAngles` and `View` require a positive total, or no slices, instead of modelling NaN angles.
- Record aliasing is left out. The source stores pointers that callers keep, and `Push` clamps the caller's record in place. The model stores values.
- The sort algorithm is left out. `sort.Slice` is replaced by a selection sort with the same contract: sorted by weight and a permutation. The order of ties is not modelled.
- The unused fields `centerY` and `PieData.Label` are not modelled.
- The sweep angle starts at 0 even when animation is off, as in the constructor; only `UpdateAnimation` sets it to 360.
- PieChart.Model.View: requires that no legend row needs a negative lead (`LegendFits`). The source would panic in `strings.Repeat` on a negative count, and that panic is not modelled.
- PieChart.Model.Render: promises the row count, the newlines and the legend entries of the whole frame. Each pass of its loop draws `RowPieces` at `RowWidth(y)` by the contract of `DrawNextRow`, but `Render`'s own contract does not state the frame as the concatenation of those rows.
- Continuity of the sweep over time (the sweep growing with progress) is not modelled: it depends on the trigonometric correction, which is a parameter.

## Findings

| source | as written | input that shows it | evidently intended | confidence | as-written member | corrected member |
|---|---|---|---|---|---|---|
| piechart/piechart.go:157-159 | both edges of the legend band are cut by ceil((2r + 1 - n) / 2) rows | radius 1 and two slices: the band is row 0 alone, so the second slice never gets a legend entry | a band of exactly min(n, 2r + 1) rows, the spare rows split between the edges | not executed | Layout.AsWrittenLegendOmitsLast | Layout.LegendBand (used by PieChart.Model.Render) |
