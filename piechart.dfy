/**
 * The pie chart widget: its settings, its slices and their running total,
 * its sweep animation state, and the per-frame rendering loop.
 */
module PieChart {
  import opened Wrappers
  import opened PieValues
  import opened Angles
  import opened Animation
  import opened Layout

  /**
   * The widget's settings once every construction option has been applied.
   * `centerX` is the padding column of the circle's centre (twice the radius
   * by default; the rounded radius times the aspect ratio when the aspect
   * ratio is set). `animationDuration` is in nanoseconds.
   */
  datatype Settings = Settings(
    showLegend: bool,
    withAnimation: bool,
    radius: int,
    centerX: int,
    aspectRatio: real,
    valuePrefix: string,
    animationDuration: int)

  /** The settings a chart of the given radius has when no option is given. */
  function DefaultSettings(radius: int): (s: Settings)
    ensures s.showLegend && !s.withAnimation && s.radius == radius
    ensures s.centerX == 2 * radius && s.aspectRatio == 2.0 && s.valuePrefix == ""
    ensures s.animationDuration == DEFAULT_DURATION
  {
    Settings(true, false, radius, radius * 2, 2.0, "", DEFAULT_DURATION)
  }

  /** The cell drawn for a lookup result: a point in the slice's colour, or a blank. */
  function CellFor(item: Option<PieValue>): Piece {
    if item.Some? then Point(item.value.color) else Blank
  }

  /**
   * The cells of row `y`, columns -width to width, given the visible slices:
   * each in the colour of the slice drawn at the cell's polar angle, or blank.
   */
  function RowCells(visible: seq<PieValue>, y: int, width: int, cellAngle: (int, int) -> real): (cells: seq<Piece>)
    ensures |cells| == Max(0, 2 * width + 1)
    ensures forall i :: 0 <= i < |cells| ==> cells[i].Point? || cells[i].Blank?
  {
    var cells := seq(Max(0, 2 * width + 1), i => CellFor(FirstReaching(visible, 180.0 - cellAngle(i - width, y))));
    assert forall i :: 0 <= i < |cells| ==> cells[i] == CellFor(FirstReaching(visible, 180.0 - cellAngle(i - width, y)));
    cells
  }

  /**
   * A cell is blank exactly when no visible slice reaches the angle it is
   * looked up at, and otherwise shows the colour of the first slice that does.
   */
  lemma CellShowsFirstReachingSlice(visible: seq<PieValue>, y: int, width: int, cellAngle: (int, int) -> real, i: nat)
    requires i < Max(0, 2 * width + 1)
    ensures var bound := 180.0 - cellAngle(i - width, y);
            var cell := RowCells(visible, y, width, cellAngle)[i];
            (cell == Blank <==> forall j :: 0 <= j < |visible| ==> visible[j].angle < bound) &&
            (cell != Blank ==>
               exists k :: 0 <= k < |visible| && cell == Point(visible[k].color) && bound <= visible[k].angle &&
                 forall j :: 0 <= j < k ==> visible[j].angle < bound)
  {
    var bound := 180.0 - cellAngle(i - width, y);
    assert RowCells(visible, y, width, cellAngle)[i] == CellFor(FirstReaching(visible, bound));
    FirstReachingIsFirstMatch(visible, bound);
  }

  /**
   * Row `y` of half-width `width` as drawn at centre column `centerX`: the
   * padding, the cells, the legend entry of slice `labelIndex` when
   * `withEntry`, and a line break unless it is the `last` row.
   */
  function RowPieces(centerX: int, visible: seq<PieValue>, y: int, width: int, labelIndex: nat,
                     withEntry: bool, last: bool, cellAngle: (int, int) -> real): (row: seq<Piece>)
    requires withEntry ==> centerX - width + LEGEND_PADDING >= 0
    ensures IsRowOutput(row, withEntry, labelIndex, last)
  {
    var cells := RowCells(visible, y, width, cellAngle);
    var lead := if withEntry then centerX - width + LEGEND_PADDING else 0;
    var row := [Spaces(Abs(centerX - width))] + cells + RowEnd(withEntry, lead, labelIndex, last);
    RowShape(row, Abs(centerX - width), cells, withEntry, lead, labelIndex, last);
    row
  }

  class Model {
    var showLegend: bool
    var withAnimation: bool
    var radius: int
    var centerX: int
    var aspectRatio: real
    var valuePrefix: string
    var sum: real
    var values: seq<PieValue>

    // animation state; instants and durations in nanoseconds
    var sweepAngle: real
    var animationStartTime: int
    var animationDuration: int

    /** The running total is the total of the stored weights, none of them negative. */
    ghost predicate Valid()
      reads this
    {
      sum == Sum(values) && NonNegative(values) &&
      animationDuration > 0 && 0.0 <= sweepAngle <= 360.0
    }

    /** A chart with no slices, its animation starting at instant `now`. */
    constructor (settings: Settings, now: int)
      requires settings.animationDuration > 0
      ensures Valid()
      ensures showLegend == settings.showLegend && withAnimation == settings.withAnimation
      ensures radius == settings.radius && centerX == settings.centerX
      ensures aspectRatio == settings.aspectRatio && valuePrefix == settings.valuePrefix
      ensures animationDuration == settings.animationDuration
      ensures values == [] && sum == 0.0
      ensures sweepAngle == 0.0 && animationStartTime == now
    {
      showLegend := settings.showLegend;
      withAnimation := settings.withAnimation;
      radius := settings.radius;
      centerX := settings.centerX;
      aspectRatio := settings.aspectRatio;
      valuePrefix := settings.valuePrefix;
      sum := 0.0;
      values := [];
      sweepAngle := 0.0;
      animationStartTime := now;
      animationDuration := settings.animationDuration;
    }

    /** Appends one slice, its weight clamped to zero, and adds that weight to the total. */
    method Push(v: PieValue)
      requires Valid()
      modifies this`values, this`sum
      ensures Valid()
      ensures values == old(values) + [Clamp(v)]
      ensures sum == old(sum) + Max0(v.value)
    {
      var clamped := Max0(v.value);
      var stored := v.(value := clamped);
      var appended := values + [stored];
      var total := sum + clamped;
      SumAppend(values, stored);
      NonNegativeAppend(values, stored);
      values := appended;
      sum := total;
    }

    /**
     * Pushes a batch in order, then sorts all slices by weight, heaviest
     * first. Ties may end up in any order.
     */
    method PushAll(data: seq<PieValue>)
      requires Valid()
      modifies this`values, this`sum
      ensures Valid()
      ensures SortedDescending(values)
      ensures multiset(values) == multiset(old(values) + ClampAll(data))
      ensures sum == old(sum) + Sum(ClampAll(data))
    {
      for i := 0 to |data|
        invariant Valid()
        invariant values == old(values) + ClampAll(data[..i])
      {
        Push(data[i]);
        ClampAllStep(data, i);
      }
      assert data[..|data|] == data;
      SumConcat(old(values), ClampAll(data));
      var pushed := values;
      assert NonNegative(pushed);
      values := SortByValueDescending(values);
      SumPermutation(pushed, values);
      NonNegativePermutation(pushed, values);
    }

    /**
     * Assigns each slice its end angle: a running start angle grows by each
     * slice's share of 360 degrees.
     */
    method PopulateAngles()
      requires Valid()
      requires sum > 0.0 || values == []
      modifies this`values
      ensures Valid()
      ensures values == Allocate(old(values), sum)
    {
      ghost var original := values;
      var startAngle := 0.0;
      for i := 0 to |values|
        invariant |values| == |original|
        invariant forall j :: 0 <= j < i ==> values[j] == Allocate(original, sum)[j]
        invariant forall j :: i <= j < |values| ==> values[j] == original[j]
        invariant startAngle == StartAngle(original, sum, i)
      {
        var v := values[i];
        var angle := v.value / sum * 360.0;
        AllocateStep(original, sum, i);
        v := v.(angle := startAngle + angle);
        startAngle := startAngle + angle;
        values := values[i := v];
      }
      assert values == Allocate(original, sum);
      AllocateKeepsWeights(original, sum);
    }

    /** The slices the current frame draws. */
    method GetVisibleSegments() returns (visible: seq<PieValue>)
      ensures visible == VisibleSegments(values, withAnimation, sweepAngle)
    {
      if !withAnimation {
        return values;
      }
      visible := [];
      ghost var k := FirstBeyond(values, sweepAngle);
      var i := 0;
      while i < |values|
        invariant 0 <= i <= k
        invariant visible == values[..i]
      {
        var v := values[i];
        if v.angle <= sweepAngle {
          visible := visible + [v];
          assert values[..i + 1] == values[..i] + [v];
        } else {
          assert i == k;
          assert i > 0 ==> visible[|visible| - 1] == values[k - 1];
          if |visible| == 0 || visible[|visible| - 1].angle < sweepAngle {
            var prevAngle := 0.0;
            if |visible| > 0 {
              prevAngle := visible[|visible| - 1].angle;
            }
            if sweepAngle > prevAngle {
              visible := visible + [Partial(v, prevAngle, sweepAngle)];
            }
          }
          assert visible == VisibleSegments(values, withAnimation, sweepAngle);
          return;
        }
        i := i + 1;
      }
      assert values[..i] == values;
    }

    /**
     * The slice drawn at a cell whose polar angle is `angle`: the first
     * visible slice whose end angle is at least 180 - angle, or none.
     */
    function ItemAt(angle: real): Option<PieValue>
      reads this
    {
      FirstReaching(VisibleSegments(values, withAnimation, sweepAngle), 180.0 - angle)
    }

    /** Searches the visible slices, in order, for the one drawn at polar angle `angle`. */
    method SelectItemFromAngle(angle: real) returns (item: Option<PieValue>)
      ensures item == ItemAt(angle)
    {
      var visible := GetVisibleSegments();
      var i := 0;
      while i < |visible|
        invariant 0 <= i <= |visible|
        invariant FirstReaching(visible[i..], 180.0 - angle) == FirstReaching(visible, 180.0 - angle)
      {
        if 180.0 - angle <= visible[i].angle {
          return Some(visible[i]);
        }
        assert visible[i..][1..] == visible[i + 1..];
        i := i + 1;
      }
      return None;
    }

    /**
     * Recomputes the sweep angle at instant `now`. `correctedDegrees(p)` is the
     * aspect-corrected angle for progress `p`, in [-180, 180] degrees.
     */
    method UpdateAnimation(now: int, correctedDegrees: real -> real)
      requires Valid()
      requires forall p :: -180.0 <= correctedDegrees(p) <= 180.0
      modifies this`sweepAngle
      ensures Valid()
      ensures var progress := Progress(now - animationStartTime, animationDuration);
              sweepAngle == SweepAngleAt(withAnimation, progress, correctedDegrees(progress))
      ensures IsAnimationComplete(now) ==> sweepAngle == 360.0
    {
      if !withAnimation {
        sweepAngle := 360.0;
        return;
      }
      var elapsed := now - animationStartTime;
      var progress := elapsed as real / animationDuration as real;
      if progress >= 1.0 {
        sweepAngle := 360.0;
        return;
      }
      var correctedAngleDeg := correctedDegrees(progress);
      if correctedAngleDeg < 0.0 {
        correctedAngleDeg := correctedAngleDeg + 360.0;
      }
      sweepAngle := correctedAngleDeg;
    }

    /** Whether the animation is over at instant `now`; always when it is off. */
    function IsAnimationComplete(now: int): (done: bool)
      requires Valid()
      reads this
      ensures done <==> !withAnimation || Progress(now - animationStartTime, animationDuration) >= 1.0
    {
      ProgressReachesOne(now - animationStartTime, animationDuration);
      !withAnimation || now - animationStartTime >= animationDuration
    }

    /** Starts the animation again at instant `now`; does nothing when animation is off. */
    method RestartAnimation(now: int)
      requires Valid()
      modifies this`sweepAngle, this`animationStartTime
      ensures Valid()
      ensures withAnimation ==> sweepAngle == 0.0 && animationStartTime == now && !IsAnimationComplete(now)
      ensures !withAnimation ==> sweepAngle == old(sweepAngle) && animationStartTime == old(animationStartTime)
    {
      if withAnimation {
        sweepAngle := 0.0;
        animationStartTime := now;
      }
    }

    /**
     * Renders one frame: assigns the end angles, then draws the rows. The
     * rounded ellipse half-width of row `y` is `halfWidth(y)`, the rounded
     * radius over aspect ratio is `fallbackWidth`, and the polar angle in
     * degrees of the cell at column `x` of row `y` is `cellAngle(x, y)`.
     */
    method View(halfWidth: int -> int, fallbackWidth: int, cellAngle: (int, int) -> real)
      returns (out: seq<Piece>)
      requires Valid()
      requires sum > 0.0 || values == []
      requires showLegend ==> LegendFits(halfWidth, fallbackWidth)
      modifies this`values
      ensures Valid()
      ensures values == Allocate(old(values), sum)
      ensures radius < 0 ==> out == []
      ensures radius >= 0 ==> CountNewlines(out) == 2 * radius && |out| > 0 && out[|out| - 1] != Newline
      ensures radius >= 0 ==>
                LegendIndices(out) == Iota(if showLegend then Min(|values|, 2 * radius + 1) else 0)
    {
      PopulateAngles();
      out := Render(halfWidth, fallbackWidth, cellAngle);
    }

    /**
     * No legend row would need a negative number of blanks before its entry
     * (the output library rejects a negative repeat count).
     */
    ghost predicate LegendFits(halfWidth: int -> int, fallbackWidth: int)
      reads this
    {
      var band := LegendBand(radius, |values|);
      forall y ::
        (-radius <= y <= radius && band.start <= y <= band.end) ==>
        centerX - RowWidth(halfWidth, fallbackWidth, aspectRatio, y) + LEGEND_PADDING >= 0
    }

    /** Draws the cells of row `y`, one lookup per column. */
    method DrawCells(y: int, width: int, cellAngle: (int, int) -> real, ghost visible: seq<PieValue>)
      returns (cells: seq<Piece>)
      requires visible == VisibleSegments(values, withAnimation, sweepAngle)
      ensures cells == RowCells(visible, y, width, cellAngle)
    {
      cells := [];
      var x := -width;
      while x < width + 1
        invariant |cells| == Max(0, x + width)
        invariant width >= 0 ==> x <= width + 1
        invariant width < 0 ==> x == -width
        invariant forall i :: 0 <= i < |cells| ==> cells[i] == CellFor(FirstReaching(visible, 180.0 - cellAngle(i - width, y)))
        decreases width + 1 - x
      {
        var item := SelectItemFromAngle(cellAngle(x, y));
        var cell := if item.Some? then Point(item.value.color) else Blank;
        assert cell == CellFor(item);
        cells := cells + [cell];
        x := x + 1;
      }
      assert cells == RowCells(visible, y, width, cellAngle);
    }

    /**
     * Draws row `y` of half-width `width`: its padding, its cells, the legend
     * entry of slice `labelIndex` when `withEntry`, and a line break unless it
     * is the `last` row. The legend's name, percentage and value columns are
     * formatting only and are not modelled.
     */
    method DrawRow(y: int, width: int, labelIndex: nat, withEntry: bool, last: bool,
                   cellAngle: (int, int) -> real, ghost visible: seq<PieValue>)
      returns (row: seq<Piece>)
      requires visible == VisibleSegments(values, withAnimation, sweepAngle)
      requires withEntry ==> centerX - width + LEGEND_PADDING >= 0
      ensures row == RowPieces(centerX, visible, y, width, labelIndex, withEntry, last, cellAngle)
    {
      var padding := centerX - width;
      if padding < 0 {
        padding := -padding;
      }
      assert padding == Abs(centerX - width);
      var cells := DrawCells(y, width, cellAngle, visible);
      var lead := if withEntry then centerX - width + LEGEND_PADDING else 0;
      row := [Spaces(padding)] + cells + RowEnd(withEntry, lead, labelIndex, last);
    }

    /**
     * One pass of the row loop: the half-width of row `y` (the fallback
     * width when the circle gives none and the aspect ratio is not 1),
     * whether the row shows the next legend entry, and the row itself.
     */
    method DrawNextRow(halfWidth: int -> int, fallbackWidth: int, cellAngle: (int, int) -> real,
                       ghost visible: seq<PieValue>, band: Band, y: int, labelIndex: nat)
      returns (row: seq<Piece>, nextIndex: nat)
      requires visible == VisibleSegments(values, withAnimation, sweepAngle)
      requires band == LegendBand(radius, |values|)
      requires showLegend && band.start <= y <= band.end ==>
                 centerX - RowWidth(halfWidth, fallbackWidth, aspectRatio, y) + LEGEND_PADDING >= 0
      ensures row == RowPieces(centerX, visible, y, RowWidth(halfWidth, fallbackWidth, aspectRatio, y), labelIndex,
                               showLegend && band.start <= y <= band.end && labelIndex < |values|, y == radius, cellAngle)
      ensures IsRowOutput(row, showLegend && band.start <= y <= band.end && labelIndex < |values|, labelIndex, y == radius)
      ensures nextIndex == if showLegend && band.start <= y <= band.end && labelIndex < |values|
                           then labelIndex + 1 else labelIndex
    {
      var width := halfWidth(y);
      if width == 0 && aspectRatio != 1.0 {
        width := fallbackWidth;
      }
      assert width == RowWidth(halfWidth, fallbackWidth, aspectRatio, y);

      var withEntry := showLegend && band.start <= y <= band.end && labelIndex < |values|;
      nextIndex := if withEntry then labelIndex + 1 else labelIndex;
      row := DrawRow(y, width, labelIndex, withEntry, y == radius, cellAngle, visible);
    }

    /** One pass of the row loop, seen from the frame: the row extends the output drawn so far by one row. */
    method AppendNextRow(halfWidth: int -> int, fallbackWidth: int, cellAngle: (int, int) -> real,
                         ghost visible: seq<PieValue>, band: Band, y: int, labelIndex: nat, ghost out: seq<Piece>)
      returns (row: seq<Piece>, nextIndex: nat)
      requires visible == VisibleSegments(values, withAnimation, sweepAngle)
      requires band == LegendBand(radius, |values|)
      requires showLegend && band.start <= y <= band.end ==>
                 centerX - RowWidth(halfWidth, fallbackWidth, aspectRatio, y) + LEGEND_PADDING >= 0
      requires y <= radius && Drawn(out, showLegend, radius, |values|, band, y, labelIndex)
      ensures Drawn(out + row, showLegend, radius, |values|, band, y + 1, nextIndex)
    {
      row, nextIndex := DrawNextRow(halfWidth, fallbackWidth, cellAngle, visible, band, y, labelIndex);
      DrawnStep(out, row, showLegend, radius, |values|, band, y, labelIndex,
                showLegend && band.start <= y <= band.end && labelIndex < |values|);
    }

    /**
     * Draws the rows from -radius to radius; each is its padding, its cells,
     * possibly one legend entry, and a line break unless it is the last row.
     */
    method Render(halfWidth: int -> int, fallbackWidth: int, cellAngle: (int, int) -> real)
      returns (out: seq<Piece>)
      requires showLegend ==> LegendFits(halfWidth, fallbackWidth)
      ensures radius < 0 ==> out == []
      ensures radius >= 0 ==> CountNewlines(out) == 2 * radius && |out| > 0 && out[|out| - 1] != Newline
      ensures radius >= 0 ==>
                LegendIndices(out) == Iota(if showLegend then Min(|values|, 2 * radius + 1) else 0)
    {
      var band := LegendBand(radius, |values|);
      ghost var visible := VisibleSegments(values, withAnimation, sweepAngle);
      var labelIndex := 0;
      out := [];
      var y := -radius;
      while y < radius + 1
        invariant radius >= 0 ==> y <= radius + 1
        invariant radius < 0 ==> y == -radius
        invariant Drawn(out, showLegend, radius, |values|, band, y, labelIndex)
      {
        var row;
        row, labelIndex := AppendNextRow(halfWidth, fallbackWidth, cellAngle, visible, band, y, labelIndex, out);
        out := out + row;
        y := y + 1;
      }
      if radius >= 0 {
        DrawnAll(out, showLegend, radius, |values|, labelIndex);
      }
    }
  }
}
