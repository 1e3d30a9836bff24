/**
 * The layout of a rendered frame: what is written, row by row, into the
 * output text, and where the legend goes. Characters, colours and number
 * formatting are abstracted into pieces; the rows, the line breaks, the
 * padding and the legend order are kept.
 */
module Layout {

  /** Blank columns between the circle and a legend entry, and after the entry. */
  const LEGEND_PADDING: int := 3

  /** What one write to the output adds. */
  datatype Piece =
    | Spaces(count: nat)                   // a run of blank padding
    | Point(color: string)                 // a chart cell drawn in a slice's colour
    | Blank                                // a chart cell that no slice covers
    | LegendEntry(lead: nat, index: nat)   // the legend line of slice `index`, after `lead` blanks
    | Newline

  /** A band of row coordinates, both ends included. */
  datatype Band = Band(start: int, end: int)

  function Min(a: int, b: int): int { if a <= b then a else b }

  function Max(a: int, b: int): int { if a >= b then a else b }

  function Abs(a: int): nat { if a < 0 then -a else a }

  /** The number of line breaks written. */
  function CountNewlines(s: seq<Piece>): nat {
    if s == [] then 0
    else CountNewlines(s[..|s| - 1]) + (if s[|s| - 1].Newline? then 1 else 0)
  }

  /** The slice indices of the legend entries written, in order. */
  function LegendIndices(s: seq<Piece>): seq<nat> {
    if s == [] then []
    else LegendIndices(s[..|s| - 1]) + (if s[|s| - 1].LegendEntry? then [s[|s| - 1].index] else [])
  }

  /** 0, 1, ..., n - 1. */
  function Iota(n: nat): (r: seq<nat>)
    ensures |r| == n && forall i :: 0 <= i < n ==> r[i] == i
  {
    seq(n, i => i)
  }

  lemma IotaStep(k: nat)
    ensures Iota(k + 1) == Iota(k) + [k]
  {
  }

  /** Writing one more piece adds at most one line break or one legend index. */
  lemma AppendPiece(s: seq<Piece>, p: Piece)
    ensures CountNewlines(s + [p]) == CountNewlines(s) + (if p.Newline? then 1 else 0)
    ensures LegendIndices(s + [p]) == LegendIndices(s) + (if p.LegendEntry? then [p.index] else [])
  {
  }

  /** Line breaks and legend entries of two outputs written one after the other. */
  lemma {:induction false} AppendPieces(a: seq<Piece>, b: seq<Piece>)
    ensures CountNewlines(a + b) == CountNewlines(a) + CountNewlines(b)
    ensures LegendIndices(a + b) == LegendIndices(a) + LegendIndices(b)
    decreases |b|
  {
    if b == [] {
      assert a + b == a;
    } else {
      var b' := b[..|b| - 1];
      assert a + b == (a + b') + [b[|b| - 1]];
      assert b == b' + [b[|b| - 1]];
      AppendPieces(a, b');
      AppendPiece(a + b', b[|b| - 1]);
      AppendPiece(b', b[|b| - 1]);
    }
  }

  /**
   * Writing a whole row after the rows before it: the line breaks add up, the
   * row's legend entry (if any) is the next index, and the output ends as the
   * row does.
   */
  lemma AppendRow(out: seq<Piece>, row: seq<Piece>, k: nat, withEntry: bool)
    requires LegendIndices(out) == Iota(k)
    requires LegendIndices(row) == if withEntry then [k] else []
    requires |row| > 0
    ensures LegendIndices(out + row) == Iota(if withEntry then k + 1 else k)
    ensures CountNewlines(out + row) == CountNewlines(out) + CountNewlines(row)
    ensures (out + row)[|out + row| - 1] == row[|row| - 1]
  {
    AppendPieces(out, row);
    if withEntry {
      IotaStep(k);
    }
  }

  /** Writing chart cells adds no line break and no legend entry. */
  lemma {:induction false} AppendCells(s: seq<Piece>, cells: seq<Piece>)
    requires forall i :: 0 <= i < |cells| ==> cells[i].Point? || cells[i].Blank?
    ensures CountNewlines(s + cells) == CountNewlines(s)
    ensures LegendIndices(s + cells) == LegendIndices(s)
    ensures |cells| > 0 ==> !(s + cells)[|s + cells| - 1].Newline?
    decreases |cells|
  {
    if cells != [] {
      var init := cells[..|cells| - 1];
      AppendCells(s, init);
      assert s + cells == (s + init) + [cells[|cells| - 1]];
      AppendPiece(s + init, cells[|cells| - 1]);
    } else {
      assert s + cells == s;
    }
  }

  /**
   * What a row writes after its cells: the legend entry of slice `index`
   * after `lead` blanks when it has one, then a line break unless it is the
   * last row.
   */
  function RowEnd(withEntry: bool, lead: nat, index: nat, last: bool): (t: seq<Piece>)
    ensures |t| == (if withEntry then 1 else 0) + (if last then 0 else 1)
    ensures withEntry ==> t[0] == LegendEntry(lead, index)
    ensures CountNewlines(t) == if last then 0 else 1
    ensures LegendIndices(t) == if withEntry then [index] else []
    ensures |t| > 0 ==> (t[|t| - 1] == Newline <==> !last)
  {
    var entry := if withEntry then [LegendEntry(lead, index)] else [];
    AppendPiece([], LegendEntry(lead, index));
    assert [] + [LegendEntry(lead, index)] == [LegendEntry(lead, index)];
    AppendPiece(entry, Newline);
    assert entry == [] ==> entry + [Newline] == [Newline];
    entry + (if last then [] else [Newline])
  }

  /**
   * What drawing one row adds to the output: something, one line break
   * unless it is the last row, the legend entry of slice `k` when it shows
   * one, and a final line break exactly when it is not the last row.
   */
  ghost predicate IsRowOutput(row: seq<Piece>, withEntry: bool, k: nat, last: bool) {
    |row| > 0 &&
    CountNewlines(row) == (if last then 0 else 1) &&
    LegendIndices(row) == (if withEntry then [k] else []) &&
    (row[|row| - 1] == Newline <==> !last)
  }

  /** A row made of its padding, its cells and its end has the shape above. */
  lemma RowShape(row: seq<Piece>, padding: nat, cells: seq<Piece>, withEntry: bool, lead: nat, index: nat, last: bool)
    requires row == [Spaces(padding)] + cells + RowEnd(withEntry, lead, index, last)
    requires forall i :: 0 <= i < |cells| ==> cells[i].Point? || cells[i].Blank?
    ensures IsRowOutput(row, withEntry, index, last)
  {
    var head := [Spaces(padding)] + cells;
    var tail := RowEnd(withEntry, lead, index, last);
    RowStart(padding, cells);
    AppendPieces(head, tail);
    RowEndsAsTail(head, tail);
  }

  /** The padding and the cells of a row hold no line break and no legend entry. */
  lemma RowStart(padding: nat, cells: seq<Piece>)
    requires forall i :: 0 <= i < |cells| ==> cells[i].Point? || cells[i].Blank?
    ensures CountNewlines([Spaces(padding)] + cells) == 0
    ensures LegendIndices([Spaces(padding)] + cells) == []
    ensures !([Spaces(padding)] + cells)[|[Spaces(padding)] + cells| - 1].Newline?
  {
    AppendPiece([], Spaces(padding));
    assert [] + [Spaces(padding)] == [Spaces(padding)];
    AppendCells([Spaces(padding)], cells);
  }

  /** A row ends as its end part does, or as its cells when that part is empty. */
  lemma RowEndsAsTail(head: seq<Piece>, tail: seq<Piece>)
    requires |head| > 0 && !head[|head| - 1].Newline?
    ensures var row := head + tail;
            row[|row| - 1] == Newline <==> |tail| > 0 && tail[|tail| - 1] == Newline
  {
  }

  /**
   * The output once rows -radius .. y - 1 are drawn and `k` legend entries
   * are shown: the entries of slices 0 .. k - 1 in order, `k` as the legend
   * loop counts it, y + radius rows each ending in a line break except the
   * last row of the circle.
   */
  ghost predicate Drawn(out: seq<Piece>, show: bool, radius: int, n: nat, band: Band, y: int, k: nat) {
    -radius <= y &&
    k == LegendBefore(show, radius, n, band, y) &&
    LegendIndices(out) == Iota(k) &&
    (y == -radius ==> out == []) &&
    (y > -radius ==>
       |out| > 0 && (out[|out| - 1] == Newline <==> y <= radius) &&
       CountNewlines(out) == (if y <= radius then y + radius else y + radius - 1))
  }

  /** Drawing row y, with an entry exactly when the legend loop shows one, draws one row more. */
  lemma DrawnStep(out: seq<Piece>, row: seq<Piece>, show: bool, radius: int, n: nat, band: Band,
                  y: int, k: nat, withEntry: bool)
    requires Drawn(out, show, radius, n, band, y, k) && y <= radius
    requires withEntry == (show && band.start <= y <= band.end && k < n)
    requires IsRowOutput(row, withEntry, k, y == radius)
    ensures Drawn(out + row, show, radius, n, band, y + 1, if withEntry then k + 1 else k)
  {
    AppendRow(out, row, k, withEntry);
  }

  /**
   * Once every row is drawn with the intended band: 2 * radius line breaks,
   * none at the end, and one legend entry per slice, in slice order, for as
   * many slices as there are rows.
   */
  lemma DrawnAll(out: seq<Piece>, show: bool, radius: int, n: nat, k: nat)
    requires radius >= 0 && Drawn(out, show, radius, n, LegendBand(radius, n), radius + 1, k)
    ensures CountNewlines(out) == 2 * radius && |out| > 0 && out[|out| - 1] != Newline
    ensures LegendIndices(out) == Iota(if show then Min(n, 2 * radius + 1) else 0)
  {
    LegendShowsEverySlice(show, radius, n);
  }

  /**
   * The half-width of row `y` in columns: the rounded ellipse half-width
   * `halfWidth(y)` unless it is 0 and the aspect ratio is not 1, in which
   * case the rounded `fallbackWidth` (radius over aspect ratio) is used.
   */
  function RowWidth(halfWidth: int -> int, fallbackWidth: int, aspectRatio: real, y: int): (w: int)
    ensures halfWidth(y) != 0 || aspectRatio == 1.0 ==> w == halfWidth(y)
    ensures halfWidth(y) == 0 && aspectRatio != 1.0 ==> w == fallbackWidth
  {
    var w := halfWidth(y);
    if w == 0 && aspectRatio != 1.0 then fallbackWidth else w
  }

  /** a / 2 rounded up, for any sign of a. */
  function CeilHalf(a: int): (r: int)
    ensures a <= 2 * r <= a + 1
  {
    (a + 1) / 2
  }

  /** a / 2 rounded down, for any sign of a. */
  function FloorHalf(a: int): (r: int)
    ensures a - 1 <= 2 * r <= a
  {
    a / 2
  }

  /**
   * The legend band as the renderer computes it: the spare rows
   * 2 * radius + 1 - n are halved and rounded up, and that many rows are
   * cut from each edge.
   */
  function LegendBandAsWritten(radius: int, n: nat): (b: Band)
    ensures b.start + radius == radius - b.end
  {
    var pad := CeilHalf(radius * 2 + 1 - n);
    Band(-radius + pad, radius - pad)
  }

  /**
   * The legend band as intended: the spare rows split between the two edges,
   * the top edge getting the extra row when their number is odd, so that the
   * band has exactly one row per slice when the slices fit.
   */
  function LegendBand(radius: int, n: nat): (b: Band)
    ensures n <= 2 * radius + 1 ==> -radius <= b.start && b.end <= radius && b.end - b.start + 1 == n
    ensures n > 2 * radius + 1 ==> b.start <= -radius && radius <= b.end
    ensures 0 <= (b.start + radius) - (radius - b.end) <= 1
  {
    var spare := radius * 2 + 1 - n;
    Band(-radius + CeilHalf(spare), radius - FloorHalf(spare))
  }

  /**
   * The legend index before row `y` is drawn, the rows being drawn from
   * `-radius` upwards: it grows by one on each row inside the band while
   * slices remain.
   */
  function LegendBefore(show: bool, radius: int, n: nat, band: Band, y: int): (k: nat)
    requires -radius <= y
    ensures k <= n && k <= y + radius
    ensures !show ==> k == 0
    decreases y + radius
  {
    if y == -radius then 0
    else
      var k := LegendBefore(show, radius, n, band, y - 1);
      if show && band.start <= y - 1 <= band.end && k < n then k + 1 else k
  }

  /**
   * The legend index before row `y`: the number of band rows already drawn,
   * capped at the number of slices.
   */
  lemma {:induction false} LegendBeforeCount(show: bool, radius: int, n: nat, band: Band, y: int)
    requires -radius <= y
    ensures LegendBefore(show, radius, n, band, y) ==
            if show then Min(n, Max(0, Min(y, band.end + 1) - Max(band.start, -radius))) else 0
    decreases y + radius
  {
    if y > -radius {
      LegendBeforeCount(show, radius, n, band, y - 1);
    }
  }

  /**
   * With the intended band every slice gets exactly one legend entry when the
   * slices fit in the rows; otherwise every row gets one.
   */
  lemma LegendShowsEverySlice(show: bool, radius: int, n: nat)
    requires radius >= 0
    ensures LegendBefore(show, radius, n, LegendBand(radius, n), radius + 1) ==
            if show then Min(n, 2 * radius + 1) else 0
  {
    LegendBeforeCount(show, radius, n, LegendBand(radius, n), radius + 1);
  }

  /**
   * With the band as the renderer computes it, an even number of slices that
   * fits in the rows loses its last legend entry: for radius 1 and two
   * slices the band is the single row 0.
   */
  lemma AsWrittenLegendOmitsLast(radius: int, n: nat)
    requires radius >= 0 && 0 < n <= 2 * radius && n % 2 == 0
    ensures LegendBefore(true, radius, n, LegendBandAsWritten(radius, n), radius + 1) == n - 1
  {
    LegendBeforeCount(true, radius, n, LegendBandAsWritten(radius, n), radius + 1);
  }
}
