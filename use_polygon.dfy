/**
 * The drawing gesture and its closure (src/hooks/usePolygon.ts): clicks accumulate pixel points,
 * a click near the first point closes the polygon, and closure classifies every data point and
 * appends one selection to the page's list.
 */
module UsePolygon {
  import opened Wrappers
  import opened Types
  import opened Geometry
  import opened Scales

  /** A closing click must land strictly within this many pixels of the first point. */
  const Threshold: real := 10.0

  /** The d3 `schemeCategory10` palette, cycled by creation order. */
  const Palette: seq<string> := [
    "#1f77b4", "#ff7f0e", "#2ca02c", "#d62728", "#9467bd",
    "#8c564b", "#e377c2", "#7f7f7f", "#bcbd22", "#17becf"]

  /** The colour of the selection created when the list already holds `count` entries. */
  function ColorFor(count: nat): (c: string)
    ensures c in Palette
  {
    Palette[count % |Palette|]
  }

  /** The colours cycle with period ten. */
  lemma ColorRepeats(count: nat)
    ensures ColorFor(count + 10) == ColorFor(count)
  {
    assert (count + 10) % 10 == count % 10;
  }

  /** Decimal digits of a natural number, most significant first and without leading zeros. */
  function NatToString(n: nat): (s: string)
    ensures |s| > 0 && (forall k :: 0 <= k < |s| ==> '0' <= s[k] <= '9')
    ensures s[0] == '0' ==> n == 0
  {
    if n < 10 then ["0123456789"[n]] else NatToString(n / 10) + ["0123456789"[n % 10]]
  }

  /** The number a string of decimal digits denotes. */
  function DecimalValue(s: string): nat
    requires forall k :: 0 <= k < |s| ==> '0' <= s[k] <= '9'
  {
    if s == [] then 0
    else DecimalValue(s[..|s| - 1]) * 10 + ((s[|s| - 1] as int) - ('0' as int))
  }

  /** Printing a number in decimal loses nothing: it reads back as the same number. */
  lemma {:induction false} NatToStringReadsBack(n: nat)
    ensures DecimalValue(NatToString(n)) == n
  {
    var s := NatToString(n);
    if n >= 10 {
      NatToStringReadsBack(n / 10);
      assert s[..|s| - 1] == NatToString(n / 10);
    }
  }

  /** The label used when the prompt is cancelled or left empty: `Group<count + 1>`. */
  function FallbackLabel(count: nat): (text: string)
    ensures |text| > 5 && text[..5] == "Group" && text[5..] == NatToString(count + 1)
    ensures DecimalValue(NatToString(count + 1)) == count + 1
  {
    NatToStringReadsBack(count + 1);
    "Group" + NatToString(count + 1)
  }

  /**
   * The label of a new selection: the prompt's answer when it is a non-empty string, otherwise the
   * fallback. The answer is taken as typed: it is neither trimmed, pattern-checked nor
   * compared with existing labels.
   */
  function ChooseLabel(answer: Option<string>, count: nat): (text: string)
    ensures answer.Some? && answer.value != "" ==> text == answer.value
    ensures answer.None? || answer.value == "" ==> text == FallbackLabel(count)
    ensures text != ""
  {
    if answer.Some? && answer.value != "" then answer.value else FallbackLabel(count)
  }

  /** The four page-level scales the closure reads: x and y of plot A, x and y of plot B. */
  datatype PlotScales = PlotScales(xA: LinearScale, yA: LinearScale, xB: LinearScale, yB: LinearScale)
  {
    predicate HasDomains() {
      xA.HasDomain() && yA.HasDomain() && xB.HasDomain() && yB.HasDomain()
    }
  }

  /**
   * Where the closure places a data point on a plot: CD45-KrO against SS INT LIN through
   * `xA`, `yA` on plot A; CD19-PB against SS INT LIN through `xB`, `yB` on plot B.
   */
  function ClosurePosition(plot: PlotId, scales: PlotScales, d: DataPoint): (p: Point)
    requires scales.HasDomains()
    ensures plot == A ==> p == ScalePair(scales.xA, scales.yA).Position(d, CD45KrO, SSIntLin)
    ensures plot == B ==> p == ScalePair(scales.xB, scales.yB).Position(d, CD19PB, SSIntLin)
  {
    if plot == A then Point(scales.xA.Forward(d.cd45KrO), scales.yA.Forward(d.ssIntLin))
    else Point(scales.xB.Forward(d.cd19PB), scales.yB.Forward(d.ssIntLin))
  }

  /**
   * The indices of the data points that the closed polygon contains, in data order: each point is
   * mapped to its pixel on `plot` and tested against `polygon`.
   */
  function Classify(data: seq<DataPoint>, polygon: seq<Point>, plot: PlotId, scales: PlotScales): (r: seq<nat>)
    requires scales.HasDomains()
    ensures StrictlyIncreasing(r)
    ensures forall k :: 0 <= k < |r| ==> r[k] < |data|
    ensures forall i: nat :: i in r <==> i < |data| && Contains(polygon, ClosurePosition(plot, scales, data[i]))
  {
    if data == [] then []
    else
      var n := |data| - 1;
      var init := Classify(data[..n], polygon, plot, scales);
      assert forall i :: 0 <= i < n ==> data[..n][i] == data[i];
      init + (if Contains(polygon, ClosurePosition(plot, scales, data[n])) then [n] else [])
  }

  /** The polygon closure tests and stores: the gesture with its first point repeated at the end. */
  function ClosedPolygon(gesture: seq<Point>): (poly: seq<Point>)
    requires gesture != []
    ensures |poly| == |gesture| + 1 && poly[..|gesture|] == gesture && poly[|gesture|] == gesture[0]
    ensures forall q :: Contains(poly, q) <==> Contains(gesture, q)
  {
    forall q ensures Contains(gesture + [gesture[0]], q) <==> Contains(gesture, q) {
      ClosingVertexKeepsContainment(gesture, q);
    }
    gesture + [gesture[0]]
  }

  /**
   * The selection closure appends when the list holds `count` entries: labelled from the prompt's
   * answer, coloured by creation order, shown, with the closed polygon stored for its own plot
   * only, and holding the indices of the points the polygon contains.
   */
  function NewSelection(gesture: seq<Point>, plot: PlotId, answer: Option<string>,
                        data: seq<DataPoint>, scales: PlotScales, count: nat): (s: Selection)
    requires gesture != [] && scales.HasDomains()
    ensures s.name == ChooseLabel(answer, count) && s.color == ColorFor(count)
    ensures s.visible == Some(true) && s.sourcePlot == plot
    ensures PolygonFor(s, plot) == ClosedPolygon(gesture) && PolygonFor(s, if plot == A then B else A) == []
    ensures StrictlyIncreasing(s.indices) && forall k :: 0 <= k < |s.indices| ==> s.indices[k] < |data|
    ensures forall i: nat :: i in s.indices <==> i < |data| && Contains(gesture, ClosurePosition(plot, scales, data[i]))
  {
    var polygon := ClosedPolygon(gesture);
    Selection(
      ChooseLabel(answer, count),
      ColorFor(count),
      if plot == A then polygon else [],
      if plot == B then polygon else [],
      Classify(data, polygon, plot, scales),
      plot,
      Some(true))
  }

  /**
   * A click closes the gesture when more than two points are down and it lands strictly within
   * `Threshold` pixels of the first one (compared squared, which is exact over the reals).
   */
  predicate IsClosingClick(drawing: seq<Point>, p: Point) {
    |drawing| > 2 &&
    var dx, dy := p.x - drawing[0].x, p.y - drawing[0].y;
    dx * dx + dy * dy < Threshold * Threshold
  }

  /** The hook's state: the gesture buffer, the plot last clicked, and drawing mode. */
  class PolygonHook {
    var drawing: seq<Point>
    var activePlot: PlotId
    var isDrawingMode: bool
    /** The page's selection list, which closure appends to. */
    const state: SelectionsState

    constructor (state: SelectionsState)
      ensures this.state == state
      ensures drawing == [] && activePlot == A && !isDrawingMode
    {
      this.state := state;
      drawing := [];
      activePlot := A;
      isDrawingMode := false;
    }

    /** Switching drawing mode on or off; the gesture buffer is left as it is. */
    method SetDrawingMode(on: bool)
      modifies this`isDrawingMode
      ensures isDrawingMode == on
    {
      isDrawingMode := on;
    }

    /**
     * One click at `(x, y)` on `plot`. Outside drawing mode nothing changes. Otherwise the clicked
     * plot becomes the active one, the buffer is kept, and one point is appended: the click itself,
     * or on a closing click a copy of the first point; `closes` reports the closing click, after
     * which closure runs.
     */
    method HandleClick(x: real, y: real, plot: PlotId) returns (closes: bool)
      modifies this`drawing, this`activePlot
      ensures !isDrawingMode ==> !closes && drawing == old(drawing) && activePlot == old(activePlot)
      ensures isDrawingMode ==> activePlot == plot
      ensures isDrawingMode && old(drawing) == [] ==> !closes && drawing == [Point(x, y)]
      ensures isDrawingMode && old(drawing) != [] ==>
        && closes == IsClosingClick(old(drawing), Point(x, y))
        && drawing == old(drawing) + [if closes then old(drawing)[0] else Point(x, y)]
    {
      closes := false;
      if !isDrawingMode {
        return;
      }
      activePlot := plot;
      if |drawing| == 0 {
        drawing := [Point(x, y)];
      } else {
        var first := drawing[0];
        if IsClosingClick(drawing, Point(x, y)) {
          drawing := drawing + [first];
          closes := true;
        } else {
          drawing := drawing + [Point(x, y)];
        }
      }
    }

    /**
     * Closure over the buffer `gesture` drawn on `gesturePlot`. An empty buffer is left alone;
     * otherwise exactly one selection is appended to the list and the buffer is emptied.
     */
    method ClosePolygon(gesture: seq<Point>, gesturePlot: PlotId, answer: Option<string>,
                        data: seq<DataPoint>, scales: PlotScales)
      requires scales.HasDomains()
      modifies this`drawing, state
      ensures gesture == [] ==> drawing == old(drawing) && state.selections == old(state.selections)
      ensures gesture != [] ==> drawing == []
      ensures gesture != [] ==> (state.selections == old(state.selections)
        + [NewSelection(gesture, gesturePlot, answer, data, scales, |old(state.selections)|)])
    {
      if |gesture| == 0 {
        return;
      }
      var selection := NewSelection(gesture, gesturePlot, answer, data, scales, |state.selections|);
      state.selections := state.selections + [selection];
      drawing := [];
    }

    /**
     * A click followed, when it closes the gesture, by closure. Closure reads the buffer and the
     * active plot as they stood when the click arrived (the values its callback captured), so
     * the closed polygon is the old buffer plus its first point, and the selection is tagged with
     * the plot of the previous click.
     */
    method Click(x: real, y: real, plot: PlotId, answer: Option<string>, data: seq<DataPoint>, scales: PlotScales)
      returns (closed: bool)
      requires scales.HasDomains()
      modifies this`drawing, this`activePlot, state
      ensures closed <==> isDrawingMode && IsClosingClick(old(drawing), Point(x, y))
      ensures !isDrawingMode ==> drawing == old(drawing) && activePlot == old(activePlot)
      ensures isDrawingMode ==> activePlot == plot
      ensures isDrawingMode && !closed ==> drawing == old(drawing) + [Point(x, y)]
      ensures !closed ==> state.selections == old(state.selections)
      ensures closed ==> activePlot == plot && drawing == []
      ensures closed ==> (state.selections == old(state.selections)
        + [NewSelection(old(drawing), old(activePlot), answer, data, scales, |old(state.selections)|)])
    {
      var gesture, gesturePlot := drawing, activePlot;
      closed := HandleClick(x, y, plot);
      if closed {
        ClosePolygon(gesture, gesturePlot, answer, data, scales);
      }
    }
  }
}
