/**
 * The redrawn top layer of a canvas plot (src/utils/drawDynamicLayer.ts): over the cached static
 * layer, every shown selection highlights its points, outlines its polygon for this plot after
 * rebasing it to the current size, and writes its label at the outline's vertex mean; the gesture
 * in progress is drawn as a dashed polyline.
 */
module DrawDynamicLayer {
  import opened Wrappers
  import opened Types
  import opened Geometry
  import opened Scales
  import DrawStaticLayer

  /** The side of the square plot that stored polygon vertices are taken to be captured on. */
  const ReferenceSize: real := 450.0

  /** The scales of a `ReferenceSize` square plot with the same domains and margin. */
  function ReferenceScales(xScale: LinearScale, yScale: LinearScale, margin: Margin): ScalePair {
    GetActualScale(ReferenceSize, ReferenceSize, xScale, yScale, margin)
  }

  /** Rebasing is defined when the live domains and the reference ranges have non-zero width. */
  predicate CanRebase(live: ScalePair, ref: ScalePair) {
    live.HasDomains() && ref.x.HasRange() && ref.y.HasRange()
  }

  /** The map of the plane that rebasing applies to each coordinate. */
  function RebaseMap(live: ScalePair, ref: ScalePair): PlaneMap
    requires ref.x.HasRange() && ref.y.HasRange()
  {
    PlaneMap(Through(live.x, ref.x), Through(live.y, ref.y))
  }

  /**
   * A stored polygon redrawn at the live size: each vertex is read back to data values through
   * the reference scales and placed again by the live scales. It keeps its length, and when the
   * live scales are the reference ones it is the stored polygon itself.
   */
  function Rebase(poly: seq<Point>, live: ScalePair, ref: ScalePair): (r: seq<Point>)
    requires CanRebase(live, ref)
    ensures |r| == |poly|
    ensures live == ref ==> r == poly
  {
    var r := seq(|poly|, k requires 0 <= k < |poly| =>
      Point(live.x.Forward(ref.x.Invert(poly[k].x)), live.y.Forward(ref.y.Invert(poly[k].y))));
    if live == ref then
      forall k | 0 <= k < |poly| ensures r[k] == poly[k] {
        ForwardInvert(ref.x, poly[k].x);
        ForwardInvert(ref.y, poly[k].y);
      }
      r
    else r
  }

  /** When the live scales share the reference domains, rebasing is the map `RebaseMap`. */
  lemma RebaseIsAffine(poly: seq<Point>, live: ScalePair, ref: ScalePair)
    requires CanRebase(live, ref)
    requires live.x.d0 == ref.x.d0 && live.x.d1 == ref.x.d1 && live.y.d0 == ref.y.d0 && live.y.d1 == ref.y.d1
    ensures Rebase(poly, live, ref) == MapAll(RebaseMap(live, ref), poly)
  {
    var r, m := Rebase(poly, live, ref), MapAll(RebaseMap(live, ref), poly);
    forall k | 0 <= k < |poly| ensures r[k] == m[k] {
      ForwardOfInvert(live.x, ref.x, poly[k].x);
      ForwardOfInvert(live.y, ref.y, poly[k].y);
    }
  }

  /**
   * At the live size of a `width` by `height` plot whose plotting areas (live and reference) are
   * not empty, rebasing is an increasing map in both coordinates.
   */
  lemma RebaseMapIncreasing(width: real, height: real, xScale: LinearScale, yScale: LinearScale, margin: Margin)
    requires margin.left < width - margin.right && margin.top < height - margin.bottom
    requires margin.left < ReferenceSize - margin.right && margin.top < ReferenceSize - margin.bottom
    ensures RebaseMap(GetActualScale(width, height, xScale, yScale, margin), ReferenceScales(xScale, yScale, margin)).Increasing()
  {
    var live, ref := GetActualScale(width, height, xScale, yScale, margin), ReferenceScales(xScale, yScale, margin);
    var ky := (live.y.r1 - live.y.r0) / (ref.y.r1 - ref.y.r0);
    assert live.y.r1 - live.y.r0 < 0.0 && ref.y.r1 - ref.y.r0 < 0.0;
    assert ky == (live.y.r0 - live.y.r1) / (ref.y.r0 - ref.y.r1);
  }

  /**
   * Rebasing keeps every data point on the same side of the outline: a point lies inside the
   * rebased polygon at its live position exactly when it lies inside the stored polygon at its
   * reference position.
   */
  lemma RebasePreservesMembership(poly: seq<Point>, width: real, height: real, xScale: LinearScale, yScale: LinearScale,
                                  margin: Margin, d: DataPoint, fx: Field, fy: Field)
    requires xScale.HasDomain() && yScale.HasDomain()
    requires margin.left < width - margin.right && margin.top < height - margin.bottom
    requires margin.left < ReferenceSize - margin.right && margin.top < ReferenceSize - margin.bottom
    ensures var live, ref := GetActualScale(width, height, xScale, yScale, margin), ReferenceScales(xScale, yScale, margin);
      Contains(Rebase(poly, live, ref), live.Position(d, fx, fy)) <==> Contains(poly, ref.Position(d, fx, fy))
  {
    var live, ref := GetActualScale(width, height, xScale, yScale, margin), ReferenceScales(xScale, yScale, margin);
    var f := RebaseMap(live, ref);
    RebaseMapIncreasing(width, height, xScale, yScale, margin);
    RebaseIsAffine(poly, live, ref);
    ForwardThrough(live.x, ref.x, d.Get(fx));
    ForwardThrough(live.y, ref.y, d.Get(fy));
    assert f.Apply(ref.Position(d, fx, fy)) == live.Position(d, fx, fy);
    ContainsUnderMap(f, poly, ref.Position(d, fx, fy));
  }

  /** The label anchor of a rebased polygon is the rebased anchor of the stored one. */
  lemma AnchorFollowsRebase(poly: seq<Point>, live: ScalePair, ref: ScalePair)
    requires CanRebase(live, ref) && |poly| > 0
    requires live.x.d0 == ref.x.d0 && live.x.d1 == ref.x.d1 && live.y.d0 == ref.y.d0 && live.y.d1 == ref.y.d1
    ensures Centroid(Rebase(poly, live, ref)) == RebaseMap(live, ref).Apply(Centroid(poly))
  {
    RebaseIsAffine(poly, live, ref);
    CentroidUnderMap(RebaseMap(live, ref), poly);
  }

  /** A highlight mark of slot `slot` in `color` for each dot, in order. */
  function Highlights(slot: nat, color: string, dots: seq<Dot>): (r: seq<Mark>)
    ensures |r| == |dots|
  {
    seq(|dots|, k requires 0 <= k < |dots| => Highlight(slot, dots[k], color))
  }

  /** The outline and label of a selection on `plotId`, or nothing when its polygon there is empty. */
  function OutlineMarks(slot: nat, sel: Selection, live: ScalePair, ref: ScalePair, plotId: PlotId): seq<Mark>
    requires CanRebase(live, ref)
  {
    var poly := PolygonFor(sel, plotId);
    if poly == [] then []
    else
      var scaled := Rebase(poly, live, ref);
      [Outline(slot, scaled, sel.color), Caption(slot, sel.name, Centroid(scaled), sel.color)]
  }

  /** Shown selections must name existing data points: the pass reads `data[i]` for each of them. */
  predicate Drawable(sels: seq<Selection>, n: nat) {
    forall k :: 0 <= k < |sels| && Shown(sels[k]) ==> InRange(sels[k].indices, n)
  }

  /**
   * The marks of the selection in slot `slot`: none when it is hidden; otherwise a highlight for
   * each of its indices, in list order, then its outline and label.
   */
  function SelectionMarks(slot: nat, sel: Selection, data: seq<DataPoint>, live: ScalePair, ref: ScalePair,
                          plotId: PlotId, fx: Field, fy: Field): seq<Mark>
    requires CanRebase(live, ref)
    requires Shown(sel) ==> InRange(sel.indices, |data|)
  {
    if !Shown(sel) then []
    else Highlights(slot, sel.color, DotsAt(sel.indices, data, live, fx, fy)) + OutlineMarks(slot, sel, live, ref, plotId)
  }

  /** The marks of the whole list, selection by selection in list order. */
  function LayerMarks(sels: seq<Selection>, data: seq<DataPoint>, live: ScalePair, ref: ScalePair,
                      plotId: PlotId, fx: Field, fy: Field): seq<Mark>
    requires CanRebase(live, ref) && Drawable(sels, |data|)
  {
    if sels == [] then []
    else
      var n := |sels| - 1;
      assert forall k :: 0 <= k < n ==> sels[..n][k] == sels[k];
      LayerMarks(sels[..n], data, live, ref, plotId, fx, fy) + SelectionMarks(n, sels[n], data, live, ref, plotId, fx, fy)
  }

  /** Every mark of a selection carries that selection's slot. */
  lemma SelectionMarksSlot(slot: nat, sel: Selection, data: seq<DataPoint>, live: ScalePair, ref: ScalePair,
                           plotId: PlotId, fx: Field, fy: Field, mk: Mark)
    requires CanRebase(live, ref) && (Shown(sel) ==> InRange(sel.indices, |data|))
    requires mk in SelectionMarks(slot, sel, data, live, ref, plotId, fx, fy)
    ensures mk.slot == slot
  {
    var own := SelectionMarks(slot, sel, data, live, ref, plotId, fx, fy);
    var t :| 0 <= t < |own| && own[t] == mk;
    var hs := Highlights(slot, sel.color, DotsAt(sel.indices, data, live, fx, fy));
    if t < |hs| {
      assert own[t] == hs[t];
    }
  }

  /** A mark is on the layer exactly when it is one of the marks of the selection of its slot. */
  lemma {:induction false} LayerMarksSlots(sels: seq<Selection>, data: seq<DataPoint>, live: ScalePair, ref: ScalePair,
                                           plotId: PlotId, fx: Field, fy: Field, mk: Mark)
    requires CanRebase(live, ref) && Drawable(sels, |data|)
    ensures mk in LayerMarks(sels, data, live, ref, plotId, fx, fy) <==>
      mk.slot < |sels| && mk in SelectionMarks(mk.slot, sels[mk.slot], data, live, ref, plotId, fx, fy)
    decreases |sels|
  {
    if sels != [] {
      var n := |sels| - 1;
      var init := sels[..n];
      assert forall k :: 0 <= k < n ==> init[k] == sels[k];
      LayerMarksSlots(init, data, live, ref, plotId, fx, fy, mk);
      if mk in SelectionMarks(n, sels[n], data, live, ref, plotId, fx, fy) {
        SelectionMarksSlot(n, sels[n], data, live, ref, plotId, fx, fy, mk);
      }
    }
  }

  /**
   * Slot `k` highlights data point `i` exactly when selection `k` is shown and holds `i`: hidden
   * selections contribute no points, and a shown one highlights its points on both plots, with or
   * without a polygon there.
   */
  lemma HighlightIff(sels: seq<Selection>, data: seq<DataPoint>, live: ScalePair, ref: ScalePair,
                     plotId: PlotId, fx: Field, fy: Field, k: nat, i: nat)
    requires CanRebase(live, ref) && Drawable(sels, |data|)
    ensures (exists mk :: mk in LayerMarks(sels, data, live, ref, plotId, fx, fy) && mk.Highlight? && mk.slot == k && mk.dot.index == i)
      <==> k < |sels| && Shown(sels[k]) && i in sels[k].indices
  {
    var marks := LayerMarks(sels, data, live, ref, plotId, fx, fy);
    if mk :| mk in marks && mk.Highlight? && mk.slot == k && mk.dot.index == i {
      LayerMarksSlots(sels, data, live, ref, plotId, fx, fy, mk);
      HighlightSource(sels[k], k, data, live, ref, plotId, fx, fy, mk);
    }
    if k < |sels| && Shown(sels[k]) && i in sels[k].indices {
      var mk := HighlightOf(sels, data, live, ref, plotId, fx, fy, k, i);
    }
  }

  /** A shown selection holding `i` puts a highlight of `i` on the layer. */
  lemma HighlightOf(sels: seq<Selection>, data: seq<DataPoint>, live: ScalePair, ref: ScalePair,
                    plotId: PlotId, fx: Field, fy: Field, k: nat, i: nat) returns (mk: Mark)
    requires CanRebase(live, ref) && Drawable(sels, |data|)
    requires k < |sels| && Shown(sels[k]) && i in sels[k].indices
    ensures mk in LayerMarks(sels, data, live, ref, plotId, fx, fy) && mk.Highlight? && mk.slot == k && mk.dot.index == i
  {
    var sel := sels[k];
    var t :| 0 <= t < |sel.indices| && sel.indices[t] == i;
    var hs := Highlights(k, sel.color, DotsAt(sel.indices, data, live, fx, fy));
    mk := hs[t];
    var own := SelectionMarks(k, sel, data, live, ref, plotId, fx, fy);
    assert own[t] == mk;
    LayerMarksSlots(sels, data, live, ref, plotId, fx, fy, mk);
  }

  /**
   * A highlight of a selection's marks is one of its points, drawn in the selection's colour at
   * the point's live position.
   */
  lemma HighlightSource(sel: Selection, slot: nat, data: seq<DataPoint>, live: ScalePair, ref: ScalePair,
                        plotId: PlotId, fx: Field, fy: Field, mk: Mark)
    requires CanRebase(live, ref) && (Shown(sel) ==> InRange(sel.indices, |data|))
    requires mk in SelectionMarks(slot, sel, data, live, ref, plotId, fx, fy) && mk.Highlight?
    ensures Shown(sel) && mk.dot.index in sel.indices && mk.dot.index < |data|
    ensures mk.color == sel.color && mk.dot.at == live.Position(data[mk.dot.index], fx, fy)
  {
    var own := SelectionMarks(slot, sel, data, live, ref, plotId, fx, fy);
    var t :| 0 <= t < |own| && own[t] == mk;
    var hs := Highlights(slot, sel.color, DotsAt(sel.indices, data, live, fx, fy));
    assert t < |hs| && own[t] == hs[t];
  }

  /**
   * Slot `k` draws an outline exactly when selection `k` is shown and has a non-empty polygon for
   * this plot.
   */
  lemma OutlineIff(sels: seq<Selection>, data: seq<DataPoint>, live: ScalePair, ref: ScalePair,
                   plotId: PlotId, fx: Field, fy: Field, k: nat)
    requires CanRebase(live, ref) && Drawable(sels, |data|)
    ensures (exists mk :: mk in LayerMarks(sels, data, live, ref, plotId, fx, fy) && mk.Outline? && mk.slot == k)
      <==> k < |sels| && Shown(sels[k]) && PolygonFor(sels[k], plotId) != []
  {
    var marks := LayerMarks(sels, data, live, ref, plotId, fx, fy);
    if mk :| mk in marks && mk.Outline? && mk.slot == k {
      OutlineSource(sels, data, live, ref, plotId, fx, fy, mk);
    }
    if k < |sels| && Shown(sels[k]) && PolygonFor(sels[k], plotId) != [] {
      var mk := OutlineOf(sels, data, live, ref, plotId, fx, fy, k);
    }
  }

  /**
   * An outline or label on the layer comes from a shown selection with a non-empty polygon for
   * this plot: the outline is that polygon rebased, in the selection's colour, and the label is
   * the selection's, at the rebased polygon's vertex mean.
   */
  lemma OutlineSource(sels: seq<Selection>, data: seq<DataPoint>, live: ScalePair, ref: ScalePair,
                      plotId: PlotId, fx: Field, fy: Field, mk: Mark)
    requires CanRebase(live, ref) && Drawable(sels, |data|)
    requires mk in LayerMarks(sels, data, live, ref, plotId, fx, fy) && !mk.Highlight?
    ensures mk.slot < |sels| && Shown(sels[mk.slot]) && PolygonFor(sels[mk.slot], plotId) != []
    ensures mk.Outline? ==> mk.vertices == Rebase(PolygonFor(sels[mk.slot], plotId), live, ref) && mk.color == sels[mk.slot].color
    ensures mk.Caption? ==> mk.text == sels[mk.slot].name && mk.at == Centroid(Rebase(PolygonFor(sels[mk.slot], plotId), live, ref))
  {
    LayerMarksSlots(sels, data, live, ref, plotId, fx, fy, mk);
    NotHighlightIsOutline(sels[mk.slot], mk.slot, data, live, ref, plotId, fx, fy, mk);
  }

  /** A shown selection with a polygon for this plot puts its outline on the layer. */
  lemma OutlineOf(sels: seq<Selection>, data: seq<DataPoint>, live: ScalePair, ref: ScalePair,
                  plotId: PlotId, fx: Field, fy: Field, k: nat) returns (mk: Mark)
    requires CanRebase(live, ref) && Drawable(sels, |data|)
    requires k < |sels| && Shown(sels[k]) && PolygonFor(sels[k], plotId) != []
    ensures mk in LayerMarks(sels, data, live, ref, plotId, fx, fy) && mk.Outline? && mk.slot == k
  {
    var sel := sels[k];
    var hs := Highlights(k, sel.color, DotsAt(sel.indices, data, live, fx, fy));
    mk := Outline(k, Rebase(PolygonFor(sel, plotId), live, ref), sel.color);
    var own := SelectionMarks(k, sel, data, live, ref, plotId, fx, fy);
    assert own[|hs|] == mk;
    LayerMarksSlots(sels, data, live, ref, plotId, fx, fy, mk);
  }

  /** A mark of a selection that is not a highlight belongs to its outline marks. */
  lemma NotHighlightIsOutline(sel: Selection, slot: nat, data: seq<DataPoint>, live: ScalePair, ref: ScalePair,
                              plotId: PlotId, fx: Field, fy: Field, mk: Mark)
    requires CanRebase(live, ref) && (Shown(sel) ==> InRange(sel.indices, |data|))
    requires mk in SelectionMarks(slot, sel, data, live, ref, plotId, fx, fy) && !mk.Highlight?
    ensures Shown(sel) && mk in OutlineMarks(slot, sel, live, ref, plotId)
  {
    var own := SelectionMarks(slot, sel, data, live, ref, plotId, fx, fy);
    var t :| 0 <= t < |own| && own[t] == mk;
    assert Shown(sel);
    var hs := Highlights(slot, sel.color, DotsAt(sel.indices, data, live, fx, fy));
    var outs := OutlineMarks(slot, sel, live, ref, plotId);
    assert own == hs + outs;
    assert forall j :: 0 <= j < |hs| ==> own[j] == hs[j] && hs[j].Highlight?;
    assert t >= |hs|;
    assert own[t] == outs[t - |hs|];
  }

  /**
   * The static and dynamic layers split the data points: a point is gray on the static layer
   * exactly when the dynamic layer highlights it for no selection.
   */
  lemma GrayOrHighlighted(sels: seq<Selection>, data: seq<DataPoint>, live: ScalePair, ref: ScalePair,
                          plotId: PlotId, fx: Field, fy: Field, i: nat)
    requires CanRebase(live, ref) && Drawable(sels, |data|) && i < |data|
    ensures i in FilterIndices(|data|, ActiveIndices(sels), false) <==>
      !exists mk :: mk in LayerMarks(sels, data, live, ref, plotId, fx, fy) && mk.Highlight? && mk.dot.index == i
  {
    FilterIndicesMembers(|data|, ActiveIndices(sels), false);
    var marks := LayerMarks(sels, data, live, ref, plotId, fx, fy);
    if i in ActiveIndices(sels) {
      var k :| 0 <= k < |sels| && Shown(sels[k]) && i in sels[k].indices;
      HighlightIff(sels, data, live, ref, plotId, fx, fy, k, i);
    } else {
      forall mk | mk in marks && mk.Highlight? ensures mk.dot.index != i {
        HighlightIff(sels, data, live, ref, plotId, fx, fy, mk.slot, mk.dot.index);
      }
    }
  }

  /** What one pass leaves on the canvas: the static layer, the selection marks, the gesture. */
  datatype DynamicLayer = DynamicLayer(background: DrawStaticLayer.StaticLayer, marks: seq<Mark>, guide: Option<seq<Point>>)

  /** The index loop of one shown selection: a highlight for each index, in list order. */
  method HighlightPass(slot: nat, sel: Selection, data: seq<DataPoint>, live: ScalePair, fx: Field, fy: Field)
    returns (dots: seq<Mark>)
    requires live.HasDomains() && InRange(sel.indices, |data|)
    ensures dots == Highlights(slot, sel.color, DotsAt(sel.indices, data, live, fx, fy))
  {
    dots := [];
    var m := 0;
    while m < |sel.indices|
      invariant 0 <= m <= |sel.indices| && |dots| == m
      invariant forall t :: 0 <= t < m ==>
        dots[t] == Highlight(slot, Dot(sel.indices[t], live.Position(data[sel.indices[t]], fx, fy)), sel.color)
    {
      var i := sel.indices[m];
      dots := dots + [Highlight(slot, Dot(i, live.Position(data[i], fx, fy)), sel.color)];
      m := m + 1;
    }
  }

  /**
   * The callback run for the selection in slot `slot`: a hidden one draws nothing; a shown one
   * draws its points, then, unless its polygon for this plot is empty, the rebased outline and
   * its label.
   */
  method SelectionPass(slot: nat, sel: Selection, data: seq<DataPoint>, live: ScalePair, ref: ScalePair,
                       plotId: PlotId, fx: Field, fy: Field)
    returns (own: seq<Mark>)
    requires CanRebase(live, ref)
    requires Shown(sel) ==> InRange(sel.indices, |data|)
    ensures own == SelectionMarks(slot, sel, data, live, ref, plotId, fx, fy)
  {
    own := [];
    if !Shown(sel) {
      return;
    }
    own := HighlightPass(slot, sel, data, live, fx, fy);
    var poly := PolygonFor(sel, plotId);
    if poly == [] {
      return;
    }
    var scaled := Rebase(poly, live, ref);
    own := own + [Outline(slot, scaled, sel.color), Caption(slot, sel.name, Centroid(scaled), sel.color)];
  }

  /** One more selection appends its own marks. */
  lemma LayerMarksStep(sels: seq<Selection>, j: nat, data: seq<DataPoint>, live: ScalePair, ref: ScalePair,
                       plotId: PlotId, fx: Field, fy: Field)
    requires CanRebase(live, ref) && Drawable(sels, |data|) && j < |sels|
    ensures Drawable(sels[..j], |data|) && Drawable(sels[..j + 1], |data|)
    ensures LayerMarks(sels[..j + 1], data, live, ref, plotId, fx, fy)
         == LayerMarks(sels[..j], data, live, ref, plotId, fx, fy) + SelectionMarks(j, sels[j], data, live, ref, plotId, fx, fy)
  {
    assert sels[..j + 1][..j] == sels[..j];
  }

  /**
   * One redraw of a `width` by `height` plot: the static layer is copied, the selections are
   * drawn in list order, and the gesture polyline is drawn in raw pixel coordinates.
   */
  method DrawDynamic(staticLayer: DrawStaticLayer.StaticLayer, width: real, height: real, data: seq<DataPoint>,
                     selections: seq<Selection>, drawing: seq<Point>, activePlot: PlotId, plotId: PlotId,
                     fx: Field, fy: Field, xScale: LinearScale, yScale: LinearScale, margin: Margin)
    returns (layer: DynamicLayer)
    requires xScale.HasDomain() && yScale.HasDomain()
    requires ReferenceScales(xScale, yScale, margin).x.HasRange() && ReferenceScales(xScale, yScale, margin).y.HasRange()
    requires Drawable(selections, |data|)
    ensures layer.background == staticLayer
    ensures layer.marks == LayerMarks(selections, data, GetActualScale(width, height, xScale, yScale, margin),
                                      ReferenceScales(xScale, yScale, margin), plotId, fx, fy)
    ensures layer.guide == InProgressGuide(drawing, activePlot, plotId)
  {
    var live := GetActualScale(width, height, xScale, yScale, margin);
    var ref := ReferenceScales(xScale, yScale, margin);
    var marks: seq<Mark> := [];
    var j := 0;
    while j < |selections|
      invariant 0 <= j <= |selections|
      invariant Drawable(selections[..j], |data|)
      invariant marks == LayerMarks(selections[..j], data, live, ref, plotId, fx, fy)
    {
      var sel := selections[j];
      LayerMarksStep(selections, j, data, live, ref, plotId, fx, fy);
      var own := SelectionPass(j, sel, data, live, ref, plotId, fx, fy);
      marks := marks + own;
      j := j + 1;
    }
    assert selections[..|selections|] == selections;
    layer := DynamicLayer(staticLayer, marks, InProgressGuide(drawing, activePlot, plotId));
  }
}
