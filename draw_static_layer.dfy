/**
 * The cached bottom layer of a canvas plot (src/utils/drawStaticLayer.ts): a backing buffer
 * scaled by the device pixel ratio, the axis lines, and a gray dot for every data point that no
 * shown selection holds.
 */
module DrawStaticLayer {
  import opened Wrappers
  import opened Types
  import opened Scales

  /** What the buffer ends up holding, apart from ticks and captions. */
  datatype StaticLayer = StaticLayer(bufferWidth: real, bufferHeight: real, axis: seq<Point>, gray: seq<Dot>)

  /** The axis polyline: down the left edge of the plotting area, then along its bottom edge. */
  function AxisPolyline(width: real, height: real, margin: Margin): (r: seq<Point>)
    ensures |r| == 3
  {
    [Point(margin.left, margin.top), Point(margin.left, height - margin.bottom),
     Point(width - margin.right, height - margin.bottom)]
  }

  /**
   * The axis runs through the corners of the data domain as the live scales place them: from
   * (x-domain start, y-domain end) to (x start, y start) to (x end, y start).
   */
  lemma AxisFollowsScales(width: real, height: real, xScale: LinearScale, yScale: LinearScale, margin: Margin)
    requires xScale.HasDomain() && yScale.HasDomain()
    ensures var live := GetActualScale(width, height, xScale, yScale, margin);
      var axis := AxisPolyline(width, height, margin);
      && axis[0] == Point(live.x.Forward(xScale.d0), live.y.Forward(yScale.d1))
      && axis[1] == Point(live.x.Forward(xScale.d0), live.y.Forward(yScale.d0))
      && axis[2] == Point(live.x.Forward(xScale.d1), live.y.Forward(yScale.d0))
  {
    ActualScaleEndpoints(width, height, xScale, yScale, margin);
  }

  /** The gray pass: every data point is visited in order and those in `selected` are skipped. */
  method GrayPass(data: seq<DataPoint>, selected: set<nat>, live: ScalePair, fx: Field, fy: Field)
    returns (gray: seq<Dot>)
    requires live.HasDomains()
    ensures gray == DotsAt(FilterIndices(|data|, selected, false), data, live, fx, fy)
  {
    gray := [];
    var i := 0;
    while i < |data|
      invariant 0 <= i <= |data|
      invariant gray == DotsAt(FilterIndices(i, selected, false), data, live, fx, fy)
    {
      GrayStep(data, selected, live, fx, fy, i);
      if i !in selected {
        gray := gray + [Dot(i, live.Position(data[i], fx, fy))];
      }
      i := i + 1;
    }
  }

  /** One more data point adds its dot exactly when it is not selected. */
  lemma GrayStep(data: seq<DataPoint>, selected: set<nat>, live: ScalePair, fx: Field, fy: Field, i: nat)
    requires live.HasDomains() && i < |data|
    ensures DotsAt(FilterIndices(i + 1, selected, false), data, live, fx, fy)
         == DotsAt(FilterIndices(i, selected, false), data, live, fx, fy)
            + (if i !in selected then [Dot(i, live.Position(data[i], fx, fy))] else [])
  {
    if i !in selected {
      DotsAtSnoc(FilterIndices(i, selected, false), i, data, live, fx, fy);
    }
  }

  /**
   * Building the layer of a `width` by `height` plot: a buffer of `width * ratio` by
   * `height * ratio`, the axis polyline, and the gray dots of the points outside every shown
   * selection, placed by the live scales.
   */
  method BuildStaticLayer(width: real, height: real, ratio: real, data: seq<DataPoint>, selections: seq<Selection>,
                          xScale: LinearScale, yScale: LinearScale, fx: Field, fy: Field, margin: Margin)
    returns (layer: StaticLayer)
    requires xScale.HasDomain() && yScale.HasDomain()
    ensures layer.bufferWidth == width * ratio && layer.bufferHeight == height * ratio
    ensures layer.axis == AxisPolyline(width, height, margin)
    ensures layer.gray == DotsAt(FilterIndices(|data|, ActiveIndices(selections), false), data,
                                 GetActualScale(width, height, xScale, yScale, margin), fx, fy)
  {
    var live := GetActualScale(width, height, xScale, yScale, margin);
    var axis := AxisPolyline(width, height, margin);
    var selected := ActiveIndices(selections);
    var gray := GrayPass(data, selected, live, fx, fy);
    layer := StaticLayer(width * ratio, height * ratio, axis, gray);
  }

  /**
   * The indices the gray pass draws for `n` data points: ascending, each once, and exactly those
   * below `n` that no shown selection holds.
   */
  lemma GrayIsComplement(selections: seq<Selection>, n: nat)
    ensures StrictlyIncreasing(FilterIndices(n, ActiveIndices(selections), false))
    ensures forall i: nat :: i in FilterIndices(n, ActiveIndices(selections), false) <==>
      i < n && !exists k :: 0 <= k < |selections| && Shown(selections[k]) && i in selections[k].indices
  {
    var gray := FilterIndices(n, ActiveIndices(selections), false);
    FilterIndicesMembers(n, ActiveIndices(selections), false);
    forall i: nat
      ensures i in gray <==> i < n && !exists k :: 0 <= k < |selections| && Shown(selections[k]) && i in selections[k].indices
    {
      assert i in gray <==> i < n && i !in ActiveIndices(selections);
    }
  }

  /**
   * Hiding a shown selection (its flag going from `true` to `false`) turns one of its points
   * gray exactly when no other shown selection holds that point.
   */
  lemma HidingTurnsGray(selections: seq<Selection>, idx: nat, i: nat, n: nat)
    requires idx < |selections| && selections[idx].visible == Some(true)
    requires i in selections[idx].indices && i < n
    ensures i !in FilterIndices(n, ActiveIndices(selections), false)
    ensures i in FilterIndices(n, ActiveIndices(ToggledAt(selections, idx)), false) <==>
      !exists k :: 0 <= k < |selections| && k != idx && Shown(selections[k]) && i in selections[k].indices
  {
    var after := ToggledAt(selections, idx);
    FilterIndicesMembers(n, ActiveIndices(selections), false);
    FilterIndicesMembers(n, ActiveIndices(after), false);
    assert !Shown(after[idx]);
    if exists k :: 0 <= k < |selections| && k != idx && Shown(selections[k]) && i in selections[k].indices {
      var k :| 0 <= k < |selections| && k != idx && Shown(selections[k]) && i in selections[k].indices;
      assert after[k] == selections[k];
      assert i in ActiveIndices(after);
    } else {
      forall k | 0 <= k < |after| && Shown(after[k]) ensures i !in after[k].indices {
        assert k != idx;
        assert after[k] == selections[k];
      }
    }
  }
}
