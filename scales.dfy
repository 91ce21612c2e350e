/**
 * Linear scales and their construction from a plot's pixel footprint (src/utils/getActualScales.ts).
 * A scale is the linear map `r0 + (v - d0) * (r1 - r0) / (d1 - d0)` from the data domain
 * `[d0, d1]` onto the pixel range `[r0, r1]`, over the reals.
 */
module Scales {
  import opened Types
  import opened Geometry

  datatype LinearScale = LinearScale(d0: real, d1: real, r0: real, r1: real)
  {
    /** The forward map is defined for a domain of non-zero width. */
    predicate HasDomain() {
      d0 != d1
    }

    /** The inverse map is defined for a range of non-zero width. */
    predicate HasRange() {
      r0 != r1
    }

    /** Data value to pixel. */
    function Forward(v: real): real
      requires HasDomain()
    {
      r0 + (v - d0) * (r1 - r0) / (d1 - d0)
    }

    /** Pixel to data value. */
    function Invert(p: real): real
      requires HasRange()
    {
      d0 + (p - r0) * (d1 - d0) / (r1 - r0)
    }
  }

  datatype Margin = Margin(top: real, right: real, bottom: real, left: real)

  /** The x and y scales of one plot. */
  datatype ScalePair = ScalePair(x: LinearScale, y: LinearScale)
  {
    predicate HasDomains() {
      x.HasDomain() && y.HasDomain()
    }

    /** Where a data point is drawn when `fx` is plotted along x and `fy` along y. */
    function Position(d: DataPoint, fx: Field, fy: Field): Point
      requires HasDomains()
    {
      Point(x.Forward(d.Get(fx)), y.Forward(d.Get(fy)))
    }
  }

  /** The dots of the data points `indices`, in that order, placed by `scales`. */
  function DotsAt(indices: seq<nat>, data: seq<DataPoint>, scales: ScalePair, fx: Field, fy: Field): (r: seq<Dot>)
    requires scales.HasDomains()
    requires InRange(indices, |data|)
    ensures |r| == |indices|
  {
    seq(|indices|, k requires 0 <= k < |indices| => Dot(indices[k], scales.Position(data[indices[k]], fx, fy)))
  }

  /** Appending an index appends its dot. */
  lemma DotsAtSnoc(indices: seq<nat>, i: nat, data: seq<DataPoint>, scales: ScalePair, fx: Field, fy: Field)
    requires scales.HasDomains() && i < |data|
    requires InRange(indices, |data|)
    ensures DotsAt(indices + [i], data, scales, fx, fy) == DotsAt(indices, data, scales, fx, fy) + [Dot(i, scales.Position(data[i], fx, fy))]
  {
    var longer := indices + [i];
    assert forall k :: 0 <= k < |indices| ==> longer[k] == indices[k];
  }

  /**
   * The live scales of a `width` by `height` plot: each keeps the domain of the given scale and
   * gets the margin-inset range, x from left to right, y from bottom up.
   */
  function GetActualScale(width: real, height: real, xScale: LinearScale, yScale: LinearScale, margin: Margin): (r: ScalePair)
    ensures r.x.d0 == xScale.d0 && r.x.d1 == xScale.d1
    ensures r.y.d0 == yScale.d0 && r.y.d1 == yScale.d1
    ensures xScale.HasDomain() && yScale.HasDomain() ==> r.HasDomains()
  {
    ScalePair(
      LinearScale(xScale.d0, xScale.d1, margin.left, width - margin.right),
      LinearScale(yScale.d0, yScale.d1, height - margin.bottom, margin.top))
  }

  /** A scale sends the ends of its domain to the ends of its range. */
  lemma ForwardEndpoints(s: LinearScale)
    requires s.HasDomain()
    ensures s.Forward(s.d0) == s.r0 && s.Forward(s.d1) == s.r1
  {
    assert (s.d1 - s.d0) * (s.r1 - s.r0) / (s.d1 - s.d0) == s.r1 - s.r0;
  }

  /**
   * The live x scale sends `domain[0]` to the left margin and `domain[1]` to `width - right`; the
   * y scale sends `domain[0]` to `height - bottom` and `domain[1]` to the top margin, so y is
   * inverted on screen.
   */
  lemma ActualScaleEndpoints(width: real, height: real, xScale: LinearScale, yScale: LinearScale, margin: Margin)
    requires xScale.HasDomain() && yScale.HasDomain()
    ensures var r := GetActualScale(width, height, xScale, yScale, margin);
      && r.x.Forward(xScale.d0) == margin.left && r.x.Forward(xScale.d1) == width - margin.right
      && r.y.Forward(yScale.d0) == height - margin.bottom && r.y.Forward(yScale.d1) == margin.top
  {
    var r := GetActualScale(width, height, xScale, yScale, margin);
    ForwardEndpoints(r.x);
    ForwardEndpoints(r.y);
  }

  /** Only the domains of the given scales matter; their ranges are discarded. */
  lemma ActualScaleIgnoresRanges(width: real, height: real, xs: LinearScale, ys: LinearScale, xs': LinearScale, ys': LinearScale, margin: Margin)
    requires xs.d0 == xs'.d0 && xs.d1 == xs'.d1 && ys.d0 == ys'.d0 && ys.d1 == ys'.d1
    ensures GetActualScale(width, height, xs, ys, margin) == GetActualScale(width, height, xs', ys', margin)
  {
  }

  /** `((w * m / n) * k) / m == w * k / n`: the cancellation behind every round trip. */
  lemma Rescale(w: real, m: real, n: real, k: real)
    requires m != 0.0 && n != 0.0
    ensures ((w * m / n) * k) / m == w * k / n
  {
    var t := w * m / n;
    assert t * n == w * m;
    assert (t * k) * n == (w * k) * m;
    var lhs, rhs := (t * k) / m, w * k / n;
    assert lhs * m == t * k;
    assert rhs * n == w * k;
    assert (lhs * m) * n == (rhs * n) * m;
    assert (lhs - rhs) * (m * n) == 0.0;
  }

  /** Over the reals the inverse undoes the forward map exactly. */
  lemma InvertForward(s: LinearScale, v: real)
    requires s.HasDomain() && s.HasRange()
    ensures s.Invert(s.Forward(v)) == v
  {
    var a, dw, rw := v - s.d0, s.d1 - s.d0, s.r1 - s.r0;
    var y := s.Forward(v);
    assert y - s.r0 == a * rw / dw;
    Rescale(a, rw, dw, dw);
    assert a * dw / dw == a;
    assert s.Invert(y) == s.d0 + ((a * rw / dw) * dw) / rw;
  }

  /** Over the reals the forward map undoes the inverse exactly. */
  lemma ForwardInvert(s: LinearScale, p: real)
    requires s.HasDomain() && s.HasRange()
    ensures s.Forward(s.Invert(p)) == p
  {
    var a, dw, rw := p - s.r0, s.d1 - s.d0, s.r1 - s.r0;
    var x := s.Invert(p);
    assert x - s.d0 == a * dw / rw;
    Rescale(a, dw, rw, rw);
    assert a * rw / rw == a;
    assert s.Forward(x) == s.r0 + ((a * dw / rw) * rw) / dw;
  }

  /** The forward map as the affine map `v -> k * v + c`, with `k` the range-to-domain ratio. */
  lemma ForwardIsAffine(s: LinearScale, v: real, w: real)
    requires s.HasDomain()
    ensures s.Forward(w) - s.Forward(v) == (w - v) * ((s.r1 - s.r0) / (s.d1 - s.d0))
  {
    var k := (s.r1 - s.r0) / (s.d1 - s.d0);
    assert (w - s.d0) * (s.r1 - s.r0) / (s.d1 - s.d0) == (w - s.d0) * k;
    assert (v - s.d0) * (s.r1 - s.r0) / (s.d1 - s.d0) == (v - s.d0) * k;
  }

  /** With an increasing domain, a scale preserves order when its range increases. */
  lemma ForwardIncreasing(s: LinearScale, v: real, w: real)
    requires s.d0 < s.d1 && s.r0 < s.r1 && v < w
    ensures s.Forward(v) < s.Forward(w)
  {
    ForwardIsAffine(s, v, w);
    assert (s.r1 - s.r0) / (s.d1 - s.d0) > 0.0;
  }

  /** With an increasing domain, a scale reverses order when its range decreases. */
  lemma ForwardDecreasing(s: LinearScale, v: real, w: real)
    requires s.d0 < s.d1 && s.r0 > s.r1 && v < w
    ensures s.Forward(v) > s.Forward(w)
  {
    ForwardIsAffine(s, v, w);
    assert (s.r1 - s.r0) / (s.d1 - s.d0) < 0.0;
  }

  /**
   * On a plot wider than its side margins the live x scale is strictly increasing, and on a plot
   * taller than its top and bottom margins the live y scale is strictly decreasing.
   */
  lemma ActualScaleOrientation(width: real, height: real, xScale: LinearScale, yScale: LinearScale, margin: Margin, v: real, w: real)
    requires xScale.d0 < xScale.d1 && yScale.d0 < yScale.d1 && v < w
    ensures var r := GetActualScale(width, height, xScale, yScale, margin);
      && (width - margin.right > margin.left ==> r.x.Forward(v) < r.x.Forward(w))
      && (height - margin.bottom > margin.top ==> r.y.Forward(v) > r.y.Forward(w))
  {
    var r := GetActualScale(width, height, xScale, yScale, margin);
    if width - margin.right > margin.left {
      ForwardIncreasing(r.x, v, w);
    }
    if height - margin.bottom > margin.top {
      ForwardDecreasing(r.y, v, w);
    }
  }

  /**
   * The pixel-to-pixel map that sends a pixel of a scale `ref` to the pixel of `live` showing the
   * same data value, when both share a domain.
   */
  function Through(live: LinearScale, ref: LinearScale): AxisMap
    requires ref.HasRange()
  {
    var k := (live.r1 - live.r0) / (ref.r1 - ref.r0);
    AxisMap(k, live.r0 - ref.r0 * k)
  }

  /** Going back through `ref` and forward through `live` is the map `Through(live, ref)`. */
  lemma ForwardOfInvert(live: LinearScale, ref: LinearScale, p: real)
    requires live.d0 == ref.d0 && live.d1 == ref.d1 && live.HasDomain() && ref.HasRange()
    ensures live.Forward(ref.Invert(p)) == Through(live, ref).Apply(p)
  {
    var a, dw, rw, lw := p - ref.r0, live.d1 - live.d0, ref.r1 - ref.r0, live.r1 - live.r0;
    var k := lw / rw;
    var x := ref.Invert(p);
    assert x - live.d0 == a * dw / rw;
    Rescale(a, dw, rw, lw);
    assert live.Forward(x) == live.r0 + ((a * dw / rw) * lw) / dw;
    assert a * lw / rw == a * k;
    assert Through(live, ref).Apply(p) == k * p + (live.r0 - ref.r0 * k);
  }

  /** A data value's live pixel is its reference pixel taken through `Through(live, ref)`. */
  lemma ForwardThrough(live: LinearScale, ref: LinearScale, v: real)
    requires live.d0 == ref.d0 && live.d1 == ref.d1 && live.HasDomain() && ref.HasRange()
    ensures live.Forward(v) == Through(live, ref).Apply(ref.Forward(v))
  {
    InvertForward(ref, v);
    ForwardOfInvert(live, ref, ref.Forward(v));
  }
}
