/**
 * Plane geometry used by the gating engine: the even-odd containment test applied to every data
 * point when a polygon closes, axis-wise increasing affine maps (the shape of every rebasing), and
 * the vertex mean used to anchor a selection's label.
 */
module Geometry {
  import opened Types

  /**
   * The edge from `a` to `b` crosses the horizontal ray going right from `q`: its end points lie
   * strictly on opposite sides of the line through `q` (one above, the other not), and `q` lies
   * left of the edge's intersection with that line.
   */
  predicate Crosses(a: Point, b: Point, q: Point) {
    && ((b.y > q.y) != (a.y > q.y))
    && q.x < Lean(a, b, q.y) + b.x
  }

  /** How many edges `prev -> vs[0] -> vs[1] -> ...` cross the ray from `q`. */
  function CrossingCount(prev: Point, vs: seq<Point>, q: Point): nat
    decreases |vs|
  {
    if vs == [] then 0
    else (if Crosses(prev, vs[0], q) then 1 else 0) + CrossingCount(vs[0], vs[1..], q)
  }

  /**
   * Even-odd containment of `q` in the polygon `poly`, which is read as closed: its last vertex
   * joins its first. No vertex, no containment.
   */
  predicate Contains(poly: seq<Point>, q: Point) {
    |poly| > 0 && CrossingCount(poly[|poly| - 1], poly, q) % 2 == 1
  }

  /** Appending a vertex adds exactly the crossings of the one new edge. */
  lemma {:induction false} CrossingCountSnoc(prev: Point, vs: seq<Point>, v: Point, q: Point)
    ensures CrossingCount(prev, vs + [v], q)
         == CrossingCount(prev, vs, q)
            + (if Crosses(if vs == [] then prev else vs[|vs| - 1], v, q) then 1 else 0)
    decreases |vs|
  {
    if vs != [] {
      assert (vs + [v])[0] == vs[0] && (vs + [v])[1..] == vs[1..] + [v];
      CrossingCountSnoc(vs[0], vs[1..], v, q);
    }
  }

  /**
   * Closing a polygon by repeating its first vertex at the end does not change which points it
   * contains: the extra edge has zero length and crosses nothing.
   */
  lemma ClosingVertexKeepsContainment(poly: seq<Point>, q: Point)
    requires |poly| > 0
    ensures Contains(poly + [poly[0]], q) <==> Contains(poly, q)
  {
    var closed := poly + [poly[0]];
    var first, last := poly[0], poly[|poly| - 1];
    assert closed[|closed| - 1] == first;
    assert closed[1..] == poly[1..] + [first];
    CrossingCountSnoc(first, poly[1..], first, q);
    assert (if poly[1..] == [] then first else poly[1..][|poly[1..]| - 1]) == last;
    assert CrossingCount(last, poly, q) == (if Crosses(last, first, q) then 1 else 0) + CrossingCount(first, poly[1..], q);
  }

  /** An edge crosses the ray whichever way it is walked: both directions meet the line at one point. */
  lemma CrossesReversed(a: Point, b: Point, q: Point)
    ensures Crosses(a, b, q) <==> Crosses(b, a, q)
  {
    if a.y != b.y {
      var d, w := a.y - b.y, a.x - b.x;
      var ab, ba := Lean(a, b, q.y), Lean(b, a, q.y);
      assert ab * d == w * (q.y - b.y);
      assert ba * (b.y - a.y) == (b.x - a.x) * (q.y - a.y);
      assert ba * d == w * (q.y - a.y);
      assert (ab + b.x - ba - a.x) * d == w * (q.y - b.y) - w * (q.y - a.y) - w * d;
      ZeroProduct(ab + b.x - ba - a.x, d);
    }
  }

  /** A product of reals is zero only when a factor is. */
  lemma ZeroProduct(e: real, d: real)
    requires d != 0.0 && e * d == 0.0
    ensures e == 0.0
  {
    if e != 0.0 {
      NonZeroProduct(e, d);
    }
  }

  lemma NonZeroProduct(e: real, d: real)
    requires e != 0.0 && d != 0.0
    ensures e * d != 0.0
  {
    if e > 0.0 {
      if d > 0.0 { assert e * d > 0.0; } else { assert e * d < 0.0; }
    } else {
      if d > 0.0 { assert e * d < 0.0; } else { assert e * d > 0.0; }
    }
  }

  /** Fewer than three vertices enclose nothing: a single point, or one edge walked there and back. */
  lemma FewVerticesContainNothing(poly: seq<Point>, q: Point)
    requires |poly| < 3
    ensures !Contains(poly, q)
  {
    if |poly| == 2 {
      var a, b := poly[0], poly[1];
      CrossesReversed(a, b, q);
      assert poly[1..] == [b] && [b][1..] == [];
      assert CrossingCount(a, [b], q) == (if Crosses(a, b, q) then 1 else 0);
      assert CrossingCount(b, poly, q) == (if Crosses(b, a, q) then 1 else 0) + CrossingCount(a, [b], q);
    } else if |poly| == 1 {
      var p := poly[0];
      assert !Crosses(p, p, q);
      assert poly[1..] == [];
      assert CrossingCount(p, poly, q) == 0;
    }
  }

  /** The axis-wise map `v -> scale * v + offset`. */
  datatype AxisMap = AxisMap(scale: real, offset: real)
  {
    function Apply(v: real): real {
      scale * v + offset
    }
  }

  /** An axis-wise affine map of the plane. */
  datatype PlaneMap = PlaneMap(x: AxisMap, y: AxisMap)
  {
    predicate Increasing() {
      x.scale > 0.0 && y.scale > 0.0
    }

    function Apply(p: Point): Point {
      Point(x.Apply(p.x), y.Apply(p.y))
    }
  }

  /** `f` applied to every vertex, in order. */
  function MapAll(f: PlaneMap, poly: seq<Point>): (r: seq<Point>)
    ensures |r| == |poly|
    ensures forall k :: 0 <= k < |poly| ==> r[k] == f.Apply(poly[k])
  {
    seq(|poly|, k requires 0 <= k < |poly| => f.Apply(poly[k]))
  }

  /** The x-coordinate where the line through `a` and `b` meets the height `h`, less `b.x`. */
  function Lean(a: Point, b: Point, h: real): real
    requires a.y != b.y
  {
    (a.x - b.x) * (h - b.y) / (a.y - b.y)
  }

  lemma LeanUnderMap(f: PlaneMap, a: Point, b: Point, h: real)
    requires f.Increasing() && a.y != b.y
    ensures f.Apply(a).y != f.Apply(b).y
    ensures Lean(f.Apply(a), f.Apply(b), f.y.Apply(h)) == f.x.scale * Lean(a, b, h)
  {
    var sx, sy := f.x.scale, f.y.scale;
    var fa, fb := f.Apply(a), f.Apply(b);
    assert fa.x - fb.x == sx * (a.x - b.x);
    assert f.y.Apply(h) - fb.y == sy * (h - b.y);
    assert fa.y - fb.y == sy * (a.y - b.y);
    var num := (a.x - b.x) * (h - b.y);
    assert (sx * (a.x - b.x)) * (sy * (h - b.y)) == (sx * sy) * num;
    DivScale(sx, sy, num, a.y - b.y);
  }

  lemma DivScale(sx: real, sy: real, n: real, d: real)
    requires sy != 0.0 && d != 0.0
    ensures ((sx * sy) * n) / (sy * d) == sx * (n / d)
  {
    var t := n / d;
    assert n == t * d;
    assert (sx * sy) * n == (sx * t) * (sy * d);
  }

  /** An increasing axis-wise affine map preserves every edge crossing. */
  lemma CrossesUnderMap(f: PlaneMap, a: Point, b: Point, q: Point)
    requires f.Increasing()
    ensures Crosses(f.Apply(a), f.Apply(b), f.Apply(q)) <==> Crosses(a, b, q)
  {
    MonotoneAxis(f.y, b.y, q.y);
    MonotoneAxis(f.y, a.y, q.y);
    if (b.y > q.y) != (a.y > q.y) {
      LeftOfUnderMap(f, a, b, q);
    }
  }

  lemma LeftOfUnderMap(f: PlaneMap, a: Point, b: Point, q: Point)
    requires f.Increasing() && a.y != b.y
    ensures f.Apply(a).y != f.Apply(b).y
    ensures (f.Apply(q).x < Lean(f.Apply(a), f.Apply(b), f.Apply(q).y) + f.Apply(b).x)
        == (q.x < Lean(a, b, q.y) + b.x)
  {
    LeanUnderMap(f, a, b, q.y);
    var l := Lean(a, b, q.y);
    var sx, ox := f.x.scale, f.x.offset;
    assert sx * l + (sx * b.x + ox) == sx * (l + b.x) + ox;
    MonotoneAxis(f.x, l + b.x, q.x);
  }

  lemma MonotoneAxis(m: AxisMap, u: real, v: real)
    requires m.scale > 0.0
    ensures (m.Apply(u) > m.Apply(v)) == (u > v)
  {
    if u > v {
      assert m.scale * (u - v) > 0.0;
    } else {
      assert m.scale * (v - u) >= 0.0;
    }
  }

  lemma {:induction false} CrossingCountUnderMap(f: PlaneMap, prev: Point, vs: seq<Point>, q: Point)
    requires f.Increasing()
    ensures CrossingCount(f.Apply(prev), MapAll(f, vs), f.Apply(q)) == CrossingCount(prev, vs, q)
    decreases |vs|
  {
    if vs != [] {
      CrossesUnderMap(f, prev, vs[0], q);
      assert MapAll(f, vs)[1..] == MapAll(f, vs[1..]);
      CrossingCountUnderMap(f, vs[0], vs[1..], q);
    }
  }

  /**
   * Containment is invariant under an increasing axis-wise affine map applied to the polygon and
   * the query point together.
   */
  lemma ContainsUnderMap(f: PlaneMap, poly: seq<Point>, q: Point)
    requires f.Increasing()
    ensures Contains(MapAll(f, poly), f.Apply(q)) <==> Contains(poly, q)
  {
    if |poly| > 0 {
      CrossingCountUnderMap(f, poly[|poly| - 1], poly, q);
    }
  }

  /** The test square `(0,0), (0,10), (10,10), (10,0)` holds `(5,5)` and not `(15,15)`. */
  lemma SquareExample()
    ensures Contains([Point(0.0, 0.0), Point(0.0, 10.0), Point(10.0, 10.0), Point(10.0, 0.0)], Point(5.0, 5.0))
    ensures !Contains([Point(0.0, 0.0), Point(0.0, 10.0), Point(10.0, 10.0), Point(10.0, 0.0)], Point(15.0, 15.0))
  {
    var sq := [Point(0.0, 0.0), Point(0.0, 10.0), Point(10.0, 10.0), Point(10.0, 0.0)];
    var inner, outer := Point(5.0, 5.0), Point(15.0, 15.0);
    assert sq[1..][1..][1..][1..] == [];
    assert CrossingCount(sq[3], sq, inner) == 1;
    assert CrossingCount(sq[3], sq, outer) == 0;
  }

  function SumX(poly: seq<Point>): real {
    if poly == [] then 0.0 else SumX(poly[..|poly| - 1]) + poly[|poly| - 1].x
  }

  function SumY(poly: seq<Point>): real {
    if poly == [] then 0.0 else SumY(poly[..|poly| - 1]) + poly[|poly| - 1].y
  }

  /**
   * The label anchor: the arithmetic mean of the vertices; the origin for an empty polygon.
   */
  function Centroid(poly: seq<Point>): (c: Point)
    ensures |poly| > 0 ==> c.x * (|poly| as real) == SumX(poly) && c.y * (|poly| as real) == SumY(poly)
    ensures poly == [] ==> c == Point(0.0, 0.0)
  {
    if poly == [] then Point(0.0, 0.0)
    else Point(SumX(poly) / (|poly| as real), SumY(poly) / (|poly| as real))
  }

  lemma {:induction false} SumXUnderMap(f: PlaneMap, poly: seq<Point>)
    ensures SumX(MapAll(f, poly)) == f.x.scale * SumX(poly) + (|poly| as real) * f.x.offset
    decreases |poly|
  {
    if poly != [] {
      var init := poly[..|poly| - 1];
      assert MapAll(f, poly)[..|poly| - 1] == MapAll(f, init);
      SumXUnderMap(f, init);
    }
  }

  lemma {:induction false} SumYUnderMap(f: PlaneMap, poly: seq<Point>)
    ensures SumY(MapAll(f, poly)) == f.y.scale * SumY(poly) + (|poly| as real) * f.y.offset
    decreases |poly|
  {
    if poly != [] {
      var init := poly[..|poly| - 1];
      assert MapAll(f, poly)[..|poly| - 1] == MapAll(f, init);
      SumYUnderMap(f, init);
    }
  }

  /** A mean scaled by `m` term by term is the mean mapped by `m`. */
  lemma MeanUnderAxis(m: AxisMap, mean: real, mean': real, sum: real, n: real)
    requires n > 0.0 && mean * n == sum && mean' * n == m.scale * sum + n * m.offset
    ensures mean' == m.Apply(mean)
  {
    assert (mean' - m.Apply(mean)) * n == mean' * n - m.scale * (mean * n) - n * m.offset;
    assert (mean' - m.Apply(mean)) * n == 0.0;
  }

  lemma CentroidXUnderMap(f: PlaneMap, poly: seq<Point>)
    requires |poly| > 0
    ensures Centroid(MapAll(f, poly)).x == f.x.Apply(Centroid(poly).x)
  {
    var mapped := MapAll(f, poly);
    var n := |poly| as real;
    SumXUnderMap(f, poly);
    assert Centroid(poly).x * n == SumX(poly);
    assert Centroid(mapped).x * n == SumX(mapped);
    MeanUnderAxis(f.x, Centroid(poly).x, Centroid(mapped).x, SumX(poly), n);
  }

  lemma CentroidYUnderMap(f: PlaneMap, poly: seq<Point>)
    requires |poly| > 0
    ensures Centroid(MapAll(f, poly)).y == f.y.Apply(Centroid(poly).y)
  {
    var mapped := MapAll(f, poly);
    var n := |poly| as real;
    SumYUnderMap(f, poly);
    assert Centroid(poly).y * n == SumY(poly);
    assert Centroid(mapped).y * n == SumY(mapped);
    MeanUnderAxis(f.y, Centroid(poly).y, Centroid(mapped).y, SumY(poly), n);
  }

  /** The anchor of a mapped polygon is the mapped anchor. */
  lemma CentroidUnderMap(f: PlaneMap, poly: seq<Point>)
    requires |poly| > 0
    ensures Centroid(MapAll(f, poly)) == f.Apply(Centroid(poly))
  {
    CentroidXUnderMap(f, poly);
    CentroidYUnderMap(f, poly);
  }
}
