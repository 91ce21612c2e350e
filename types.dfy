/**
 * The records shared by the gating engine (src/types/index.ts): plot identifiers, data points,
 * pixel points and selections, with the selection-list facts that several components use.
 */
module Types {
  import opened Wrappers

  /** A pixel-space point; every coordinate is a mathematical real. */
  datatype Point = Point(x: real, y: real)

  datatype PlotId = A | B

  /** The three measured channels of one event. */
  datatype Field = CD45KrO | SSIntLin | CD19PB

  datatype DataPoint = DataPoint(cd45KrO: real, ssIntLin: real, cd19PB: real)
  {
    function Get(f: Field): real {
      match f
      case CD45KrO => cd45KrO
      case SSIntLin => ssIntLin
      case CD19PB => cd19PB
    }
  }

  /** `visible` is optional in the record: `None` stands for an absent flag. */
  datatype Selection = Selection(
    name: string,         // the source's `label` (a reserved word in Dafny)
    color: string,
    polygonA: seq<Point>,
    polygonB: seq<Point>,
    indices: seq<nat>,
    sourcePlot: PlotId,
    visible: Option<bool>)

  /** A filled circle drawn for data point `index` at pixel `at`. */
  datatype Dot = Dot(index: nat, at: Point)

  /**
   * What a selection contributes to a plot, tagged with the selection's position `slot` in the
   * list: a highlighted data point, the outline of its polygon, and its label at the anchor.
   */
  datatype Mark =
    | Highlight(slot: nat, dot: Dot, color: string)
    | Outline(slot: nat, vertices: seq<Point>, color: string)
    | Caption(slot: nat, text: string, at: Point, color: string)

  /** A click handed to the hook: pixel coordinates within the plot, and the plot clicked. */
  datatype PlotClick = PlotClick(x: real, y: real, plot: PlotId)

  /**
   * The dashed in-progress polyline of a plot: the raw gesture buffer, shown only on the plot the
   * gesture is on and once it has at least two points.
   */
  function InProgressGuide(drawing: seq<Point>, activePlot: PlotId, plotId: PlotId): (r: Option<seq<Point>>)
    ensures r.Some? <==> |drawing| > 1 && activePlot == plotId
    ensures r.Some? ==> r.value == drawing
  {
    if |drawing| > 1 && activePlot == plotId then Some(drawing) else None
  }

  /** The page-level list of selections, shared by the hook and the list widgets. */
  class SelectionsState {
    var selections: seq<Selection>

    constructor ()
      ensures selections == []
    {
      selections := [];
    }
  }

  /** A selection counts as shown unless its flag is exactly `false` (`visible !== false`). */
  predicate Shown(s: Selection) {
    s.visible != Some(false)
  }

  /** The flag after `!visible`: an absent flag negates to `true`. */
  function Toggled(v: Option<bool>): (r: bool)
    ensures v.Some? ==> r == !v.value
    ensures v.None? ==> r
  {
    match v
    case None => true
    case Some(b) => !b
  }

  /** The list after the visibility button of slot `idx`: a copy whose slot `idx` has its flag negated. */
  function ToggledAt(prev: seq<Selection>, idx: nat): (r: seq<Selection>)
    requires idx < |prev|
    ensures |r| == |prev|
    ensures forall k :: 0 <= k < |prev| && k != idx ==> r[k] == prev[k]
    ensures r[idx].visible == Some(Toggled(prev[idx].visible))
    ensures r[idx].(visible := prev[idx].visible) == prev[idx]
  {
    prev[idx := prev[idx].(visible := Some(Toggled(prev[idx].visible)))]
  }

  /**
   * `const updated = [...prev]; updated[idx] = entry`: a fresh copy of the list whose slot `idx`
   * holds `entry` and whose other slots hold what `prev` holds.
   */
  method CopyAndOverwrite(prev: seq<Selection>, idx: nat, entry: Selection) returns (updated: seq<Selection>)
    requires idx < |prev|
    ensures |updated| == |prev|
    ensures updated[idx] == entry
    ensures forall k :: 0 <= k < |prev| && k != idx ==> updated[k] == prev[k]
  {
    var copy := new Selection[|prev|];
    var i := 0;
    while i < |prev|
      invariant 0 <= i <= |prev|
      invariant copy[..i] == prev[..i]
    {
      copy[i] := prev[i];
      i := i + 1;
    }
    copy[idx] := entry;
    updated := copy[..];
  }

  /** The state updater both list widgets pass to `setSelections`: a copy of `prev` with slot `idx` toggled. */
  method ToggleUpdater(prev: seq<Selection>, idx: nat) returns (updated: seq<Selection>)
    requires idx < |prev|
    ensures updated == ToggledAt(prev, idx)
  {
    var entry := prev[idx].(visible := Some(Toggled(prev[idx].visible)));
    updated := CopyAndOverwrite(prev, idx, entry);
    assert forall k :: 0 <= k < |prev| ==> updated[k] == ToggledAt(prev, idx)[k];
  }

  /** Toggling a slot whose flag is a boolean twice gives back the original list. */
  lemma ToggleTwiceRestores(prev: seq<Selection>, idx: nat)
    requires idx < |prev| && prev[idx].visible.Some?
    ensures ToggledAt(ToggledAt(prev, idx), idx) == prev
  {
    var once := ToggledAt(prev, idx);
    var twice := ToggledAt(once, idx);
    assert twice[idx] == prev[idx];
    assert forall k :: 0 <= k < |prev| ==> twice[k] == prev[k];
  }

  /** A selection with no flag is shown; one toggle stores `true`, so it stays shown. */
  lemma ToggleOfUnsetStaysShown(prev: seq<Selection>, idx: nat)
    requires idx < |prev| && prev[idx].visible.None?
    ensures Shown(prev[idx])
    ensures ToggledAt(prev, idx)[idx].visible == Some(true) && Shown(ToggledAt(prev, idx)[idx])
  {
  }

  /** The polygon a plot outlines for a selection: `polygonA` on plot A, `polygonB` on plot B. */
  function PolygonFor(s: Selection, plot: PlotId): (r: seq<Point>)
    ensures plot == A ==> r == s.polygonA
    ensures plot == B ==> r == s.polygonB
  {
    if plot == A then s.polygonA else s.polygonB
  }

  /**
   * The set of data indices highlighted by the list: the union of `indices` over every shown
   * selection.
   */
  function ActiveIndices(sels: seq<Selection>): (r: set<nat>)
    ensures forall i :: i in r <==> exists k :: 0 <= k < |sels| && Shown(sels[k]) && i in sels[k].indices
  {
    if sels == [] then {}
    else
      var init := sels[..|sels| - 1];
      var last := sels[|sels| - 1];
      assert forall k :: 0 <= k < |init| ==> init[k] == sels[k];
      ActiveIndices(init) + (if Shown(last) then set i | i in last.indices else {})
  }

  /** Every index of `indices` names one of `n` data points. */
  predicate InRange(indices: seq<nat>, n: nat) {
    forall k :: 0 <= k < |indices| ==> indices[k] < n
  }

  /** Strictly increasing lists of indices. */
  ghost predicate StrictlyIncreasing(s: seq<nat>) {
    forall p, q :: 0 <= p < q < |s| ==> s[p] < s[q]
  }

  /**
   * The indices `0 <= i < n`, in ascending order, whose membership in `marked` equals `keep`:
   * `keep == false` gives the indices outside `marked`, `keep == true` those inside it.
   */
  function FilterIndices(n: nat, marked: set<nat>, keep: bool): (r: seq<nat>)
    ensures InRange(r, n)
  {
    if n == 0 then []
    else FilterIndices(n - 1, marked, keep) + (if (n - 1 in marked) == keep then [n - 1] else [])
  }

  /** The filter keeps its indices ascending and holds exactly the indices that pass it. */
  lemma {:induction false} FilterIndicesMembers(n: nat, marked: set<nat>, keep: bool)
    ensures StrictlyIncreasing(FilterIndices(n, marked, keep))
    ensures forall i: nat :: i in FilterIndices(n, marked, keep) <==> i < n && (i in marked) == keep
  {
    if n > 0 {
      FilterIndicesMembers(n - 1, marked, keep);
      var init := FilterIndices(n - 1, marked, keep);
      assert InRange(init, n - 1);
    }
  }

  /** The head of a strictly increasing list is its least member, and the tail holds the rest. */
  lemma IncreasingHead(s: seq<nat>)
    requires StrictlyIncreasing(s) && s != []
    ensures forall i :: i in s ==> s[0] <= i
    ensures StrictlyIncreasing(s[1..])
    ensures forall i :: i in s[1..] <==> i in s && i != s[0]
  {
    forall i | i in s[1..] ensures s[0] < i {
      var k :| 0 <= k < |s| - 1 && s[1..][k] == i;
      assert s[k + 1] == i;
    }
  }

  lemma FirstIsMember(s: seq<nat>)
    ensures s != [] ==> s[0] in s
  {
  }

  /** Two strictly increasing lists with the same members are the same list. */
  lemma {:induction false} IncreasingUnique(a: seq<nat>, b: seq<nat>)
    requires StrictlyIncreasing(a) && StrictlyIncreasing(b)
    requires forall i :: i in a <==> i in b
    ensures a == b
    decreases |a|
  {
    FirstIsMember(a);
    FirstIsMember(b);
    if a != [] && b != [] {
      IncreasingHead(a);
      IncreasingHead(b);
      assert a[0] == b[0];
      IncreasingUnique(a[1..], b[1..]);
      assert a == [a[0]] + a[1..] && b == [b[0]] + b[1..];
    }
  }
}
