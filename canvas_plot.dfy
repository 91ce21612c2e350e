/**
 * The canvas plot (src/components/CanvasPlot.tsx): a square of at most 450 pixels that follows
 * its container's width, a backing store scaled by the device pixel ratio, a static layer rebuilt
 * from the data and selections, a dynamic layer drawn over it once it exists, and clicks
 * translated to plot coordinates and handed to the hook in drawing mode.
 */
module CanvasPlot {
  import opened Wrappers
  import opened Types
  import opened Scales
  import DrawStaticLayer
  import DrawDynamicLayer
  import UsePolygon

  /** The largest side of the plot, and its side before the first resize. */
  const MaxSize: real := 450.0

  /** The plot's margin inside the square. */
  const PlotMargin: Margin := Margin(10.0, 10.0, 40.0, 50.0)

  /** The side after a resize: the container's width, capped at `MaxSize`, with no lower bound. */
  function SideFor(containerWidth: real): (side: real)
    ensures side <= MaxSize
    ensures containerWidth <= MaxSize ==> side == containerWidth
    ensures containerWidth >= MaxSize ==> side == MaxSize
  {
    if containerWidth < MaxSize then containerWidth else MaxSize
  }

  /**
   * The device pixel ratio in use: 1 without a window, and 1 when the reported ratio is absent
   * or zero (the falsy values); the reported ratio otherwise. It is never zero.
   */
  function PixelRatio(hasWindow: bool, devicePixelRatio: Option<real>): (ratio: real)
    ensures ratio != 0.0
    ensures !hasWindow || devicePixelRatio.None? || devicePixelRatio == Some(0.0) ==> ratio == 1.0
    ensures hasWindow && devicePixelRatio.Some? && devicePixelRatio.value != 0.0 ==> ratio == devicePixelRatio.value
  {
    if !hasWindow then 1.0
    else match devicePixelRatio
      case None => 1.0
      case Some(r) => if r == 0.0 then 1.0 else r
  }

  /** The canvas element's sizes: its backing store and its CSS box. */
  datatype CanvasSize = CanvasSize(backingWidth: real, backingHeight: real, cssWidth: real, cssHeight: real)

  /**
   * The element of a `width` by `height` plot: the backing store is the size times the ratio,
   * the CSS box is the size itself, so the backing store is `ratio` times the box.
   */
  function ElementSize(width: real, height: real, ratio: real): (c: CanvasSize)
    ensures c.cssWidth == width && c.cssHeight == height
    ensures c.backingWidth == c.cssWidth * ratio && c.backingHeight == c.cssHeight * ratio
  {
    CanvasSize(width * ratio, height * ratio, width, height)
  }

  /** The component's state: the square's sides and the cached static layer. */
  class CanvasPlot {
    var width: real
    var height: real
    var staticLayer: Option<DrawStaticLayer.StaticLayer>
    const plotId: PlotId

    constructor (plotId: PlotId)
      ensures width == MaxSize && height == MaxSize && staticLayer == None && this.plotId == plotId
    {
      width := MaxSize;
      height := MaxSize;
      staticLayer := None;
      this.plotId := plotId;
    }

    /** The resize handler: the square follows the container's width. */
    method Resize(containerWidth: real)
      modifies this`width, this`height
      ensures width == SideFor(containerWidth) && height == width
    {
      var side := SideFor(containerWidth);
      width := side;
      height := side;
    }

    /** Rebuilding the static layer for the current size; it replaces the cached one. */
    method RebuildStaticLayer(ratio: real, data: seq<DataPoint>, selections: seq<Selection>,
                              xScale: LinearScale, yScale: LinearScale, fx: Field, fy: Field)
      requires xScale.HasDomain() && yScale.HasDomain()
      modifies this`staticLayer
      ensures staticLayer.Some?
      ensures staticLayer.value.bufferWidth == width * ratio && staticLayer.value.bufferHeight == height * ratio
      ensures staticLayer.value.axis == DrawStaticLayer.AxisPolyline(width, height, PlotMargin)
      ensures staticLayer.value.gray == DotsAt(FilterIndices(|data|, ActiveIndices(selections), false), data,
                                               GetActualScale(width, height, xScale, yScale, PlotMargin), fx, fy)
    {
      var layer := DrawStaticLayer.BuildStaticLayer(width, height, ratio, data, selections, xScale, yScale, fx, fy, PlotMargin);
      staticLayer := Some(layer);
    }

    /**
     * The dynamic pass: nothing is drawn until a static layer exists; then the layer is drawn
     * over the static one at the current size.
     */
    method RedrawDynamic(data: seq<DataPoint>, selections: seq<Selection>, drawing: seq<Point>, activePlot: PlotId,
                         xScale: LinearScale, yScale: LinearScale, fx: Field, fy: Field)
      returns (drawn: Option<DrawDynamicLayer.DynamicLayer>)
      requires xScale.HasDomain() && yScale.HasDomain()
      requires DrawDynamicLayer.Drawable(selections, |data|)
      ensures drawn.Some? <==> staticLayer.Some?
      ensures drawn.Some? ==> drawn.value.background == staticLayer.value
      ensures drawn.Some? ==> drawn.value.marks == DrawDynamicLayer.LayerMarks(selections, data,
        GetActualScale(width, height, xScale, yScale, PlotMargin), DrawDynamicLayer.ReferenceScales(xScale, yScale, PlotMargin),
        plotId, fx, fy)
      ensures drawn.Some? ==> drawn.value.guide == InProgressGuide(drawing, activePlot, plotId)
    {
      if staticLayer.None? {
        return None;
      }
      var layer := DrawDynamicLayer.DrawDynamic(staticLayer.value, width, height, data, selections, drawing, activePlot,
                                                plotId, fx, fy, xScale, yScale, PlotMargin);
      drawn := Some(layer);
    }

    /**
     * A click at client coordinates `(clientX, clientY)` on a canvas whose box starts at
     * `(rectLeft, rectTop)`. Outside drawing mode it is dropped; otherwise the hook receives the
     * click at the offset within the box, on this plot.
     */
    method HandleCanvasClick(clientX: real, clientY: real, rectLeft: real, rectTop: real, hook: UsePolygon.PolygonHook,
                             answer: Option<string>, data: seq<DataPoint>, scales: UsePolygon.PlotScales)
      returns (closed: bool)
      requires scales.HasDomains()
      modifies hook`drawing, hook`activePlot, hook.state
      ensures !hook.isDrawingMode ==> !closed && hook.drawing == old(hook.drawing) && hook.activePlot == old(hook.activePlot)
      ensures !hook.isDrawingMode ==> hook.state.selections == old(hook.state.selections)
      ensures hook.isDrawingMode ==> hook.activePlot == plotId
      ensures closed <==> hook.isDrawingMode && UsePolygon.IsClosingClick(old(hook.drawing), Point(clientX - rectLeft, clientY - rectTop))
      ensures hook.isDrawingMode && !closed ==>
        hook.drawing == old(hook.drawing) + [Point(clientX - rectLeft, clientY - rectTop)]
      ensures !closed ==> hook.state.selections == old(hook.state.selections)
      ensures closed ==> hook.drawing == []
      ensures closed ==> (hook.state.selections == old(hook.state.selections)
        + [UsePolygon.NewSelection(old(hook.drawing), old(hook.activePlot), answer, data, scales, |old(hook.state.selections)|)])
    {
      closed := false;
      if !hook.isDrawingMode {
        return;
      }
      closed := hook.Click(clientX - rectLeft, clientY - rectTop, plotId, answer, data, scales);
    }
  }
}
