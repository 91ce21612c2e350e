# Polygon gating engine of ahead-project, modelled in Dafny

ahead-project is a web page for flow-cytometry gating. It shows the same events on two scatter
plots: plot A is CD45-KrO against SS INT LIN, and plot B is CD19-PB against SS INT LIN.

In drawing mode, the user clicks out a polygon on either plot. A click close to the first point
closes the polygon. Every event whose pixel lies inside the polygon then becomes a member of a new
*selection*, which has:

- a label, from a prompt or a `Group<N>` fallback;
- a palette colour;
- the polygon, stored for the plot it was drawn on;
- a visibility flag.

The page keeps these selections in one list. The list widgets toggle, delete and rename entries.
The renderers do three things:

- they draw in gray every event that no shown selection holds;
- they highlight the events of each shown selection in its colour;
- they outline each shown selection's polygon, with its label at the vertex mean.

The canvas renderer keeps the polygon aligned when the plot is resized: it maps each stored vertex
back to data space through a 450-pixel reference scale, then forward through the live scale.

The model has one module per source file:

- `Types`: the records, and facts the components share (visibility flip, the union of shown
  indices, the ascending index filter).
- `Geometry`: even-odd containment and axis-wise affine maps. Containment is invariant under
  increasing affine maps, and the vertex mean commutes with them.
- `Scales`: `getActualScale`, linear scales and their exact inverses over the reals.
- `UsePolygon`: the gesture state machine and closure, as the class `PolygonHook`.
- `PolygonPanel` and `SelectionsControl`: the list widgets, as classes over the shared
  `SelectionsState`.
- `DrawStaticLayer`, `DrawDynamicLayer`, `Plot`: what each renderer draws, as a value (gray dots,
  highlight, outline and caption marks, the in-progress polyline). The canvas renderer's loops are
  methods (`DrawStaticLayer.GrayPass`, `DrawDynamicLayer.HighlightPass`,
  `DrawDynamicLayer.DrawDynamic`), each proved against the function that specifies it. The SVG
  plot's `forEach` passes are functions; its selected-dot pass follows d3's class join, keyed by
  the base64 class name of each label.
- `CanvasPlot`: sizing and click translation, as a class.

Drawing calls are inputs and outputs of the model. What ends up on screen is the value a pass
returns. Browser dialogs (`prompt`, `confirm`) are parameters.

## Model

| member | source | states |
|---|---|---|
| Types.InProgressGuide | src/utils/drawDynamicLayer.ts:103-114 | the dashed polyline is present exactly when the buffer holds more than one point and the gesture is on this plot, and it is the raw buffer, not rebased |
| Types.SelectionsState.constructor | src/app/page.tsx:15 | the page's list starts empty |
| Types.Toggled | src/components/SelectionsControl.tsx:23 | `!visible`: a boolean flag is negated, an absent flag becomes `true` |
| Types.ToggledAt | src/components/SelectionsControl.tsx:19-26 | after a toggle the list has the same length, every other slot is unchanged, and slot `idx` differs only in its flag, which becomes `!visible` |
| Types.CopyAndOverwrite | src/components/SelectionsControl.tsx:20-24 | copying the list element by element and then overwriting slot `idx` gives a list of the same length that holds the new entry at `idx` and the old entries everywhere else |
| Types.ToggleUpdater | src/components/PolygonPanel.tsx:22-29 | the updater that both widgets pass to `setSelections` returns exactly the toggled list |
| Types.ToggleTwiceRestores | src/components/SelectionsControl.tsx:23 | toggling a slot with a boolean flag twice gives back the original list |
| Types.ToggleOfUnsetStaysShown | src/components/SelectionsControl.tsx:23-30 | an entry with no flag is shown; one toggle stores `true`, so it is still shown |
| Types.PolygonFor | src/utils/drawDynamicLayer.ts:66 | plot A uses `polygonA`, plot B uses `polygonB` |
| Types.ActiveIndices | src/utils/drawStaticLayer.ts:82-84 | `i` is in the set exactly when some selection that is not hidden holds `i` |
| Types.FilterIndices | src/utils/drawStaticLayer.ts:86-87 | the filtered indices all lie below `n` |
| Types.FilterIndicesMembers | src/utils/drawStaticLayer.ts:86-93 | the indices are visited in strictly ascending order, and `i` is kept exactly when `i < n` and its membership in the marked set is the one asked for |
| Types.IncreasingUnique | src/components/Plot.tsx:139 | two strictly increasing index lists with the same members are equal |
| Geometry.ClosingVertexKeepsContainment | src/hooks/usePolygon.ts:34 | repeating the first vertex at the end of a polygon does not change which points it contains |
| Geometry.CrossesReversed | src/hooks/usePolygon.ts:48 | an edge crosses the test ray in one direction exactly when it crosses it in the other |
| Geometry.FewVerticesContainNothing | src/hooks/usePolygon.ts:48 | a polygon with fewer than three vertices contains no point |
| Geometry.MapAll | src/utils/drawDynamicLayer.ts:77-81 | mapping a polygon keeps its length and maps vertex `k` to the image of vertex `k` |
| Geometry.CrossingCountUnderMap | src/hooks/usePolygon.ts:48 | an increasing axis-wise affine map preserves the number of edges that cross the ray from a point |
| Geometry.ContainsUnderMap | src/hooks/usePolygon.ts:48 | an increasing axis-wise affine map preserves containment: the image of `q` is in the image polygon exactly when `q` is in the polygon |
| Geometry.SquareExample | src/hooks/usePolygon.ts:48 | the square with corners (0,0) and (10,10) contains (5,5) and does not contain (15,15) |
| Geometry.Centroid | src/components/Plot.tsx:37-42 | the origin for an empty polygon; otherwise the point whose coordinates times the vertex count equal the coordinate sums |
| Geometry.CentroidUnderMap | src/utils/drawDynamicLayer.ts:93-94 | the vertex mean of a mapped non-empty polygon is the image of its vertex mean |
| Scales.DotsAt | src/utils/drawStaticLayer.ts:88-89 | one dot per listed index |
| Scales.DotsAtSnoc | src/utils/drawStaticLayer.ts:86-93 | appending an index appends its dot, placed by the scales |
| Scales.GetActualScale | src/utils/getActualScales.ts:16-17 | the live scales copy the input domains, and are defined whenever those domains are |
| Scales.ForwardEndpoints | src/utils/getActualScales.ts:16-17 | a scale sends the ends of its domain to the ends of its range |
| Scales.ActualScaleEndpoints | src/utils/getActualScales.ts:16-17 | x sends `domain[0]` to `margin.left` and `domain[1]` to `width - margin.right`; y sends `domain[0]` to `height - margin.bottom` and `domain[1]` to `margin.top` |
| Scales.ActualScaleIgnoresRanges | src/utils/getActualScales.ts:16-17 | the input scales' ranges have no effect on the result |
| Scales.InvertForward | src/utils/getActualScales.ts:16-17 | for a non-degenerate domain and range, `invert(forward(v)) == v` |
| Scales.ForwardInvert | src/utils/getActualScales.ts:16-17 | for a non-degenerate domain and range, `forward(invert(p)) == p` |
| Scales.ForwardIsAffine | src/utils/getActualScales.ts:16-17 | differences of the forward map are the data differences times range width over domain width |
| Scales.ForwardIncreasing | src/utils/getActualScales.ts:16 | with an increasing domain and range, the map is strictly increasing |
| Scales.ForwardDecreasing | src/utils/getActualScales.ts:17 | with an increasing domain and a decreasing range, the map is strictly decreasing |
| Scales.ActualScaleOrientation | src/utils/getActualScales.ts:16-17 | with `d0 < d1`, live x is strictly increasing when `width - right > left`, and live y is strictly decreasing when `height - bottom > top` |
| Scales.ForwardOfInvert | src/utils/drawDynamicLayer.ts:77-80 | inverting a pixel through the reference scale and mapping it forward through the live one is the affine map `Through(live, ref)` |
| Scales.ForwardThrough | src/utils/drawDynamicLayer.ts:69-80 | a data value's live pixel is its reference pixel taken through `Through(live, ref)` |
| UsePolygon.ColorFor | src/hooks/usePolygon.ts:63 | the colour is one of the ten palette entries |
| UsePolygon.ColorRepeats | src/hooks/usePolygon.ts:63 | the colour of the selection made after ten more is the same: the palette cycles with period ten |
| UsePolygon.NatToString | src/hooks/usePolygon.ts:54 | a non-empty string of decimal digits, with no leading zero unless the number is 0 |
| UsePolygon.NatToStringReadsBack | src/hooks/usePolygon.ts:54 | the digits read back as the number printed |
| UsePolygon.FallbackLabel | src/hooks/usePolygon.ts:54 | `"Group"` followed by the decimal digits of `count + 1` |
| UsePolygon.ChooseLabel | src/hooks/usePolygon.ts:52-54 | the prompt's answer when it is a non-empty string, else the fallback; never empty, and the answer is not trimmed, checked or deduplicated |
| UsePolygon.ClosurePosition | src/hooks/usePolygon.ts:40-46 | plot A places a point by CD45-KrO / SS INT LIN through `xA`, `yA`; plot B places it by CD19-PB / SS INT LIN through `xB`, `yB` |
| UsePolygon.Classify | src/hooks/usePolygon.ts:36-50 | the indices are strictly increasing and lie below the data length, and `i` is among them exactly when the polygon contains point `i`'s pixel on the active plot |
| UsePolygon.ClosedPolygon | src/hooks/usePolygon.ts:34 | the buffer followed by its first point; it contains exactly what the buffer contains |
| UsePolygon.NewSelection | src/hooks/usePolygon.ts:56-69 | label as chosen, colour `colors[count % 10]`, `visible == true`, `sourcePlot` the gesture's plot, the closed polygon on that plot and `[]` on the other, and indices as classified |
| UsePolygon.PolygonHook.constructor | src/hooks/usePolygon.ts:27-29 | empty buffer, plot A, drawing mode off |
| UsePolygon.PolygonHook.SetDrawingMode | src/hooks/usePolygon.ts:29 | sets the mode and nothing else, so turning it off keeps the buffer |
| UsePolygon.PolygonHook.HandleClick | src/hooks/usePolygon.ts:85-107 | outside drawing mode nothing changes. Otherwise the clicked plot becomes active and the buffer is kept. An empty buffer becomes `[(x, y)]`. A non-empty buffer grows by its first point exactly when it has more than two points and the click is strictly within 10 px of the first; otherwise it grows by the click |
| UsePolygon.PolygonHook.ClosePolygon | src/hooks/usePolygon.ts:31-83 | an empty buffer changes nothing; otherwise exactly one selection is appended after the unchanged earlier entries, and the buffer is emptied |
| UsePolygon.PolygonHook.Click | src/hooks/usePolygon.ts:93-100 | a closing click appends the selection built from the buffer and the plot as they were before the click, then empties the buffer; any other click leaves the list unchanged |
| PolygonPanel.LeadingSpaces | src/components/PolygonPanel.tsx:40 | every character before the count is white space, and the character at the count is not |
| PolygonPanel.TrailingSpaces | src/components/PolygonPanel.tsx:40 | every character in the counted tail is white space, and the character just before it is not |
| PolygonPanel.Trim | src/components/PolygonPanel.tsx:40 | the result is a slice of the input that neither starts nor ends with white space, and everything cut off on either side is white space |
| PolygonPanel.TrimPlain | src/components/PolygonPanel.tsx:40 | a text that neither starts nor ends with white space is its own trim |
| PolygonPanel.TrimIdempotent | src/components/PolygonPanel.tsx:40 | trimming twice is trimming once |
| PolygonPanel.EditDecision | src/components/PolygonPanel.tsx:39-52 | the edit is invalid exactly when the trimmed text fails the pattern; it is a duplicate exactly when the text passes the pattern and another slot already has that exact label; it is accepted otherwise, and the stored label is the trimmed text |
| PolygonPanel.RelabeledAt | src/components/PolygonPanel.tsx:53-57 | same length, other slots unchanged, and slot `idx` differs only in its label |
| PolygonPanel.RelabelUpdater | src/components/PolygonPanel.tsx:53-57 | the copy-and-overwrite updater returns exactly the relabelled list |
| PolygonPanel.RemoveAt | src/components/PolygonPanel.tsx:35 | an in-range slot is cut out with the rest in order; an out-of-range index leaves the list as it was |
| PolygonPanel.RemoveAtShifts | src/components/PolygonPanel.tsx:35 | removal shortens the list by one; entries before the slot stay put and later entries move down by one |
| PolygonPanel.RenameKeepsLabelsDistinct | src/components/PolygonPanel.tsx:42-57 | if the labels are pairwise distinct before an accepted edit, they still are after it |
| PolygonPanel.RenamedLabelIsClean | src/components/PolygonPanel.tsx:40-41 | an accepted label is non-empty, already trimmed and matches the pattern |
| PolygonPanel.OwnLabelAccepted | src/components/PolygonPanel.tsx:42-44 | with distinct labels, confirming a slot's own clean label is accepted: the slot is not compared with itself |
| PolygonPanel.TrimTrailingSpaceExample | src/components/PolygonPanel.tsx:40 | `"A "` trims to `"A"` |
| PolygonPanel.DuplicateExample | src/components/PolygonPanel.tsx:42-51 | with labels A and B, renaming slot 1 to `"A"` is refused as a duplicate |
| PolygonPanel.TrimmedDuplicateExample | src/components/PolygonPanel.tsx:40-51 | renaming slot 1 to `"A "` trims to `"A"` and is still refused |
| PolygonPanel.AcceptedExample | src/components/PolygonPanel.tsx:40-57 | `"C-1"` is accepted |
| PolygonPanel.InvalidExample | src/components/PolygonPanel.tsx:41-49 | `"a!"` fails the pattern |
| PolygonPanel.PolygonPanel.constructor | src/components/PolygonPanel.tsx:18-19 | no slot is being edited, and the input text is empty |
| PolygonPanel.PolygonPanel.ToggleVisibility | src/components/PolygonPanel.tsx:21-30 | the list becomes the toggled list |
| PolygonPanel.PolygonPanel.DeleteSelection | src/components/PolygonPanel.tsx:32-37 | a confirmed delete removes the slot; an unconfirmed one leaves the list unchanged |
| PolygonPanel.PolygonPanel.StartEdit | src/components/PolygonPanel.tsx:140-143 | the slot becomes the one being edited, and the input is seeded with its current label |
| PolygonPanel.PolygonPanel.ChangeLabel | src/components/PolygonPanel.tsx:114 | the input text becomes what was typed |
| PolygonPanel.PolygonPanel.ConfirmEdit | src/components/PolygonPanel.tsx:39-60 | the outcome is the edit decision. An accepted edit relabels the slot and ends editing. A refused edit leaves the list and the edited slot as they were |
| PolygonPanel.PolygonPanel.KeyDown | src/components/PolygonPanel.tsx:62-71 | Enter confirms: the outcome is the edit decision, an accepted edit relabels the slot and ends editing, and a refused one leaves the list and the edited slot as they were. Escape ends editing without touching the list; any other key changes nothing |
| PolygonPanel.PolygonPanel.ToggleDrawingMode | src/components/PolygonPanel.tsx:83 | the mode button flips drawing mode |
| SelectionsControl.SelectionControls.constructor | src/components/SelectionsControl.tsx:9-12 | the widget works on the page's list |
| SelectionsControl.SelectionControls.Click | src/components/SelectionsControl.tsx:18-27 | a button click replaces the list by the toggled list |
| SelectionsControl.DimmedMatchesHidden | src/components/SelectionsControl.tsx:23-30 | a button is dimmed exactly when its selection is hidden, and a click dims it exactly when its flag was `true` |
| DrawStaticLayer.AxisPolyline | src/utils/drawStaticLayer.ts:40-45 | the axis has three vertices; where they lie is stated by `DrawStaticLayer.AxisFollowsScales` |
| DrawStaticLayer.AxisFollowsScales | src/utils/drawStaticLayer.ts:38-44 | the axis runs (left, top), (left, height - bottom), (width - right, height - bottom), which are the live scales' images of the domain ends |
| DrawStaticLayer.GrayPass | src/utils/drawStaticLayer.ts:86-93 | the loop over the data yields the dots of the unselected indices, in ascending order, at their live positions |
| DrawStaticLayer.GrayStep | src/utils/drawStaticLayer.ts:86-93 | one loop step adds data point `i`'s dot exactly when `i` is not selected |
| DrawStaticLayer.BuildStaticLayer | src/utils/drawStaticLayer.ts:28-95 | the buffer is `(width * ratio)` by `(height * ratio)`, the axis is the axis polyline, and the gray dots are those of the indices outside the shown selections, placed by the live scales |
| DrawStaticLayer.GrayIsComplement | src/utils/drawStaticLayer.ts:82-93 | the gray indices ascend, and `i` is gray exactly when `i < n` and no shown selection holds it |
| DrawStaticLayer.HidingTurnsGray | src/utils/drawStaticLayer.ts:82-87 | an index of a shown selection is not gray; after that selection is hidden, the index is gray exactly when no other shown selection holds it |
| DrawDynamicLayer.Rebase | src/utils/drawDynamicLayer.ts:69-81 | the output has the input's length, and when the live scales equal the reference scales (a 450 by 450 plot), rebasing is the identity |
| DrawDynamicLayer.RebaseIsAffine | src/utils/drawDynamicLayer.ts:69-81 | with shared domains, rebasing applies one axis-wise affine map to every vertex |
| DrawDynamicLayer.RebaseMapIncreasing | src/utils/drawDynamicLayer.ts:69-76 | when the live plot and the reference plot are both larger than their margins, that map is increasing on both axes |
| DrawDynamicLayer.RebasePreservesMembership | src/utils/drawDynamicLayer.ts:69-81 | a data point's live pixel is inside the rebased polygon exactly when its 450-px reference pixel is inside the stored one |
| DrawDynamicLayer.AnchorFollowsRebase | src/utils/drawDynamicLayer.ts:93-94 | the label anchor of the rebased polygon is the rebased anchor of the stored polygon |
| DrawDynamicLayer.Highlights | src/utils/drawDynamicLayer.ts:56-64 | one highlight per dot |
| DrawDynamicLayer.LayerMarksSlots | src/utils/drawDynamicLayer.ts:53-101 | a mark is on the layer exactly when it is one of the marks of the selection in its slot |
| DrawDynamicLayer.HighlightIff | src/utils/drawDynamicLayer.ts:53-64 | index `i` is highlighted for slot `k` exactly when slot `k` is shown and holds `i`; this holds even when its polygon for this plot is empty |
| DrawDynamicLayer.HighlightOf | src/utils/drawDynamicLayer.ts:56-64 | each index of a shown selection has its highlight on the layer |
| DrawDynamicLayer.HighlightSource | src/utils/drawDynamicLayer.ts:56-60 | a highlight is of an index of a shown selection, in the selection's colour, at the index's live position |
| DrawDynamicLayer.OutlineIff | src/utils/drawDynamicLayer.ts:66-67 | slot `k` is outlined exactly when it is shown and has a non-empty polygon for this plot |
| DrawDynamicLayer.OutlineSource | src/utils/drawDynamicLayer.ts:66-100 | an outline is its selection's polygon for this plot, rebased and in the selection's colour; a caption is the selection's label at the vertex mean of the rebased polygon |
| DrawDynamicLayer.OutlineOf | src/utils/drawDynamicLayer.ts:83-91 | a shown selection with a polygon for this plot has its outline on the layer |
| DrawDynamicLayer.NotHighlightIsOutline | src/utils/drawDynamicLayer.ts:66-100 | a selection's marks other than highlights come from its outline step, which only runs for a shown selection |
| DrawDynamicLayer.GrayOrHighlighted | src/utils/drawDynamicLayer.ts:53-64 | a data point is gray on the static layer exactly when no selection highlights it on the dynamic layer |
| DrawDynamicLayer.HighlightPass | src/utils/drawDynamicLayer.ts:57-64 | the index loop yields one highlight per index, in list order |
| DrawDynamicLayer.SelectionPass | src/utils/drawDynamicLayer.ts:53-101 | one step of the per-selection loop yields that selection's marks: none when hidden, otherwise its highlights followed by its outline and caption |
| DrawDynamicLayer.LayerMarksStep | src/utils/drawDynamicLayer.ts:53-101 | the marks of a list prefix grow by the next selection's marks |
| DrawDynamicLayer.DrawDynamic | src/utils/drawDynamicLayer.ts:41-114 | the pass draws the static layer unchanged, then the marks of the list in list order (live scales rebased from the 450-px reference), then the in-progress polyline exactly when it is due |
| Plot.UnselectedIff | src/components/Plot.tsx:94-102 | gray dots are exactly the data points outside every shown selection, once each, in ascending order, at their positions |
| Plot.SvgOutline | src/components/Plot.tsx:104-131 | a selection draws an outline and label exactly when it is shown and has a non-empty polygon for this plot; the outline is that polygon as stored, and the label sits at its vertex mean |
| Plot.SvgOutlinesSlots | src/components/Plot.tsx:104-132 | a mark is in the outline pass exactly when it belongs to the selection of its slot |
| Plot.SvgOutlineIff | src/components/Plot.tsx:104-132 | slot `k` is outlined exactly when it is shown with a non-empty polygon for this plot, with that polygon's vertices, its label and its vertex mean |
| Plot.SvgSelectedSource | src/components/Plot.tsx:134-146 | every selected dot of a selection is in its colour and is one of its in-range indices |
| Plot.SanitizeLabel | src/components/Plot.tsx:19-20 | `btoa` throws exactly when the label has a character above U+00FF; otherwise the name is `label-` followed only by ASCII letters, digits and `_` |
| Plot.ClassCollision | src/components/Plot.tsx:19-20 | `"ab>"` and `"ab?"` differ, yet both get the class `selected-dots-label-YWI_` |
| Plot.WideSpaceLabel | src/components/PolygonPanel.tsx:40-41 | `"a"`, an ideographic space, `"b"` is its own trim and passes the rename pattern, yet `btoa` refuses it |
| Plot.FirstThrow | src/components/Plot.tsx:134-136 | the first shown slot whose label `btoa` refuses, or the list length; every shown slot before it has a class |
| Plot.JoinPassThrows | src/components/Plot.tsx:134-146 | the selected-dot pass throws exactly when some shown selection's label has no class |
| Plot.JoinPassStops | src/components/Plot.tsx:134-146 | after the throwing slot the pass adds nothing: the circles are those left before it |
| Plot.JoinPassClasses | src/components/Plot.tsx:136-141 | every circle in a class belongs to a selection whose label has that class, and is one of that selection's dots |
| Plot.JoinPassSurvivor | src/components/Plot.tsx:136-141 | a circle left in a class belongs to a slot that no later shown selection of the same class follows |
| Plot.JoinPassKeeps | src/components/Plot.tsx:136-141 | the dots of a selection no later shown selection shares a class with stay, in its class |
| Plot.JoinPassSlots | src/components/Plot.tsx:134-146 | over slots that do not throw, a dot is drawn exactly when it is a dot of its slot's selection and no later shown selection has the same class |
| Plot.PassLeavesReached | src/components/Plot.tsx:134-146 | the whole pass leaves the circles it had at the first throwing slot, and it throws exactly when there is one |
| Plot.SvgSelectedIff | src/components/Plot.tsx:134-146 | slot `k` draws index `i` exactly when the pass gets past `k`, slot `k` is shown and holds `i`, `i` is a data index, and no later shown selection the pass reaches has the same class |
| Plot.SvgSelectedOf | src/components/Plot.tsx:134-146 | such an index has its circle, in its selection's colour at its position under the page's scales |
| Plot.LaterSameLabelTakesOver | src/components/Plot.tsx:136-140 | of two shown selections with the same label, the earlier keeps no circle |
| Plot.SelectedOrderMatchesIndices | src/components/Plot.tsx:139 | for ascending in-range indices, the data-order filter yields exactly the selection's index list |
| Plot.DrawPlot | src/components/Plot.tsx:44-156 | nothing is drawn without data. Otherwise the render holds the gray, outline and selected passes; it runs to the end exactly when every shown label has a class, and only then draws the gesture polyline |
| Plot.ForwardedClick | src/components/Plot.tsx:158-162 | a click reaches the hook exactly when a render that ran to its end installed the handler and drawing mode is on, with its pointer coordinates and this plot |
| Plot.ClickAfterRender | src/components/Plot.tsx:44-45 | after a render, a click reaches the hook exactly when there is data, every shown label encodes, and drawing mode is on |
| CanvasPlot.SideFor | src/components/CanvasPlot.tsx:50-52 | the side never exceeds 450, equals the container width up to 450, and has no lower bound |
| CanvasPlot.PixelRatio | src/components/CanvasPlot.tsx:40-41 | the device pixel ratio when there is a window and it is truthy, else 1; never 0 |
| CanvasPlot.ElementSize | src/components/CanvasPlot.tsx:137-142 | the CSS box is the plot size, and the backing store is the box times the ratio |
| CanvasPlot.CanvasPlot.constructor | src/components/CanvasPlot.tsx:37-38 | 450 by 450, with no static layer yet |
| CanvasPlot.CanvasPlot.Resize | src/components/CanvasPlot.tsx:48-53 | width and height both become `min(containerWidth, 450)` |
| CanvasPlot.CanvasPlot.RebuildStaticLayer | src/components/CanvasPlot.tsx:60-83 | the cached layer is replaced by the static layer of the current size |
| CanvasPlot.CanvasPlot.RedrawDynamic | src/components/CanvasPlot.tsx:85-117 | the dynamic pass runs exactly when a static layer exists, over that layer at the current size |
| CanvasPlot.CanvasPlot.HandleCanvasClick | src/components/CanvasPlot.tsx:119-125 | outside drawing mode the click is dropped and nothing changes. Otherwise the hook receives `(clientX - rect.left, clientY - rect.top)` on this plot. A closing click appends the selection built from the buffer and plot as they were before it and empties the buffer; any other click leaves the list unchanged |

## Left out

- Canvas and SVG drawing calls are not modelled: `arc`, `stroke`, `fillText`, fonts, line and point widths
  (`Math.max(1, width / 400)` and similar), dash patterns, `d3.axis*` and tick labels
  (`ticks(5)`). A pass returns the dots, marks and polylines it would draw, in drawing order.
- Canvas state is not modelled. The `getContext` null check is left out, and so are the
  `setTransform(ratio, ...)` scaling and the `drawImage` of the static buffer; the last is modelled
  as the dynamic layer's background.
- `d3.polygonContains` is not part of this model. Containment is the standard even-odd crossing
  test over the reals.
- Points exactly on an edge are not specified.
- d3 scales beyond the linear formula are not modelled. Degenerate domains and ranges (zero
  width) are prevented by `requires` instead of following d3's fallback.
- All arithmetic is over mathematical reals. IEEE rounding, NaN and infinities are not
  modelled, so the scale round trips are exact here but only approximate in the browser.
- Canvas backing-store sizes are real products. The browser's integer truncation of
  `width * ratio` is not modelled.
- `Math.hypot(dx, dy) < 10` is modelled as `dx*dx + dy*dy < 100`, which is equivalent over the
  reals.
- `prompt`, `alert` and `window.confirm` are inputs. The prompt's answer is an `Option<string>`,
  and the confirmation is a `bool`. An alert is the refusal outcome of `EditDecision`.
- React scheduling is not modelled: the `setTimeout` deferral, batched state updates and
  `useEffect` dependency lists. `UsePolygon.PolygonHook.Click` performs the click, then closure,
  as one step. The stale closure (closure sees the buffer and active plot from before the click) is
  modelled by passing those values in.
- `closePolygon` reads the list length from its closure (`selections?.length`) for the fallback
  label, and from the updater's `prev` for the colour. Without concurrent updates, both are the
  list length before the append, and the model uses that one value.
- `confirmEdit` checks duplicates against the rendered `selections` and updates through `prev`.
  The model uses the current list for both.
- `d3.schemeCategory10` is a library constant, not in the source. Its ten published values
  are written out in `UsePolygon.Palette`.
- The SVG plot's selected circles are kept per class, without order. The document order that
  d3's `join` and `order` give them is not modelled, and so neither is which colour ends up on top
  where circles overlap.
- What React does with an error thrown from the render effect is not modelled. A render cut short
  by `btoa` is modelled as far as it got (`Plot.DrawPlot`).
- Plot.ForwardedClick: covers only the handler the latest render installed. A render that returns
  early (no data) or throws installs none, so a handler from an earlier complete render stays on
  the svg. It forwards clicks with that render's `isDrawingMode` and `handleClick`.
- `useCsvData.ts`, `PolygonToolButton.tsx` and `Loader.tsx` are not part of this model. Nor is the
  layout of `page.tsx`: its scale domains and ranges are parameters.
- The resize listener registration and the `devicePixelRatio` lookup are not modelled. The
  container width, window presence and reported ratio are parameters.
- PolygonPanel.PolygonPanel.ToggleVisibility: requires an in-range slot. The widget only offers
  rendered slots. For an out-of-range index, `!updated[index].visible` reads a property of
  `undefined`, so the updater throws a TypeError before writing anything; the model does not cover that.
- SelectionsControl.SelectionControls.Click: requires an in-range slot. Its updater throws the
  same TypeError for an out-of-range index.
- PolygonPanel.PolygonPanel.ConfirmEdit: requires an in-range slot. For an out-of-range index,
  `{ ...updated[idx], label }` would write a partial entry past the end of the array; the model
  does not cover that.
- PolygonPanel.PolygonPanel.StartEdit: requires an in-range slot. It reads that slot's label.
- DrawDynamicLayer.DrawDynamic requires every index of every shown selection to name a data point
  (`Drawable`). In the source, `data[i]` for an out-of-range `i` makes the pass throw. The SVG
  plot's selected-dot filter skips such indices, and the model keeps that difference
  (`Plot.SvgSelectedIff` has `i < |data|` among its conditions).
- Types.FilterIndices: its own contract states only the range bound. Its ordering and membership
  are stated in `Types.FilterIndicesMembers`.
- Scales.DotsAt: its own contract states only the length. Positions are stated by the
  lemmas about the passes that use it.
- DrawDynamicLayer.Highlights: its own contract states only the length. Colours and positions
  are stated by `DrawDynamicLayer.HighlightSource`.
- Helper lemmas that only serve other proofs have no row: arithmetic rescaling, the crossing-count
  steps, the coordinate sums, and the per-axis centroid lemmas.

### Behaviour modelled as the code has it

- The closure label is taken as typed. It is not trimmed, not checked against the pattern and
  not compared with existing labels (`UsePolygon.ChooseLabel`).
- Labels pick their circles' class through `btoa`, and the selected-dot join has no key. A later
  shown selection with the same class takes over an earlier one's circles, which are then drawn
  at its points in its colour (`Plot.SvgSelectedIff`, `Plot.LaterSameLabelTakesOver`). Closure labels are
  not deduplicated, so two selections can share a label. Distinct labels can also share a class,
  since `+`, `/` and `=` all become `_`: `"ab>"` and `"ab?"` do (`Plot.ClassCollision`).
- A shown label with a character above U+00FF makes `btoa` throw in the selected-dot pass. The
  render stops there: no later selection's dots, no gesture polyline and no click handler
  (`Plot.DrawPlot`, `Plot.ClickAfterRender`). Such a label can come from the prompt, and also from
  a rename: the pattern's `\s` admits white space above U+00FF (`Plot.WideSpaceLabel`).
- A click on the other plot mid-gesture keeps the buffer and only changes the active plot
  (`UsePolygon.PolygonHook.HandleClick`).
- Turning drawing mode off does not clear the buffer (`UsePolygon.PolygonHook.SetDrawingMode`).
- Resizing clamps the side to at most 450 and has no lower bound, so a zero or negative container
  width passes through (`CanvasPlot.SideFor`).
- Rebasing assumes the stored vertices were captured on a 450 by 450 plot
  (`DrawDynamicLayer.ReferenceSize`). The page itself classifies at 500 by 500 through the SVG
  `Plot` (src/app/page.tsx:17-36). The page renders only the SVG plot
  (src/app/page.tsx:62), so the canvas path is modelled as written but is not wired in.
