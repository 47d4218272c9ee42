# VisualUV overlay core in Dafny

VisualUV is a Blender add-on. It draws an overlay over a mesh in the 3D
viewport and in the UV editor. The overlay shows one of these:

- UV stretching, measured by angles, by area or by edge length;
- coloured UV islands;
- flipped UV normals;
- overlapping UVs.

An optional exploded view moves every UV island along its own direction.
This project models the add-on's computational core. That is everything that
decides which numbers end up in the overlay's vertex buffers, and which
colour the shaders make of them:

- `settings.dfy` (`Settings`): the per-object properties and their update
  hook. The hook ties `enabled` and `recalculate` to the operation and the
  checker texture.
- `toggle.dfy` (`Toggle`): the toggle buttons. Pressing one turns the overlay
  on with that operation, switches to it, or switches it off.
- `shading.dfy` (`Shading`): the shaders' colour mapping. This covers the
  stretch ratio (`get_division`), its normalisation against the sensitivity
  (`normalized_value`), the colour scalar, the hue, and the transparency of
  negative values in the UV editor.
- `islands.dfy` (`Islands`): island hues spread evenly over (0, 1], and the
  explosion directions.
- `overlap.dfy` (`Overlap`): labelling of overlapping polygons and their colour.
- `metrics.dfy` (`Metrics`): the angle, area and edge-length metrics and the
  per-polygon accumulators they feed.
- `dispatch.dfy` (`Dispatch`): `recalc_triangle_input`, the choice of a
  triangle's input by operation.
- `packer.dfy` (`Packer`): the packing loop of `recalculate_info`. It fills
  the mesh, wireframe and UV-editor buffers.
- `pipeline.dfy` (`Pipeline`): one whole `recalculate_info`. It serves the
  overlap-selection request, clears the flags, relabels, colours the islands
  and packs.
- `geometry.dfy` (`Geometry`, `Wrappers`) and `mesh.dfy` (`MeshData`):
  vectors, the numeric primitives, `Option`, and the index-based mesh.

Modelling choices:

- **Numeric primitives are parameters.** Vector normalisation, length, angle,
  triangle area and the UV normal's z are fields of a `Numerics` value. Only
  `Metrics.GetAnglesCollapsed` assumes anything of them: that the zero vector
  has length 0.
- **Accumulator aliasing is explicit.** The code hands a triangle's corners
  the accumulator vector itself. Later triangles of the same polygon keep
  mutating that vector, and the GPU buffers are filled after the pass. So a
  corner's input is recorded as a handle (`Metrics.InputRef`), resolved
  against the accumulators at the end of the pass.
- **Parallel lists become records.** The code keeps parallel Python lists.
  They are kept here as one sequence of records per buffer family.
- **Empty-vector tests are presence tests.** A test such as
  `if self.areas.get(key)` on a vector is modelled as a test for the key's
  presence.

## Model

Some definitions have no row of their own: they are what the listed rows
characterise. `Packer.Step` and `Packer.PackFold` are the loop body and the
loop (visual_uv/visualuv_ops.py:429-489), described by the `Packer.Pack*`
rows. `Islands.AssignFrom` and `Islands.Centroid` are the island loop and the
centroid (208-223 and 215), described by the `Islands.AssignFrom*` rows.
`Metrics.EdgeRatios` and `Metrics.CornerAngle` are the ratio list and the
corner angle (289-300 and 324-337), described by the `Metrics.EdgeRatio*` and
`Metrics.GetAngles*` rows.

| member | source | states |
|---|---|---|
| Settings.OperationEnumIsFive | visual_uv/visualuv_props.py:112-122 | the operation enum has exactly five distinct values; each is numbered 1..5 and the numbering round-trips |
| Settings.OperationFromNumber | visual_uv/visualuv_props.py:112-122 | a number names an operation exactly when it is in 1..5, and it is then that operation's number |
| Settings.UpdateFunc | visual_uv/visualuv_props.py:133-136 | after the hook, `recalculate` equals `enabled`; `enabled` holds iff the operation is not NONE or the checker texture is on; nothing else changes |
| Settings.UpdateFuncIdempotent | visual_uv/visualuv_props.py:133-136 | running the hook twice is the same as running it once |
| Settings.SetOperation | visual_uv/visualuv_props.py:112-136 | writing the operation runs the hook: the new operation is stored and the settings are consistent afterwards |
| Toggle.ToggleOperation | visual_uv/visualuv_ops.py:135-149 | with no UV map nothing happens; otherwise the overlay shows the operation unless it already showed it (then NONE), and the operator starts exactly when the overlay was off |
| Toggle.ToggleKeepsConsistent | visual_uv/visualuv_ops.py:135-149 | a toggle keeps `enabled` in agreement with the settings |
| Toggle.ToggleTwiceRestores | visual_uv/visualuv_ops.py:135-149 | pressing the shown operation's button twice shows it again, with the overlay on |
| Toggle.SwitchKeepsOverlayOn | visual_uv/visualuv_ops.py:135-149 | switching to another operation leaves the overlay on and starts no operator |
| Toggle.ToggleSelected | visual_uv/visualuv_ops.py:137-149 | every selected object is toggled independently, in order |
| Shading.GetDivision | visual_uv/visualuv_shaders.py:14-26 | the ratio is 0 when either side is 0; for positive sides it is max/min and at least 1 |
| Shading.GetDivisionSymmetric | visual_uv/visualuv_shaders.py:14-26 | the ratio does not depend on argument order |
| Shading.NormalizedValue | visual_uv/visualuv_shaders.py:28-38 | values at or above the maximum map to 0 (red); a ratio of 1 maps to blue, 2/3 |
| Shading.NormalizedValueRange | visual_uv/visualuv_shaders.py:31-37 | on [1, max] the result lies in [0, 2/3] |
| Shading.NormalizedValueDecreasing | visual_uv/visualuv_shaders.py:31-37 | the result never grows as the ratio grows, and strictly falls below the clamp |
| Shading.ColourScalar | visual_uv/visualuv_shaders.py:80-88 | with a sensitivity set the scalar is the normalised ratio of the pair, otherwise the first component; an undistorted pair is blue |
| Shading.DegeneratePairBeyondBlue | visual_uv/visualuv_shaders.py:14-37 | a pair with a zero side is mapped above blue, off the stretching scale |
| Shading.MaxDivisionUniform | visual_uv/visualuv_ops.py:668 | the sensitivity uniform is positive exactly for the stretching overlay; because of the property's minimum of 1.01 it is never 1, so the normalisation never divides by zero |
| Shading.ShaderHue | visual_uv/visualuv_shaders.py:210 | the hue lies in [0, 1) |
| Shading.ShaderHueIsFraction | visual_uv/visualuv_shaders.py:210 | the hue is the fractional part of (scalar + 0.001) · multiply + shift: for every whole number n, the hue equals that value minus n exactly when the difference lies in [0, 1) |
| Shading.ShaderHueWholeTurn | visual_uv/visualuv_shaders.py:210 | raising the hue shift by 1 leaves every hue unchanged |
| Shading.UvVertexColour | visual_uv/visualuv_shaders.py:198-218 | a UV-editor vertex is fully transparent exactly when its colour scalar is negative; otherwise it gets the user's saturation, value and alpha |
| Shading.NegativeSentinelIsTransparent | visual_uv/visualuv_shaders.py:211-214 | the (-1, 0) sentinel is invisible in the UV editor outside the stretching overlay |
| Islands.ExplosionDirection | visual_uv/visualuv_ops.py:217-221 | the direction is +Z exactly when the centroid is the object location, and the normalised offset otherwise |
| Islands.PaintIsland | visual_uv/visualuv_ops.py:211-213 | every polygon of the island gets (hue, 0), and with explosion on the island's direction; other entries keep their values |
| Islands.RunningHueClosedForm | visual_uv/visualuv_ops.py:202-210 | after k islands the running hue is start + k·step |
| Islands.AssignFromKeys | visual_uv/visualuv_ops.py:208-223 | the island loop adds colour keys for exactly the island polygons, and direction keys for them only with explosion on |
| Islands.AssignFromIsland | visual_uv/visualuv_ops.py:208-223 | with disjoint islands, a polygon of the j-th island ends with that island's running hue and direction |
| Islands.RecalculatePolyIslands | visual_uv/visualuv_ops.py:198-223 | colour keys gain exactly the island polygons, direction keys only with explosion; with no islands nothing changes |
| Islands.RecalculateKeepsOthers | visual_uv/visualuv_ops.py:198-223 | a polygon in no island keeps its colour and direction |
| Islands.IslandHueAndDirection | visual_uv/visualuv_ops.py:202-223 | every polygon of island j of n gets hue (j+1)/n, and with explosion on its island's direction from the centroid |
| Islands.HueRange | visual_uv/visualuv_ops.py:202-210 | for any number of islands, one included, every hue lies in (0, 1] and the last is exactly 1 |
| Islands.HuesIncrease | visual_uv/visualuv_ops.py:202-210 | a later island gets a strictly larger hue than an earlier one |
| Islands.IslandColoursPositive | visual_uv/visualuv_ops.py:198-213 | after the island pass every island polygon's colour value lies in (0, 1] |
| Overlap.OverlapLabels | visual_uv/visualuv_ops.py:225-233 | a labelling holds only `true` values |
| Overlap.LabelOverlapped | visual_uv/visualuv_ops.py:225-233 | a polygon is labelled iff every one of its loops is selected in the UV map |
| Overlap.RecalculateUvOverlap | visual_uv/visualuv_ops.py:243-246 | a triangle gets blue (2/3, 0) or the (-1, 0) sentinel and nothing else |
| Overlap.OverlapColourIff | visual_uv/visualuv_ops.py:225-246 | after labelling, a triangle is blue iff all loops of its polygon are selected, and the sentinel otherwise |
| Overlap.RecalculateUvOverlapAsWritten | visual_uv/visualuv_ops.py:243-246 | reading the labels raises exactly when no labelling has run on the operator |
| Overlap.UnlabelledOperatorRaises | visual_uv/visualuv_ops.py:244 | without a labelling pass the first overlap triangle raises |
| Overlap.CorrectedOverlapAgrees | visual_uv/visualuv_ops.py:225-246 | with labels created empty, an unlabelled operator shows nothing, and otherwise it agrees with the code |
| Metrics.Edges | visual_uv/visualuv_ops.py:258-263 | edge i runs from corner i to corner i+1, wrapping around |
| Metrics.GetAngles | visual_uv/visualuv_ops.py:324-337 | the angle at each corner is measured between the edges to the next and previous corners, and is 0 when either edge has zero length |
| Metrics.GetAnglesRotation | visual_uv/visualuv_ops.py:324-337 | rotating the triangle's corners rotates its angles the same way |
| Metrics.GetAnglesCollapsed | visual_uv/visualuv_ops.py:327-335 | a triangle collapsed to a point has all angles 0 |
| Metrics.EdgeRatio | visual_uv/visualuv_ops.py:296-300 | the per-edge ratio is 0 if either length is 0, otherwise max/min ≥ 1 |
| Metrics.EdgeRatioIsShaderDivision | visual_uv/visualuv_ops.py:296-300 | the Python edge ratio equals the shaders' `get_division` |
| Metrics.EdgeRatioNotBelowOne | visual_uv/visualuv_ops.py:296-300 | for lengths that are not negative, a ratio is never in (0, 1) |
| Metrics.FoldLength | visual_uv/visualuv_ops.py:296-301 | folding ratios never changes the accumulator's y, and folding none changes nothing |
| Metrics.FoldLengthThree | visual_uv/visualuv_ops.py:296-301 | three folded ratios weigh 1/8, 1/4 and 1/2 and the old value 1/8, so the last edge counts most |
| Metrics.FoldLengthBounds | visual_uv/visualuv_ops.py:296-301 | the folded value stays in any interval that holds the old value and every ratio |
| Metrics.FoldLengthOrderMatters | visual_uv/visualuv_ops.py:296-301 | the fold depends on the edge order |
| Metrics.ReconstructScales | visual_uv/visualuv_ops.py:265-273 | scaling all three sides by k scales every rebuilt corner by k, so proportional sides rebuild similar triangles |
| Metrics.AreaPair | visual_uv/visualuv_ops.py:257-276 | triangles with the same normalised side proportions give equal mesh and UV areas |
| Metrics.AddArea | visual_uv/visualuv_ops.py:277-285 | the first visit of a polygon creates its area entry, later visits add componentwise; other entries and the other sums are untouched |
| Metrics.AddAngle | visual_uv/visualuv_ops.py:313-320 | the same for a (vertex, polygon) angle key |
| Metrics.AddLengths | visual_uv/visualuv_ops.py:292-302 | a polygon's length accumulator starts at (0, 1) and is folded with the triangle's ratios; its y stays as it was; other polygons are untouched |
| Metrics.AddAreaCommutes | visual_uv/visualuv_ops.py:279-285 | area sums do not depend on the visiting order |
| Metrics.AddAngleCommutes | visual_uv/visualuv_ops.py:314-320 | angle sums do not depend on the visiting order |
| Metrics.AreaStretching | visual_uv/visualuv_ops.py:257-286 | the area pair is added to the polygon's sums, and all three corners show that polygon's sum |
| Metrics.EdgeLengthStretching | visual_uv/visualuv_ops.py:288-303 | the three edge ratios are folded into the polygon's accumulator, and all three corners show it |
| Metrics.AngleStretching | visual_uv/visualuv_ops.py:305-322 | corner i shows the sums of its (vertex, polygon) key; area and length sums are untouched |
| Metrics.AngleStretchingAddsCornerAngles | visual_uv/visualuv_ops.py:305-322 | with three distinct vertices, each key gains exactly its corner's (mesh angle, UV angle) |
| Dispatch.UvNormalColour | visual_uv/visualuv_ops.py:239-241 | blue iff the UV normal's z is not negative, red iff it is negative |
| Dispatch.RecalcTriangleInput | visual_uv/visualuv_ops.py:339-349 | the input is chosen by operation: island colour, stretching metric by type, normal colour, overlap colour only in edit mode, and the (-1, 0) sentinel otherwise; only stretching touches the accumulators |
| Dispatch.RefsIndependentOfAccumulators | visual_uv/visualuv_ops.py:339-349 | which value or accumulator a corner shows does not depend on earlier accumulator contents |
| Dispatch.NothingToShowIsTransparent | visual_uv/visualuv_ops.py:339-349 | with no operation, in or out of edit mode, or with overlap outside edit mode, a triangle is transparent in the UV editor |
| Dispatch.IslandAndNormalInputsShow | visual_uv/visualuv_ops.py:235-241 | normal triangles, and island triangles with a non-negative colour (every island colour, by `Islands.IslandColoursPositive`), are drawn in the UV editor |
| Dispatch.LengthAccumulatorsKeepUnitY | visual_uv/visualuv_ops.py:292-303 | no triangle changes an edge-length accumulator's y from 1 |
| Packer.WireCorner | visual_uv/visualuv_ops.py:453-466 | on an edge's first visit, slots 2i and 2i+1 get its two ends and the edge is marked; on a later visit nothing changes |
| Packer.WireTriangle | visual_uv/visualuv_ops.py:450-466 | with the wire shown in edit mode, the triangle's edges are marked; otherwise the scratch is untouched |
| Packer.WireTriangleSlots | visual_uv/visualuv_ops.py:408-466 | slots 2i and 2i+1 are rewritten only when loop i's edge is still unmarked; otherwise they keep an earlier triangle's data |
| Packer.PackShape | visual_uv/visualuv_ops.py:429-489 | each visible triangle adds 3 mesh entries and 6 wireframe entries; the UV-editor buffers grow by 3 only for selected polygons or with UV sync |
| Packer.PackCorners | visual_uv/visualuv_ops.py:439-448 | entry 3j+i of the mesh buffers is corner i of the j-th visible triangle: position, normal, direction, UV and face colour |
| Packer.PackHandles | visual_uv/visualuv_ops.py:429-484 | the input buffer is the visible triangles' corner handles in triangle order, whatever the accumulators held |
| Packer.PackInputs | visual_uv/visualuv_ops.py:482-484 | entry 3j+i of the input buffer is the handle the j-th visible triangle picks for corner i |
| Packer.PackOverlapInputs | visual_uv/visualuv_ops.py:482-484 | showing overlap in edit mode, every corner carries its polygon's overlap colour |
| Packer.PackNormalColours | visual_uv/visualuv_ops.py:235-241 | with the UV normals overlay, each corner carries its UV triangle's normal colour and is drawn with blue's hue when that triangle faces up and red's when it is flipped |
| Packer.PackAccumulators | visual_uv/visualuv_ops.py:482-488 | every handle in the buffers names an existing accumulator, and every length accumulator keeps y = 1 |
| Packer.PackVisited | visual_uv/visualuv_ops.py:450-456 | with the wire shown, the marked edges are exactly those of the visible triangles; otherwise none is marked and every wireframe entry is blank |
| Packer.PackWireTail | visual_uv/visualuv_ops.py:413-475 | the wireframe scratch is allocated once: after any prefix of the pass it holds the last six appended entries, or is blank before the first visible triangle |
| Packer.PackWireSlots | visual_uv/visualuv_ops.py:413-475 | entries 6j+2i and 6j+2i+1 are the two ends of loop i's edge of the j-th visible triangle when no earlier visible triangle and no earlier loop of it has that edge; otherwise they repeat the previous visible triangle's entries, blank for the first |
| Packer.SharedEdgeWrittenOnce | visual_uv/visualuv_ops.py:450-475 | an edge shared with an earlier visible triangle is not written again: the later triangle repeats the previous triangle's entries for it |
| Packer.PackSyncMirrors | visual_uv/visualuv_ops.py:487-489 | with UV sync, the UV-editor buffers mirror the mesh buffers corner by corner |
| Packer.HiddenContributeNothing | visual_uv/visualuv_ops.py:429-432 | a pass over all triangles equals a pass over the visible ones |
| Packer.PackAreaSums | visual_uv/visualuv_ops.py:277-285 | with the area metric, after the pass every polygon with a visible triangle has an entry equal to the sum of its triangles' area pairs, and no other polygon has one |
| Packer.PackTriangles | visual_uv/visualuv_ops.py:429-489 | the loop computes the pass; buffer sizes, resolvable handles and marked edges as above |
| Pipeline.ServeSelectionRequest | visual_uv/visualuv_ops.py:379-384 | in edit mode the request is consumed; without UV sync every selected object is marked for relabelling; nothing else changes |
| Pipeline.IslandMapsOf | visual_uv/visualuv_ops.py:403-404 | island colours exist for the islands operation or the explosion view, for exactly the island polygons; directions only with explosion |
| Pipeline.RecalculateInfo | visual_uv/visualuv_ops.py:375-405 | both flags end cleared; the labels are recomputed exactly when the object was marked, and kept otherwise |
| Pipeline.RecalculateInfoLoops | visual_uv/visualuv_ops.py:375-489 | the loops compute the recalculation, and every handle resolves |
| Pipeline.RecalculateInfoHost | visual_uv/visualuv_ops.py:379-384 | the request flag ends cleared in edit mode; another selected object is marked iff the request was served or it was marked before |
| Pipeline.RecalculateInfoPass | visual_uv/visualuv_ops.py:395-405 | every polygon has the colour and direction its settings ask for, and the pass runs on those lookups |
| Pipeline.RecalculateInfoSettles | visual_uv/visualuv_ops.py:375-405 | a second recalculation on unchanged data reproduces the first |
| Pipeline.OverlapAfterRequest | visual_uv/visualuv_ops.py:379-401 | after a served request, a corner is blue iff all loops of its polygon are selected, and the sentinel otherwise |
| Packer.PackFoldAsWrittenOutcome | visual_uv/visualuv_ops.py:243-246 | the pass that reads possibly missing labels per triangle raises exactly when they are missing and a visible triangle shows overlap in edit mode; otherwise it ends in the ordinary pass state |
| Pipeline.RecalculateInfoAsWrittenOutcome | visual_uv/visualuv_ops.py:243-246 | the recalculation as written raises exactly when it has no labels, does not relabel, shows overlap in edit mode and has a visible triangle; otherwise it equals the recalculation with those labels (or none) |
| Pipeline.UnlabelledOverlayRaises | visual_uv/visualuv_ops.py:379-401 | a fresh operator showing overlap in edit mode with UV sync on raises on its first visible triangle |
| Pipeline.FreshOverlayNeverRaises | visual_uv/visualuv_ops.py:225-226 | with labels created empty the first recalculation has labels, and once labels exist it agrees with the code |

## Left out

- Rendering: GPU buffers, shader batches, uniform blocks, draw handlers and GPU state (`prepare_shader_batches`, `draw_overlay`, `draw_overlay_uv`). These are calls into the host's graphics API. Only the colour branch of the vertex shaders is modelled.
- HSV-to-RGB conversion and the vertex position arithmetic in the shaders. These are floating-point rendering; a colour is kept as hue, saturation, value and alpha.
- The modal and invoke event loop, the handler registries, and loading or removing the checker image. These are host event handling and file I/O. `recalculate` is cleared here, but when it is set again is not modelled.
- `mesh_linked_uv_islands`, `to_mesh`, `calc_loop_triangles` and the host's overlapping-UV selection are host calls. Their results are inputs: the island list, the mesh with its loop triangles, and the UV selection in that mesh.
- The island list is assumed to name every polygon when island colours or explosion directions are needed (`Pipeline.WellFormed`). Otherwise the code would raise a missing-key error in the loop, and that path is not modelled.
- Vector normalisation, length, angle, triangle area and the UV normal are uninterpreted (`Numerics`). Floating-point rounding is not modelled; arithmetic is on reals.
- `Metrics.AreaPair`: the mesh triangle is rebuilt along the UV triangle's edge directions, as the code does. The mesh triangle's own directions are computed in the code but never used.
- `Toggle.ToggleSelected`: making each object active in turn and restoring the active object afterwards is not modelled. It is host selection state.
- The update operator, the texture toggle and the overlap toggle (`VISUALUV_OT_update`, `toggle_texture`, `toggle_overlap`) are not modelled. They only set flags and start the operator; the overlap request flag they set is an input of `Pipeline`.
- The panel layout (`visualuv_ui.py`) and add-on registration (`__init__.py`) are user interface and boilerplate.

## Findings

| source | as written | input that shows it | evidently intended | confidence | as-written member | corrected member |
|---|---|---|---|---|---|---|
| visual_uv/visualuv_ops.py:243-246 | `recalculate_uv_overlap` reads `self.overlapped_polygons`, which only `label_overlapped` creates | an object saved with the overlap overlay on is reopened, and Refresh starts a fresh operator in edit mode with UV sync on. The selection request is consumed without marking anything, no labelling runs, and the first visible triangle reads a missing attribute | the operator starts with empty labels, so an unlabelled overlay draws nothing | low, not executed | Overlap.RecalculateUvOverlapAsWritten, Pipeline.RecalculateInfoAsWrittenOutcome, Pipeline.UnlabelledOverlayRaises | Overlap.RecalculateUvOverlap, Overlap.CorrectedOverlapAgrees, Pipeline.FreshOverlayNeverRaises |
