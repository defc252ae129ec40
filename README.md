# AnkiPdfImport core in Dafny

This project models the plain logic inside the AnkiPdfImport plugin. The
plugin turns PDF pages into Anki cards. The user lays a resizable rectangle over
a page and splits it into a grid of rows × columns cells. The first save
captures the grid as the question cells and the second as the answer cells.
The card writer then pairs each question cell with an answer cell of the same
row.

The project has five modules, one per file:

- `Wrappers` (`wrappers.dfy`) holds `Option`, which stands for a value or
  Python's `None`.
- `Geometry` (`geometry.dfy`) models the Qt value types the code computes with,
  over exact reals. A `QPointF` is a `Point`. A `QRectF` is a `Rect`, kept as its
  four edges. `Contains` follows `QRectF::contains`: its edges count, but a
  rectangle of zero width or height contains nothing. `Normalized` follows
  `QRectF::normalized`.
- `RectItem` (`rect_item.dfy`) models the class `GraphicsRectItem`:
  - its eight resize handles and their zones;
  - the first-match `handleAt`;
  - the hover, press, move and release state;
  - the `interactiveResize` step and the `itemChange` clamp;
  - the line cache and `getSections`.
- `Worker` (`worker.dfy`) models `sort_pictures`, which reverses answer rows
  0..len(questions)-1 in place and pairs the cells, and the box arithmetic of `crop`.
- `Dialog` (`import_window.dfy`) models class `ImportWindow`:
  - page wrapping;
  - the two-phase save and undo, with the enabled flags of the widgets;
  - the deck lookup;
  - applying the row/column spinboxes to the grid.

Where the code keeps state, the model is a class with the same fields.
`GraphicsRectItem` and `ImportWindow` have methods with `modifies` clauses. The
method bodies follow the source step by step. Each method's contract is stated
with a specification function, and the lemmas prove the promised properties of
those functions. Some choices made along the way:

- **Handle ids.** The handle ids 1..8 are `HandleId`. The handle dictionary is a
  `map<Handle, Rect>`. Its iteration order is the insertion order, which is
  `HandleOrder` (ids 1..8).
- **Scene.** The item's scene rectangle is a constructor parameter, because the
  code always assumes the item is in a scene. Python reaches it through
  `self.scene()`.
- **Moving the item.** In `mouseMoveEvent`, with no handle selected, Qt moves the
  item itself. Here the host proposes a new position, and `ItemChange` clamps
  it. That is what `itemChange` does with a position change.
- **Answer rows.** The answer rows of `sort_pictures` are arrays, because they
  are reversed in place. They must be distinct objects, as `crop` builds them.
- **Page list and widgets.** The dialog's page list is represented by its
  length `pageCount`. The spinbox values and the combo box text are parameters
  of the slots that read them.

Where a point might be read either way, the code decides. The model follows the
code in these places:

- The item's default row count is 3 (`GraphicsRectItem.py:30`). The dialog
  creates its item with 4 rows (`ImportWindow.py:14,40`).
- `interactiveResize` starts from the *current* rectangle
  (`GraphicsRectItem.py:186`). Only the edges of the selected handle are taken
  from the press snapshot plus the displacement. `ResizeEditsCurrentRect` shows
  the difference.
- The scene clamp of a resize uses `if/elif`, so the left (top) edge wins over
  the right (bottom) one. It runs *before* `normalized()`. An inverted drag can
  therefore leave the scene (`ResizeCanLeaveSceneWhenInverted`). The
  inside-the-scene property is proved for a rectangle that starts inside the
  scene, whenever the clamped rectangle is not inverted, however far the handle
  is dragged (`ResizeStaysInScene`, `ResizePastSceneEdgeExample`).
- There is no minimum size for the rectangle, and no check that rows or columns
  are positive. Positive rows and columns are preconditions. The dialog's
  spinboxes give 1..10 (`ImportWindow.py:54-55`).
- The "undo" button starts out enabled (`ImportWindow.py:75-78` never disables
  it). So the question phase does not say anything about undo.
- With no pages loaded, `pagechange` of a negative index sets the current page
  to -1 (`WrappedPageEmpty`).

## Model

| member | source | states |
|---|---|---|
| Geometry.Normalized | pdf2cards/GraphicsRectItem.py:225 | the normalized rectangle is ordered, holds the same pair of coordinates on each axis, and an ordered rectangle is returned unchanged |
| RectItem.HandleId | pdf2cards/GraphicsRectItem.py:9-16 | handle ids are 1..8 and id n is the n-th handle inserted into the handle dictionary |
| RectItem.HandleOrderIsIdOrder | pdf2cards/GraphicsRectItem.py:156-173 | the insertion order lists all eight handles, by increasing id |
| RectItem.HandleCursor | pdf2cards/GraphicsRectItem.py:19-28 | no contract: the body is the handleCursors table: SizeFDiag for top-left and bottom-right, SizeBDiag for top-right and bottom-left, SizeVer for the top and bottom middles, SizeHor for the middle left and right |
| RectItem.CursorMatchesMovedEdges | pdf2cards/GraphicsRectItem.py:17-28 | the handleCorners list and the cursor table agree with what each handle moves: corners move two edges and get a diagonal cursor; a vertical cursor goes with moving top or bottom alone, a horizontal one with moving left or right alone |
| RectItem.Zone | pdf2cards/GraphicsRectItem.py:158-173 | no contract: the body is each handle's zone in updateHandlesPos: s × s squares at the corners and strips of depth s along the edges between them |
| RectItem.HandleZones | pdf2cards/GraphicsRectItem.py:156-173 | after updateHandlesPos every handle has a zone |
| RectItem.FirstZoneFrom | pdf2cards/GraphicsRectItem.py:83-86 | no contract: the body tries the handles in insertion order from position k and answers the first whose zone contains the point, or None |
| RectItem.HandleAtSpec | pdf2cards/GraphicsRectItem.py:83-86 | no contract: the body is the handleAt search started at the first handle |
| RectItem.FirstZoneFromIsFirstMatch | pdf2cards/GraphicsRectItem.py:79-86 | the search from position k finds a handle whose zone contains the point, with no hit among the handles tried before it, and finds none exactly when no later handle's zone contains the point |
| RectItem.HandleAtIsFirstMatch | pdf2cards/GraphicsRectItem.py:79-86 | handleAt answers the lowest-numbered handle whose zone contains the point, and None exactly when no zone does |
| RectItem.ZonesInside | pdf2cards/GraphicsRectItem.py:156-173 | for s > 0 and a rectangle wider and higher than 2s, each zone lies inside the rectangle |
| RectItem.ZoneHit | pdf2cards/GraphicsRectItem.py:156-173 | for such a rectangle, a point lies in some zone exactly when it lies in the rectangle but not strictly inside the inner area inset by s |
| RectItem.ZoneCoverage | pdf2cards/GraphicsRectItem.py:79-86 | hence handleAt returns None exactly for points outside the rectangle or strictly inside its inner area |
| RectItem.GridLine | pdf2cards/GraphicsRectItem.py:175-180 | no contract: the body gives key k < rows-1 the horizontal line across the rectangle at top + (k+1)·h/rows, and a later key the vertical line at left + (k-rows+2)·w/columns |
| RectItem.SomeGridLines | pdf2cards/GraphicsRectItem.py:175-180 | no contract: the body is the map from keys 0..n-1 to their grid lines |
| RectItem.SomeGridLinesKeys | pdf2cards/GraphicsRectItem.py:175-180 | the first n line-cache entries have exactly the keys 0..n-1 |
| RectItem.GridLines | pdf2cards/GraphicsRectItem.py:175-180 | the line cache has exactly the keys 0..rows+columns-3: rows-1 horizontal and columns-1 vertical lines |
| RectItem.Section | pdf2cards/GraphicsRectItem.py:59-62 | no contract: the body is one coordinate of getSections: (start + (extent/n)·k) / scene size |
| RectItem.Cell | pdf2cards/GraphicsRectItem.py:54-63 | no contract: the body is section (j, i) of getSections, from boundary i to i+1 across and j to j+1 down |
| RectItem.CellNeighbours | pdf2cards/GraphicsRectItem.py:54-63 | horizontally adjacent cells share their common vertical edge, vertically adjacent cells their common horizontal edge |
| RectItem.CellOuterEdges | pdf2cards/GraphicsRectItem.py:54-63 | the first column starts exactly at left/SW, the last ends exactly at right/SW, and likewise top/SH and bottom/SH for the rows |
| RectItem.SectionEnds | pdf2cards/GraphicsRectItem.py:59-62 | along one axis the boundary with index 0 is the start of the rectangle and the one with index n its end, scaled to the scene |
| RectItem.SectionMono | pdf2cards/GraphicsRectItem.py:59-62 | for a non-negative extent and a positive scene size, a boundary with a larger index lies further along |
| RectItem.CellsOrdered | pdf2cards/GraphicsRectItem.py:54-63 | for an ordered rectangle and a positive scene size every cell is ordered and lies within the rectangle's fraction of the scene, and cells further right or further down do not overlap earlier ones |
| RectItem.BandBelow | pdf2cards/GraphicsRectItem.py:59-62 | proof step for `CellsCoverRect`: a value between the first boundary and boundary m+1 lies in some band k <= m, edges included |
| RectItem.CellsCoverRect | pdf2cards/GraphicsRectItem.py:54-63 | every point of the rectangle's fraction of the scene lies, edges included, in some cell |
| RectItem.PartIsSection | pdf2cards/GraphicsRectItem.py:176 | a grid line at i/rows of the height (updateHandlesPos's formula), moved by the item position and scaled, is a section boundary as getSections computes it |
| RectItem.GridLinesAreCellBoundaries | pdf2cards/GraphicsRectItem.py:175-180 | horizontal line j-1 runs the full width at the top edge of cell row j, and vertical line rows+i-2 runs the full height at the left edge of cell column i, once translated and scaled |
| RectItem.AllZonesWritten | pdf2cards/GraphicsRectItem.py:156-173 | proof step for `GraphicsRectItem.PlaceHandles`: writing the eight zones in turn into any handle dictionary gives the zone dictionary of the rectangle |
| RectItem.NoGridLinesYet | pdf2cards/GraphicsRectItem.py:175-180 | proof step for `GraphicsRectItem.DrawGridLines`: a cache with no grid lines written yet is the old cache |
| RectItem.ExtendGridLines | pdf2cards/GraphicsRectItem.py:177-180 | proof step for `GraphicsRectItem.DrawRowLines` and `ExtendColumnLines`: writing line n over a cache that holds lines 0..n-1 gives the cache that holds lines 0..n |
| RectItem.ExtendColumnLines | pdf2cards/GraphicsRectItem.py:178-180 | proof step for `GraphicsRectItem.DrawColumnLines`: writing vertical line i at i/columns of the width under key rows+i-2 extends the cache by that key |
| RectItem.RefreshGridLines | pdf2cards/GraphicsRectItem.py:228 | two caches of the same grid size have the same keys, so re-running updateHandlesPos after a resize replaces every line |
| RectItem.MoveEdges | pdf2cards/GraphicsRectItem.py:186-214 | no contract: the body starts from the current rectangle and sets the selected handle's edges to the snapshot's plus the displacement, one case per branch |
| RectItem.MoveEdgesSetsHandleEdges | pdf2cards/GraphicsRectItem.py:192-214 | the edges the handle names become the snapshot's edge plus the matching component of the displacement; the other edges keep the current rectangle's values |
| RectItem.ClampToScene | pdf2cards/GraphicsRectItem.py:216-223 | no contract: the body is the if/elif edge pins, left (top) first, before normalization |
| RectItem.ClampToSceneBounds | pdf2cards/GraphicsRectItem.py:216-223 | at most one edge per axis changes; left and top are never outside the scene afterwards; right (bottom) is inside unless both edges of that axis were outside; an axis that was inside is unchanged |
| RectItem.Resized | pdf2cards/GraphicsRectItem.py:225 | the result of a resize step is always ordered |
| RectItem.ResizeStaysInScene | pdf2cards/GraphicsRectItem.py:216-225 | if the current rectangle lies inside the scene and the clamped one is not inverted, normalization changes nothing and the result lies inside the scene, however far the edge was dragged |
| RectItem.ResizePastSceneEdgeExample | pdf2cards/GraphicsRectItem.py:216-217 | dragging the dialog's rectangle 200 to the left pins its left edge to the scene's left edge |
| RectItem.ResizeMovesOnlyHandleEdges | pdf2cards/GraphicsRectItem.py:186-214 | a drag that stays ordered and inside the scene moves exactly the handle's edges by the displacement from the snapshot and keeps every other edge |
| RectItem.UnmovedEdgesKept | pdf2cards/GraphicsRectItem.py:186-225 | from a rectangle inside the scene, a non-inverted step keeps every edge the handle does not move at its current value, even when the moved edge is pinned |
| RectItem.ResizeBottomRightExample | pdf2cards/GraphicsRectItem.py:213-214 | the bottom-right handle of a 200×200 rectangle dragged by (+50,+30) gives 250×230 with the same top-left corner |
| RectItem.ResizeCanLeaveSceneWhenInverted | pdf2cards/GraphicsRectItem.py:216-225 | a left edge dragged across the right edge escapes the clamp and, after normalization, lies outside the scene |
| RectItem.ResizeEditsCurrentRect | pdf2cards/GraphicsRectItem.py:186 | after a drag has inverted the rectangle, the next step keeps the previous pointer position as the opposite edge, which differs from applying the displacement to the snapshot |
| RectItem.ClampedPosition | pdf2cards/GraphicsRectItem.py:140-147 | no contract: the body is itemChange's if/elif per axis on the proposed position, left (top) first |
| RectItem.ClampedPositionKeepsItemInScene | pdf2cards/GraphicsRectItem.py:136-148 | a fitting position is kept; an overflowing left (top) edge is pinned to the scene bound, otherwise an overflowing right (bottom) one is; an ordered rectangle no larger than the scene ends up inside it |
| RectItem.SectionsExample | pdf2cards/GraphicsRectItem.py:49-65 | two concrete cells of a 2×1 grid as fractions of a 680×459 scene |
| RectItem.GraphicsRectItem.constructor | pdf2cards/GraphicsRectItem.py:30-47 | the new item holds the given rectangle, handle size and grid size (defaults 10, 3 and 2), no gesture state, and caches that agree with the rectangle |
| RectItem.GraphicsRectItem.GetSections | pdf2cards/GraphicsRectItem.py:49-65 | returns rows lists of columns cells, top to bottom and left to right, cell (j, i) being the grid cell of the translated rectangle as a fraction of the scene size |
| RectItem.GraphicsRectItem.SetRows | pdf2cards/GraphicsRectItem.py:67-71 | sets the row count and rebuilds the line cache to exactly the lines of the new grid; the rectangle is untouched |
| RectItem.GraphicsRectItem.SetColumns | pdf2cards/GraphicsRectItem.py:73-77 | the same for the column count |
| RectItem.GraphicsRectItem.HandleAt | pdf2cards/GraphicsRectItem.py:79-86 | the loop over the handle dictionary returns the first-match search over the handle zones |
| RectItem.GraphicsRectItem.HoverMoveEvent | pdf2cards/GraphicsRectItem.py:88-97 | the hovered handle becomes handleAt's answer; the cursor is that handle's entry in the cursor table, the move cursor when there is none |
| RectItem.GraphicsRectItem.HoverLeaveEvent | pdf2cards/GraphicsRectItem.py:99-105 | no handle is hovered and the cursor is the arrow |
| RectItem.GraphicsRectItem.MousePressEvent | pdf2cards/GraphicsRectItem.py:107-115 | the selected handle becomes handleAt's answer; the press point and the rectangle snapshot are recorded only when a handle was hit |
| RectItem.GraphicsRectItem.MouseMoveEvent | pdf2cards/GraphicsRectItem.py:117-124 | with a handle selected the rectangle becomes the resize step's result at the same position; otherwise the rectangle is kept and the position becomes the clamped proposal |
| RectItem.GraphicsRectItem.MouseReleaseEvent | pdf2cards/GraphicsRectItem.py:126-134 | the selected handle, press point and snapshot are all cleared |
| RectItem.GraphicsRectItem.ItemChange | pdf2cards/GraphicsRectItem.py:136-150 | the accepted position is the per-axis clamp of the proposal |
| RectItem.GraphicsRectItem.UpdateHandlesPos | pdf2cards/GraphicsRectItem.py:152-180 | the handle dictionary becomes the zone dictionary of the rectangle, and the grid lines are written over the old line cache |
| RectItem.GraphicsRectItem.PlaceHandles | pdf2cards/GraphicsRectItem.py:156-173 | the eight zones are written so that the handle dictionary is the zone dictionary |
| RectItem.GraphicsRectItem.DrawGridLines | pdf2cards/GraphicsRectItem.py:175-180 | the two loops write exactly the grid lines, keys 0..rows+columns-3, over the old cache |
| RectItem.GraphicsRectItem.DrawRowLines | pdf2cards/GraphicsRectItem.py:175-177 | the first loop writes keys 0..rows-2, the horizontal lines at i/rows of the height, over the cache it starts from |
| RectItem.GraphicsRectItem.DrawColumnLines | pdf2cards/GraphicsRectItem.py:178-180 | the second loop adds keys rows-1..rows+columns-3, the vertical lines at i/columns of the width |
| RectItem.GraphicsRectItem.InteractiveResize | pdf2cards/GraphicsRectItem.py:182-228 | the rectangle becomes the normalized, clamped edge update of the current rectangle from the snapshot plus the pointer displacement, and both caches follow it |
| Worker.ReversedTwice | worker.py:13 | reversing a row twice restores it |
| Worker.Cards | worker.py:10-16 | no contract: the body appends, row by row, each question row paired with its answer row reversed |
| Worker.CardsAreRowMajor | worker.py:10-16 | there is one card per question cell, in row-major order; the card of question (i, j) pairs questions[i][j] with the original answers[i][len-1-j] |
| Worker.CellCountPrefix | worker.py:12-15 | proof step for `CardsAreRowMajor`: the cells of the rows before row i, plus row i, fit in the whole grid |
| Worker.Rows | worker.py:10-16 | proof step for `Worker.SortPictures`: the contents of the answer arrays, one row per array |
| Worker.Reverse | worker.py:13 | the array is reversed in place |
| Worker.SortPictures | worker.py:10-16 | answer rows 0..len(questions)-1 are reversed in place, later rows are unchanged, and the cards are the row-major pairing with the reversed rows |
| Worker.AppendRowCards | worker.py:14-15 | the inner loop appends, for each question j of the row, the card pairing it with entry j of the reversed answer row |
| Worker.ScaleBox | worker.py:24-25 | no contract: the body multiplies the x coordinates by the image width and the y coordinates by its height |
| Worker.BoxInImage | worker.py:24-25 | an ordered section within the unit square gives an ordered box within the image |
| Worker.Scale | worker.py:25 | no contract: the body is a fractional coordinate times the image width or height |
| Worker.ScaleUnitInterval | worker.py:25 | proof step for `Worker.BoxInImage`: 0 <= a <= b <= 1 scaled by a size stays ordered within [0, size] |
| Worker.ProductNonneg | worker.py:25 | proof step for `Worker.ScaleUnitInterval`: a product of non-negative reals is non-negative |
| Worker.Crop | worker.py:19-28 | the result has the shape of the sections, in the same order, and each box is (left·W, top·H, right·W, bottom·H) |
| Worker.GridCellCount | worker.py:21-23 | a grid of n rows of c cells has n·c cells |
| Worker.UnitFraction | pdf2cards/GraphicsRectItem.py:59-62 | proof step for `CellInUnitSquare`: a coordinate within [0, d] gives a fraction within [0, 1] |
| Worker.CellInUnitSquare | pdf2cards/GraphicsRectItem.py:54-63 | the cells of an ordered rectangle inside a scene at the origin are ordered and lie within the unit square |
| Worker.SectionBoxesInImage | worker.py:24-25 | every box cut from those cells lies within the page image |
| Dialog.FindDeck | pdf2cards/ImportWindow.py:137-139 | no contract: the body returns the first deck with the name, or None where the code uses False |
| Dialog.FindDeckIsFirstMatch | pdf2cards/ImportWindow.py:136-139 | the deck lookup returns the first deck with the selected name, and nothing exactly when no deck has that name |
| Dialog.WrappedPage | pdf2cards/ImportWindow.py:122-125 | no contract: the body sends a negative request to the last page and a request past the end to page 0 |
| Dialog.WrappedPageInRange | pdf2cards/ImportWindow.py:121-126 | with at least one page the current page is a valid index, and an index already in range is kept |
| Dialog.NextPrevAreCyclic | pdf2cards/ImportWindow.py:58-61 | the next and previous buttons move to page p+1 and p-1 modulo the page count |
| Dialog.WrappedPageIdempotent | pdf2cards/ImportWindow.py:121-126 | wrapping an already wrapped page changes nothing |
| Dialog.WrappedPageEmpty | pdf2cards/ImportWindow.py:121-126 | without pages a negative request gives -1 and any other request 0 |
| Dialog.JobBoxesPairable | pdf2cards/ImportWindow.py:152-153 | the crops of a save job's question and answer grids of the same shape can be paired, one card per question cell |
| Dialog.ImportWindow.constructor | pdf2cards/ImportWindow.py:10-83 | a 4×2 grid item at (87, 110) of size 696×880 with handle size 50 in the 870×1100 scene, page 0 with spinbox 1, question phase, save disabled, undo enabled |
| Dialog.ImportWindow.ValueChange | pdf2cards/ImportWindow.py:117-119 | both spinbox values become the item's rows and columns and the line cache is that grid's |
| Dialog.ImportWindow.PageChange | pdf2cards/ImportWindow.py:121-131 | the current page is the wrapped request, the page spinbox shows it plus one, and the page is shown when it exists |
| Dialog.ImportWindow.Save | pdf2cards/ImportWindow.py:133-161 | the grid is captured with the page before advancing; the first save stores it as the question grid and enters the answer phase; the second returns the job (questions, answers, deck lookup), and both grids have the item's grid size; then save is disabled and the question phase restored; in both cases the dialog moves to the next page, which is shown when it exists |
| Dialog.ImportWindow.Undo | pdf2cards/ImportWindow.py:163-169 | back to the question phase with the controls set as after a completed save |

## Left out

- Qt rendering and framework calls are not modelled. This covers `paint`,
  `setCursor` (the cursor is returned instead), `update`,
  `prepareGeometryChange`, the base-class event handlers, and the scene and
  view setup. The `main()` demo is left out too. The item's Qt-native drag
  handling is represented only by the position it proposes to `ItemChange`.
- The `change` kinds of `itemChange` other than a position change are left out,
  and so is the case of an item outside any scene. The item is always in a
  scene.
- `Worker.convertPdf`, `Worker.saveCards`, PIL's image cut and JPEG files are
  left out. They are external PDF rasterization and file I/O. `Crop` returns the
  boxes passed to PIL, not PIL's integer rounding of them.
- The threading and signal hand-off are left out: `QThread`, `pdfConverted`,
  `saved` and the connection of `saveCards`. `Save` returns the job it would
  start. The save button is re-enabled only by those slots, so this model never
  re-enables it. In the code the page list starts empty and `pdfConverted`
  fills it later. The model fixes `pageCount` when the dialog is built, so one
  dialog never goes from "no pages yet" to "n pages".
- Dialog.ImportWindow.PageChange: the page spinbox is modelled as showing
  `current_page + 1`. In Qt it has the default range 0..99, and changing its
  value re-enters `pagechange`. For a document of 100 or more pages that can
  move the current page to 98. The model does not capture this.
- Dialog.ImportWindow.Save: the page spinbox is modelled as showing
  `current_page + 1` after save moves to the next page through `pagechange`.
  In Qt the spinbox has the default range 0..99, and setting it re-enters
  `pagechange`. For a document of 100 or more pages that can move the page
  save lands on. The model does not capture this.
- RectItem.GraphicsRectItem.GetSections: the precondition is a scene of
  nonzero width and height. With a zero-size scene `getSections` raises
  ZeroDivisionError, which the model does not capture. The plugin's scenes
  are 870 × 1100 and 680 × 459.
- Dialog.ImportWindow.ValueChange: the precondition is that both spinboxes are
  enabled and hold 1..10. This stands for "the user edited a spinbox". A
  disabled spinbox emits no change, and the range comes from
  `ImportWindow.py:54-55`.
- Worker.SortPictures: the precondition is that the answer rows are distinct
  objects, as `crop` builds them. With aliased rows, `list.reverse` would
  reverse a shared row twice.
- Floating-point rounding is not modelled. All geometry uses exact reals, so
  claims like "edges meet exactly" hold for the model, not for IEEE doubles.
- `GenAnki.py`, `__init__.py` and `test.py` are not part of this model. They are
  the host application's note and deck API, menu registration, and a launcher.
