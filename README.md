# A verified model of the 3d triangle renderer and its demos

This project models three parts of the `3d` repository:

- the mesh builder and z-buffer rasteriser of `src/TrianglesDemo.tsx`;
- the 2-D linear algebra of `src/maths.ts`;
- the drag state machine and barycentric decomposition of `src/BarycentricDemo.tsx`.

It proves properties of each.

The mesh builder reads two text blocks into a `Model`. Each vertex line is `x, y, z, #rrggbb` and each triangle line is `i, j, k` (1-based vertex indices). Lines that do not parse are dropped.

The rasteriser works on two byte buffers:

- a 64 × 48 depth buffer, one byte per cell, initialised to 255 (farthest);
- a 640 × 480 RGBA image, in which one depth cell covers a 10 × 10 pixel block.

`renderModel` clears the image, paints every vertex as one cell, then rasterises every triangle. Each triangle cell is kept only when all three barycentric weights lie in the half-open range `[0, 1)`. An included cell is painted with the interpolated depth and colour. Every paint goes through `drawPx`, a depth-tested write:

- if the stored depth is at most the new depth, nothing changes;
- otherwise the cell takes the new depth and its pixel block takes the colour.

Layout:

| file | module | models |
|---|---|---|
| `wrappers.dfy` | `Wrappers` | `Option`, for `undefined` results |
| `maths.dfy` | `Maths` | `Vec2`, `Mat2` (column-major) as datatypes with member functions |
| `text.dfy` | `Text` | the ECMAScript string operations the parser uses: `trim`, `split(',')`, `split(/\r\n\|\r\|\n/)` |
| `mesh.dfy` | `MeshBuilder` | `nonemptyLines`, `toColor`, `toVertex`, `toTri`, `constructModel` and the `Model`/`Vertex`/`Color`/`Tri` types, as functions |
| `raster.dfy` | `Raster` | `clearContext`, `drawPx`, `renderTri`, `renderModel` as methods over `array<byte>`, each proved equal to a specification function on sequences |
| `raster_facts.dfy` | `RasterFacts` | what the renderer guarantees, as lemmas about those specification functions |
| `barycentric.dfy` | `Barycentric` | `reducer`, `dragSubjectToKey`, `fromScreenSpace`, the `toScreenSpace` closure, and the decomposition at lines 35-50 |

Points the model makes explicit:

- Numbers are exact reals.
- `Number(...)` on a field is a parameter of the parser: `num: string -> real` for vertex fields and `idx: string -> int` for triangle indices.
- The depth byte store follows ECMAScript's `Uint8ClampedArray` conversion: round half to even, then clamp to 0..255 (`Raster.Clamp8`). This makes the depth test slightly different from "the nearest paint wins" (see `RasterFacts` below and "## Left out").
- Colours are interpolated channel by channel. Each channel byte goes through the same clamped store into the image.

### Behaviour of the code worth knowing

- **A vertex's z.** It is `Math.floor(Number(z))` (`src/TrianglesDemo.tsx:193`), which rounds towards −∞. It is not truncated towards zero.
- **Depth ties.** "First painter wins" holds only for integral depths in 0..255. `RasterFacts.DrawnTieKeepsFirst` proves this case. The store rounds the depth, and the comparison uses the unrounded new depth. So:
  - a negative depth stores 0, and a later negative depth in the same cell repaints (`RasterFacts.DrawnNegativeRepaints`);
  - a depth of 3.6 stores 4, so a later, farther 3.8 still repaints (`RasterFacts.DrawnFartherRepaints`).

  What does always hold is that no paint raises a stored depth (`RasterFacts.DrawnNeverRaises` and the lemmas after it).

## Model

| member | source | states |
|---|---|---|
| Maths.Vec2.Plus | src/maths.ts:4-6 | coordinate-wise sum; its properties are those of `Maths.VecComponentwise` and `Maths.MinusPlusCancel` |
| Maths.Vec2.Minus | src/maths.ts:8-10 | coordinate-wise difference; `Maths.MinusPlusCancel` proves it inverts `plus` |
| Maths.Vec2.Scale | src/maths.ts:12-14 | both coordinates times f; `Maths.ScaleLenSquared` proves its effect on the length |
| Maths.Vec2.ScaleTo | src/maths.ts:16-24 | a zero vector is returned unchanged; for a non-zero length the result has the requested length (the length is passed in, since `Math.sqrt` is not modelled) |
| Maths.ScaleLenSquared | src/maths.ts:12-14 | scaling by f multiplies the squared length by f² |
| Maths.VecComponentwise | src/maths.ts:4-14 | `plus`, `minus` and `scale` act on each coordinate separately |
| Maths.MinusPlusCancel | src/maths.ts:4-10 | `p.minus(q).plus(q) == p` and `p.plus(q).minus(q) == p` |
| Maths.Mat2.TimesVec | src/maths.ts:46-50 | the column-major product (a·x + c·y, b·x + d·y); `Maths.TimesVecColumns` and `Maths.TimesVecLinear` state what it means |
| Maths.Mat2.Scale | src/maths.ts:58-61 | all four entries times f; `Maths.ScaleTimesVec` proves that it scales every product |
| Maths.Mat2.LeftInvAsWritten | src/maths.ts:52-56 | `leftInv` as the code has it, `Mat2(d, -c, -b, a)` over the determinant; `Maths.LeftInvAsWrittenIsTransposedInverse` and `Maths.LeftInvAsWrittenFails` say what it inverts |
| Maths.TimesVecColumns | src/maths.ts:37-50 | `timesVec` is column-major: the product is x times the first column (a, b) plus y times the second column (c, d) |
| Maths.TimesVecLinear | src/maths.ts:46-50 | `timesVec` distributes over `plus` and commutes with `scale` |
| Maths.ScaleTimesVec | src/maths.ts:46-61 | `Mat2.scale` multiplies all four entries, and scaling the matrix scales every product |
| Maths.Mat2.LeftInv | src/maths.ts:52-56 | the corrected inverse, adjugate over determinant; it is again invertible |
| Maths.LeftInvUndoesTimesVec | src/maths.ts:52-56 | for det ≠ 0, the corrected inverse undoes the matrix: `M⁻¹(Mp) = p` |
| Maths.TimesVecUndoesLeftInv | src/maths.ts:52-56 | for det ≠ 0, the matrix undoes the corrected inverse: `M(M⁻¹p) = p` |
| Maths.LeftInvAsWrittenIsTransposedInverse | src/maths.ts:52-56 | `leftInv` as written is the inverse of the transpose |
| Maths.LeftInvAsWrittenUndoesIffSymmetric | src/maths.ts:52-56 | `leftInv` as written recovers the first unit vector exactly when b = c |
| Maths.LeftInvAsWrittenFails | src/maths.ts:52-56 | for Mat2(1, 1, 0, 1), `leftInv().timesVec(timesVec((1, 0)))` is not (1, 0) |
| Maths.BasisInverseAgrees | src/maths.ts:52-56 | applied to the transposed matrix `Mat2(u.x, v.x, u.y, v.y)` that the callers build, `leftInv` as written equals the corrected inverse of the basis matrix |
| Text.TrimStart | src/TrianglesDemo.tsx:178 | the result is a suffix, every removed character is whitespace, and it does not start with whitespace |
| Text.TrimEnd | src/TrianglesDemo.tsx:178 | the result is a prefix, every removed character is whitespace, and it does not end with whitespace |
| Text.Trim | src/TrianglesDemo.tsx:178 | `trim()` is a slice with only whitespace outside it, and it neither starts nor ends with whitespace |
| Text.TrimIdempotent | src/TrianglesDemo.tsx:178 | trimming twice is trimming once |
| Text.SplitOn | src/TrianglesDemo.tsx:178 | `split(',')` gives one more part than there are commas, and no part holds a comma |
| Text.JoinSplitOn | src/TrianglesDemo.tsx:178 | joining the parts of a split with the separator gives back the text |
| Text.SplitOnCons | src/TrianglesDemo.tsx:178 | a comma-free head splits off as the first part |
| Text.SplitOnNone | src/TrianglesDemo.tsx:178 | a text without the separator is one part |
| Text.SeparatorLength | src/TrianglesDemo.tsx:225 | the regex `\r\n\|\r\|\n` matches at a position exactly when a line break starts there |
| Text.SplitLines | src/TrianglesDemo.tsx:225 | `split(/\r\n\|\r\|\n/)` returns at least one piece |
| Text.SplitLinesNoBreaks | src/TrianglesDemo.tsx:225 | no piece contains CR or LF |
| Text.SplitLinesSingle | src/TrianglesDemo.tsx:225 | a text without line breaks is one piece |
| Text.SplitLinesAppend | src/TrianglesDemo.tsx:225 | the pieces of a + b are those of a and of b, with the last piece of a fused to the first of b (unless a CR and an LF would meet) |
| MeshBuilder.KeepSome | src/TrianglesDemo.tsx:167-172 | `filter(v => v !== undefined)` keeps exactly the defined values and is no longer than its input |
| MeshBuilder.KeepSomeAppend | src/TrianglesDemo.tsx:167-172 | filtering a concatenation is concatenating the filtered parts, so the order is kept |
| MeshBuilder.NonemptyLines | src/TrianglesDemo.tsx:223-228 | no more lines than the pieces of the split |
| MeshBuilder.NonemptyLinesAreTrimmed | src/TrianglesDemo.tsx:223-228 | every returned line is non-empty and neither starts nor ends with whitespace |
| MeshBuilder.NonemptyLineTrimmed | src/TrianglesDemo.tsx:226-227 | a piece that survives the filter is trimmed and non-empty |
| MeshBuilder.NonemptyLinesHaveNoBreaks | src/TrianglesDemo.tsx:223-228 | no returned line contains CR or LF |
| MeshBuilder.NonemptyLinesAppend | src/TrianglesDemo.tsx:223-228 | the lines of `a + "\n" + b` are the lines of a followed by the lines of b, in input order |
| MeshBuilder.NonemptyLinesAppendAfterCR | src/TrianglesDemo.tsx:223-228 | the same when a ends in CR, where CR LF is one separator |
| MeshBuilder.NonemptyLinesOfOneLine | src/TrianglesDemo.tsx:223-228 | a break-free text gives its trimmed self, or nothing when that is empty |
| MeshBuilder.HexValue | src/TrianglesDemo.tsx:199-210 | a hex digit of either case has a value below 16 |
| MeshBuilder.PairValue | src/TrianglesDemo.tsx:210 | `parseInt` of a two-digit pair lies in 0..255 |
| MeshBuilder.ToColor | src/TrianglesDemo.tsx:198-211 | a colour is returned exactly when the text is `#` and six hex digits of either case; each channel is a byte |
| MeshBuilder.ToColorCaseInsensitive | src/TrianglesDemo.tsx:198-211 | lower-casing or upper-casing the text does not change the result |
| MeshBuilder.ToColorOfFormatColor | src/TrianglesDemo.tsx:198-211 | every byte colour written as `#rrggbb` reads back as itself |
| MeshBuilder.Fields | src/TrianglesDemo.tsx:178 | one more trimmed part than there are commas |
| MeshBuilder.ToVertex | src/TrianglesDemo.tsx:177-196 | a vertex is returned exactly when there are four parts and the fourth is a colour; it then has the colour of the fourth part (a byte colour), an integral z that is the floor of the third part, and x, y read from the first two |
| MeshBuilder.ToVertexOfFields | src/TrianglesDemo.tsx:177-196 | a line built from three comma-free fields and a formatted colour reads back as that vertex |
| MeshBuilder.ToTri | src/TrianglesDemo.tsx:213-221 | a triangle is returned exactly when the line has exactly three comma-separated parts, and its corners are the indices `idx` gives the three trimmed parts |
| MeshBuilder.ToTriOfFields | src/TrianglesDemo.tsx:213-221 | a line written as three comma-free fields joined by commas reads back as the triangle of their trimmed indices |
| MeshBuilder.TrimOfTrimmed | src/TrianglesDemo.tsx:178 | trimming a trimmed string changes nothing |
| MeshBuilder.VertexOptionsAppend | src/TrianglesDemo.tsx:168 | `map(toVertex)` over a concatenation is the concatenation of the maps |
| MeshBuilder.TriOptionsAppend | src/TrianglesDemo.tsx:172 | `map(toTri)` over a concatenation is the concatenation of the maps |
| MeshBuilder.VertexOptionsMembers | src/TrianglesDemo.tsx:167-169 | a vertex is among the mapped results exactly when some line parses to it |
| MeshBuilder.TriOptionsMembers | src/TrianglesDemo.tsx:171-172 | a triangle is among the mapped results exactly when some line parses to it |
| MeshBuilder.ConstructModel | src/TrianglesDemo.tsx:165-175 | no more vertices or triangles than non-empty lines; a vertex (triangle) is in the model exactly when some non-empty line parses to it |
| MeshBuilder.ParseVerticesAppend | src/TrianglesDemo.tsx:166-169 | the vertices of two texts joined by a newline are those of the first, then those of the second |
| MeshBuilder.ParseTrisAppend | src/TrianglesDemo.tsx:171-172 | the same for triangles |
| MeshBuilder.ConstructModelAppend | src/TrianglesDemo.tsx:165-175 | the model of concatenated texts is the concatenation of the models, so input order is kept |
| Raster.Sizes | src/TrianglesDemo.tsx:9-13 | the cell grid is 64 × 48; the image holds 1228800 bytes and the depth buffer 3072 |
| Raster.Clamp8 | src/TrianglesDemo.tsx:153 | the `Uint8ClampedArray` store: 0 for inputs ≤ 0, 255 for ≥ 255, otherwise within ½ of the input, with ties going to the even byte |
| Raster.Clamp8OfByte | src/TrianglesDemo.tsx:153 | an integral depth in 0..255 is stored as itself |
| Raster.Clamp8Below | src/TrianglesDemo.tsx:149-153 | a depth below a stored byte n is stored as at most n |
| Raster.Loc | src/TrianglesDemo.tsx:146 | `pxY * PX_WIDTH + pxX` of an on-canvas cell is a depth-buffer index |
| Raster.CellX | src/TrianglesDemo.tsx:144 | `Math.floor(px.x)` is the column whose unit interval holds x |
| Raster.CellY | src/TrianglesDemo.tsx:145 | `Math.floor(px.y)` is the row whose unit interval holds y |
| Raster.DrawPx | src/TrianglesDemo.tsx:143-163 | the new depth buffer and image are `Drawn` of the old ones: unchanged when the stored depth is ≤ z, otherwise that cell takes `Clamp8(z)` and its 10 × 10 pixel block takes the colour with alpha 255 |
| Raster.PaintBlock | src/TrianglesDemo.tsx:154-162 | exactly the bytes of the cell's pixel block take the colour channels and 255; every other byte is unchanged |
| Raster.PaintBlockRow | src/TrianglesDemo.tsx:155-161 | exactly the bytes of one pixel row of the block take the colour; every other byte is unchanged |
| Raster.ClearContext | src/TrianglesDemo.tsx:79-86 | every 4-byte pixel holds the background RGB and alpha 255 |
| Raster.Basis | src/TrianglesDemo.tsx:115-116 | the basis matrix maps the unit vectors to u = b − a and v = c − a |
| Raster.VisitIndex | src/TrianglesDemo.tsx:120-121 | the loops visit cell (x, y) as step 48·x + y, and that step number gives the cell back |
| Raster.BoxIsCanvas | src/TrianglesDemo.tsx:108-112 | for on-canvas corners, the box widened by 0 and the canvas size is exactly the canvas |
| Raster.TransposedBasis | src/TrianglesDemo.tsx:115-118 | the matrix `renderTri` builds has the basis's determinant, and `leftInv` as written of it is the basis's corrected inverse |
| Raster.RenderTri | src/TrianglesDemo.tsx:96-141 | the new buffers are `TriRendered` of the old ones: unchanged for a bad index (or a degenerate triangle), otherwise every cell visited in loop order with the test and paint of `TriStep` |
| Raster.PaintTriCells | src/TrianglesDemo.tsx:120-140 | the nested loops give the fold of `TriStep` over all 64 × 48 cells in visiting order |
| Raster.PaintTriCell | src/TrianglesDemo.tsx:122-138 | one loop body is one `TriStep`: skip unless every weight is in [0, 1), else `drawPx` the interpolated point |
| Raster.RenderModel | src/TrianglesDemo.tsx:88-94 | the final image is `Rendered(model)`: cleared to (250, 250, 250), depth buffer at 255, every vertex drawn, then every triangle rendered |
| RasterFacts.Clamp8Above | src/TrianglesDemo.tsx:153 | a depth at or above byte n is stored as at least n |
| RasterFacts.ClearedPixels | src/TrianglesDemo.tsx:79-86 | after clearing, every pixel's four bytes are the background channels and 255 |
| RasterFacts.InitialBuffers | src/TrianglesDemo.tsx:89-91 | before any paint, every depth cell is 255 and every pixel is (250, 250, 250, 255) |
| RasterFacts.DrawnKeepsNearer | src/TrianglesDemo.tsx:149-151 | when the stored depth is ≤ z, neither buffer changes |
| RasterFacts.InCellOfPixel | src/TrianglesDemo.tsx:154-156 | pixel (col, row) lies in cell (col / 10, row / 10) and in no other |
| RasterFacts.DrawnPaints | src/TrianglesDemo.tsx:153-162 | otherwise the cell takes `Clamp8(z)`, every other depth cell is unchanged, and each pixel is the colour (alpha 255) exactly when it lies in that cell's block and is unchanged otherwise |
| RasterFacts.DrawnNeverRaises | src/TrianglesDemo.tsx:149-153 | `drawPx` never raises any depth cell |
| RasterFacts.DrawnDepthBound | src/TrianglesDemo.tsx:149-153 | after `drawPx`, the cell's depth is at most `Clamp8(z)` |
| RasterFacts.DrawnTieKeepsFirst | src/TrianglesDemo.tsx:149-153 | for an integral depth in 0..255, a later paint of the same cell at an equal or greater depth changes nothing |
| RasterFacts.PaintCellTwice | src/TrianglesDemo.tsx:154-162 | painting a block twice leaves the second colour |
| RasterFacts.DrawnNegativeRepaints | src/TrianglesDemo.tsx:149-153 | two negative depths in one cell: the second paint wins, whatever the order |
| RasterFacts.DrawnFartherRepaints | src/TrianglesDemo.tsx:149-153 | a depth of 3.6 followed by a farther 3.8 in one cell: the farther one wins |
| RasterFacts.TriRenderedBadIndex | src/TrianglesDemo.tsx:102-105 | an index < 1 or > the vertex count leaves both buffers unchanged |
| RasterFacts.WeightsReconstruct | src/TrianglesDemo.tsx:122-126 | the weights sum to 1 and weigh the corners to the cell's point |
| RasterFacts.WeightsUnique | src/TrianglesDemo.tsx:122-126 | they are the only weights that do so |
| RasterFacts.CellOfCellPoint | src/TrianglesDemo.tsx:138-145 | the point `renderTri` passes to `drawPx` falls in the cell being visited |
| RasterFacts.TriStepPaints | src/TrianglesDemo.tsx:124-138 | when a cell changes, all three weights are in [0, 1), sum to 1 and rebuild the cell's corner, and the cell's depth becomes `Clamp8(fA·zA + fB·zB + fC·zC)` |
| RasterFacts.TriStepSkipsCorners | src/TrianglesDemo.tsx:128 | a cell on a triangle corner is never painted by its triangle, since one weight is then 1 |
| RasterFacts.VisitOf | src/TrianglesDemo.tsx:120-121 | each depth cell has the visiting step of its column and row |
| RasterFacts.VisitOfLoc | src/TrianglesDemo.tsx:146 | step n visits depth index j exactly when j is n's cell |
| RasterFacts.TriStepDepth | src/TrianglesDemo.tsx:128-138 | one loop body changes at most the visited cell's depth, as `CellDepth` gives |
| RasterFacts.TriCellsDepth | src/TrianglesDemo.tsx:120-140 | after the first n steps, each visited cell has the depth of its own step and each later cell its old depth |
| RasterFacts.TriStepNeverRaises | src/TrianglesDemo.tsx:128-138 | one loop body never raises a depth |
| RasterFacts.TriCellsNeverRaises | src/TrianglesDemo.tsx:120-140 | the triangle loops never raise a depth |
| RasterFacts.TriRenderedNeverRaises | src/TrianglesDemo.tsx:96-141 | `renderTri` never raises a depth |
| RasterFacts.DrawAllNeverRaises | src/TrianglesDemo.tsx:92 | the vertex pass never raises a depth |
| RasterFacts.RenderTrisNeverRaises | src/TrianglesDemo.tsx:93 | the triangle pass never raises a depth |
| RasterFacts.DrawAllVertexDepth | src/TrianglesDemo.tsx:92 | after the vertex pass, each vertex's cell is at most as deep as that vertex's stored depth |
| RasterFacts.RenderedVertexDepth | src/TrianglesDemo.tsx:88-94 | after the whole render, each vertex's cell is at most as deep as that vertex's stored depth |
| Barycentric.InitState | src/BarycentricDemo.tsx:182-189 | the initial origin, corners and point, with nothing dragged; `Barycentric.InitStateInside` states what they make |
| Barycentric.InitStateInside | src/BarycentricDemo.tsx:182-189 | the initial triangle is not degenerate, its point has coordinates (167/406, 78/203) and contributions (83/406, 167/406, 78/203), so it lies strictly inside |
| Barycentric.DragSubjectToKey | src/BarycentricDemo.tsx:246-259 | every subject maps to a point-valued field of the state, never `drag` |
| Barycentric.DragSubjectToKeyInjective | src/BarycentricDemo.tsx:246-259 | two subjects have the same key exactly when they are the same subject |
| Barycentric.ToScreenSpace | src/BarycentricDemo.tsx:28-30 | shifts by `origin` and flips the y axis; `Barycentric.ScreenSpaceRoundTrip` proves `fromScreenSpace` inverts it |
| Barycentric.FromScreenSpace | src/BarycentricDemo.tsx:211-213 | the point returned is drawn, through `toScreenSpace` with the same origin, exactly at the given screen position |
| Barycentric.ScreenSpaceRoundTrip | src/BarycentricDemo.tsx:211-213 | `fromScreenSpace` and the `toScreenSpace` closure (lines 28-30) undo each other, in both orders |
| Barycentric.Reducer | src/BarycentricDemo.tsx:215-244 | `START_DRAG` sets the subject, `STOP_DRAG` clears it, every other action keeps it; a point-valued field changes only under `MOVE_MOUSE` while that very field is dragged |
| Barycentric.MoveMouseIdle | src/BarycentricDemo.tsx:217-219 | `MOVE_MOUSE` with nothing dragged returns the state unchanged |
| Barycentric.StartStopDrag | src/BarycentricDemo.tsx:231-240 | `START_DRAG` sets `drag` to the subject and `STOP_DRAG` clears it; neither moves any point |
| Barycentric.OtherActionIdle | src/BarycentricDemo.tsx:241-242 | any other action returns the state unchanged |
| Barycentric.MoveMouseDragging | src/BarycentricDemo.tsx:220-229 | while dragging, the dragged field becomes the mouse position (for `origin`) or `fromScreenSpace(origin, mouse)` (otherwise); `drag` and every other field are unchanged |
| Barycentric.DraggedFollowsMouse | src/BarycentricDemo.tsx:220-229 | after the move, the dragged subject is drawn under the mouse |
| Barycentric.OthersOnScreen | src/BarycentricDemo.tsx:220-229 | dragging a corner or the point leaves every other subject where it is drawn; dragging `origin` shifts them all by the mouse's displacement |
| Barycentric.BaryCoords | src/BarycentricDemo.tsx:35-38 | for a non-degenerate triangle, the result is the coordinates of p − t1 in the basis u = t2 − t1, v = t3 − t1: bx·u + by·v = p − t1 |
| Barycentric.UEnd | src/BarycentricDemo.tsx:42-43 | the end of the first arrow, t1 + bx·u; `Barycentric.VEnd` continues from it |
| Barycentric.VEnd | src/BarycentricDemo.tsx:44-45 | the end of the second arrow is the point p itself |
| Barycentric.Contributions | src/BarycentricDemo.tsx:47-50 | the three corner contributions (1 − bx − by, bx, by) sum to 1 |
| Barycentric.CoordinatesRebuild | src/BarycentricDemo.tsx:35-45 | coordinates of p − t1 in the basis t2 − t1, t3 − t1 rebuild p, both along the arrows and as a weighted sum of the corners |
| Barycentric.DecompositionReachesPoint | src/BarycentricDemo.tsx:35-50 | for a non-degenerate triangle, `vEnd` is p, and the three contributions sum to 1 and weigh the corners to p |

## Left out

- React, the DOM and the canvas: the components, JSX, `SvgOverlay`, `getImageData`/`putImageData`, the hooks, routing, the arrows and `SimpleEditor`. `src/hooks.ts`, `src/App.tsx`, `src/Home.tsx`, `src/Arrow.tsx` and `src/SimpleEditor.tsx` are not part of this model. `repaint`'s call to `renderModel` is presentation glue.
- `./action` is not part of this model. `Barycentric.Action` has the three action types the reducer tells apart plus `Other` for every other type.
- `Vec3` (from `src/maths.ts`, used at `src/TrianglesDemo.tsx:133-137`) is not part of this model. Colour interpolation is written channel by channel in `Raster.CellPoint`.
- `Vec2.len` and `rotate`, `Math.sqrt`, `Math.cos` and `Math.sin`: there is no exact real square root or trigonometry. `Maths.Vec2.ScaleTo` takes the current length as an argument tied to the squared length, which covers the zero-length case and the length of a non-zero result.
- `toPrecision(2)` at `src/BarycentricDemo.tsx:48-50` is display formatting. `Barycentric.Contributions` is the unrounded triple.
- ECMAScript `Number(...)` text parsing is left to the parameters `num` and `idx`. `ToTri` therefore does not see non-numeric or fractional fields, which the source lets through to a crash at `src/TrianglesDemo.tsx:108`, where `a.x` is read from an undefined vertex.
- IEEE-754 NaN, infinities and rounding: every number is an exact real.
- Raster.RenderTri: a degenerate triangle (determinant 0) paints nothing. This is an explicit model choice. The source divides by zero there, and with NaN weights its test at `src/TrianglesDemo.tsx:128` can let cells through. The triangle lemmas require a non-zero determinant.
- Raster.DrawPx, Raster.RenderTri, Raster.RenderModel: these require every vertex to lie on the canvas ([0, 64) × [0, 48) in cell units). The source's out-of-range writes are dropped by the typed array, and a negative column wraps into the previous row; neither is modelled. So a triangle entirely off the canvas is not covered.
- Raster.ClearContext: requires the image length to be a multiple of 4, as every RGBA image's is.
- RasterFacts.DrawnTieKeepsFirst: proves first-painter-wins only for integral depths in 0..255. For other depths the byte store's rounding breaks it (`RasterFacts.DrawnNegativeRepaints`, `RasterFacts.DrawnFartherRepaints`).
- An occlusion order-independence property for overlapping triangles is not proved. The depth store's rounding makes it false in general, as the two lemmas above show.

## Findings

| source | as written | input that shows it | evidently intended | confidence | as-written member | corrected member |
|---|---|---|---|---|---|---|
| src/maths.ts:52-56 | `leftInv` returns `Mat2(d, -c, -b, a)` over the determinant. Under the column-major `timesVec` of lines 46-50, that is the inverse of the transpose, not of the matrix. Both callers pass the transposed basis `Mat2(u.x, v.x, u.y, v.y)`, so the two transpositions cancel and the weights come out right. | M = Mat2(1, 1, 0, 1), p = (1, 0): `M.leftInv().timesVec(M.timesVec(p))` is (0, 1). | `Mat2(d, -b, -c, a)` over the determinant, a two-sided inverse, applied to the basis `Mat2(u.x, u.y, v.x, v.y)` | not executed | Maths.LeftInvAsWrittenFails | Maths.LeftInvUndoesTimesVec |
