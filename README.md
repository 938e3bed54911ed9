# Gizmos: a verified model of the debug-geometry batch

`Gizmos` is the immediate-mode debug-drawing helper of a small OpenGL
framework. One process-wide instance, reached through the static pointer
`sm_singleton`, owns two fixed-capacity arrays: one of lines (two vertices
each) and one of triangles (three vertices each). Each vertex is a
homogeneous position plus an RGBA colour. The static operations work as
follows:

- `create` allocates the instance unless one exists already.
- `destroy` deletes it.
- `clear` resets both counts to zero.
- `addLine` and `addTri` store one primitive in the next free slot. When the
  buffer is full, or no instance exists, the primitive is silently dropped.
- The shape builders emit their outlines and fills as runs of `addLine` and
  `addTri` calls, and can optionally report vertices through an
  out-parameter. The builders are `addTransform` (three coloured axes),
  `addBox`, `addCylinder`, `addCircle` and `addSphere` (a latitude/longitude
  grid).
- `draw` hands the stored vertices of both buffers to GL, with the
  projection-view matrix.

The model has six modules, one per file:

- `Wrappers` holds the `Option` type.
- `Geometry` holds vectors and matrices over exact reals. `sinf`/`cosf` are
  an uninterpreted `Trig` parameter.
- `Primitives` holds the stored records and the capacity policy. `Admit`
  gives the buffer after a run of appends, each kept only while there is
  room. `AdmitClosedForm` proves that this is the longest prefix of
  old contents plus run that fits.
- `Shapes` and `Sphere` say, as pure functions, what each builder emits.
  They also prove the structural facts the builders promise: emission
  order, counts, reported vertices, the grid layout and the face walk's
  indices.
- `Batch` holds the state. `Gizmos` is a class with the two arrays and their
  counts. `GizmosGlobal` holds the `singleton` pointer and has one method per
  static operation. Each builder is a method, with loops where the source
  loops, and is proved to leave the buffers at exactly
  `Admit(old contents, capacity, <the builder's run>)`.

The model keeps these behaviours of the code as written:

- **Circle fan corner.** In `addCircle` the first triangle of a filled
  segment uses `v3Edge1` without adding the centre. Its reported vertex
  `index + 1` does the same (`CircleSegmentTris`, `CircleFanQuirk`).
- **Circle double transform.** `addCircle` carries the already transformed
  `v3Edge2` into the next iteration and transforms it again. For every
  segment after the first, the edge-1 vector has the transform applied twice
  (`CircleEdge1`, `CircleSegmentFromCarried`).
- **Sphere grid overwrite.** `addSphere` writes column `columns` to slot
  `col % columns`, the slot of column 0. The first longitude's point
  therefore never survives in the grid (`SphereGridLayout`).
- **Sphere seam.** The last face of every row wraps to the row's first
  slot, which holds the last longitude, so the strip that ends at the last
  longitude is drawn. The first face of the row starts from that slot too.
  When the longitude range is less than a full turn, that first face emits
  only its line up the last longitude; its top edge and both triangles are
  skipped. No face reads the first longitude's point, so with a partial
  range the strip from the first longitude to the second (longMin to longMin + range / columns) and
  the first longitude's meridian are never drawn (`SeamOfRow`,
  `SphereFaceCounts`).
- **`clear` with no instance.** `clear` dereferences the instance without a
  null check. It therefore requires that an instance exists.

## Model

| member | source | states |
|---|---|---|
| Primitives.AdmitClosedForm | framework/src/Gizmos.cpp:395-407 | a run of appends under the room check leaves the longest prefix of old contents followed by the run that fits the capacity |
| Primitives.AdmitFits | framework/src/Gizmos.cpp:395-407 | with room for the whole run, every primitive is stored after the old contents, in order |
| Primitives.AdmitWhenFull | framework/src/Gizmos.cpp:409-425 | once a buffer is full, further appends leave it unchanged |
| Primitives.AdmitBounds | framework/src/Gizmos.cpp:395-407 | the count after a run is min(capacity, old count + run length), and the old contents stay in place |
| Primitives.AdmitConcat | framework/src/Gizmos.cpp:395-407 | two runs of appends in a row act as one run of their concatenation |
| Primitives.AdmitSnoc | framework/src/Gizmos.cpp:397-406 | one more append is one more step of the room check |
| Primitives.AdmitOne | framework/src/Gizmos.cpp:397-398 | one append under the room check (also addTri's, line 413): the buffer grows by the primitive when count < capacity, else stays as it was |
| Primitives.Admit | framework/src/Gizmos.cpp:395-407 | the buffer after a run of appends, each one under the room check, in order |
| Primitives.LineOf | framework/src/Gizmos.cpp:400-403 | a stored line: both ends at w = 1, each with its colour |
| Primitives.TriOf | framework/src/Gizmos.cpp:415-420 | a stored triangle: the three corners at w = 1, all in the one colour |
| Batch.Gizmos.constructor | framework/src/Gizmos.cpp:8-14 | arrays of the given capacities, both counts 0, nothing stored |
| Batch.GizmosGlobal.constructor | framework/src/Gizmos.cpp:6 | the static pointer starts null |
| Batch.GizmosGlobal.Create | framework/src/Gizmos.cpp:91-95 | with no instance: a fresh one, empty, with the requested capacities; with one: the same instance, unchanged |
| Batch.GizmosGlobal.CreateDefault | framework/src/Gizmos.cpp:91-95 | create with its default arguments: with no instance, a fresh empty one with room for 16384 lines and 16384 triangles; with one, unchanged |
| Batch.GizmosGlobal.Destroy | framework/src/Gizmos.cpp:97-101 | no instance afterwards; nothing is stored and every later append is dropped |
| Batch.GizmosGlobal.Clear | framework/src/Gizmos.cpp:103-107 | both buffers empty, capacities and arrays unchanged; an instance must exist |
| Batch.GizmosGlobal.AddLine | framework/src/Gizmos.cpp:395-407 | slot m_lineCount receives the line at w = 1 with both colours when there is room, else nothing changes; the triangle buffer is untouched |
| Batch.GizmosGlobal.AddLineSingleColour | framework/src/Gizmos.cpp:390-393 | the same append with the one colour at both ends |
| Batch.GizmosGlobal.AddTri | framework/src/Gizmos.cpp:409-425 | slot m_triCount receives the triangle at w = 1 in one colour when an instance exists and has room, else nothing changes; the line buffer is untouched |
| Batch.GizmosGlobal.EmitLine | framework/src/Gizmos.cpp:395-407 | within a builder, the buffer follows the builder's run of lines grown by this one |
| Batch.GizmosGlobal.EmitTri | framework/src/Gizmos.cpp:409-425 | within a builder, the buffer follows the builder's run of triangles grown by this one |
| Batch.GizmosGlobal.AddTransform | framework/src/Gizmos.cpp:111-124 | appends the red, green and blue axis lines from the translation column, in that order, and no triangles; with room all three are stored |
| Shapes.TransformAxesAtIdentity | framework/src/Gizmos.cpp:109-123 | with the identity transform and scale 1 the three lines are the unit axes at the origin |
| Shapes.TransformAxisLines | framework/src/Gizmos.cpp:113-123 | the three lines from the translation column to translation + column k times scale, red, green, blue in that order |
| Batch.GizmosGlobal.AddBox | framework/src/Gizmos.cpp:128-209 | reports the 8 corners when asked, appends the 12 white edges, then the 12 fill triangles only when filled |
| Shapes.BoxCorners | framework/src/Gizmos.cpp:136-157 | the box has exactly 8 corners |
| Shapes.BoxLines | framework/src/Gizmos.cpp:168-181 | the twelve white edges, in addBox's order: ring 0..3, ring 4..7, then k to k + 4 |
| Shapes.BoxTris | framework/src/Gizmos.cpp:185-207 | the twelve fill triangles, two per face (top, bottom, front, back, left, right), in addBox's order |
| Batch.GizmosGlobal.EmitBoxLines | framework/src/Gizmos.cpp:166-181 | the twelve addLine calls leave the line buffer at Admit of the box edges |
| Batch.GizmosGlobal.EmitBoxTris | framework/src/Gizmos.cpp:183-208 | the twelve addTri calls leave the triangle buffer at Admit of the box triangles |
| Batch.GizmosGlobal.EmitEdges | framework/src/Gizmos.cpp:168-181 | four white addLine calls in a row grow the run by those four lines, and the buffer follows |
| Batch.GizmosGlobal.EmitFace | framework/src/Gizmos.cpp:185-207 | the two addTri calls of one face grow the run by its two triangles, and the buffer follows |
| Shapes.BoxLinesInOrder | framework/src/Gizmos.cpp:168-181 | solver helper: the box edges are exactly the twelve lines addBox issues, in its order |
| Shapes.BoxTrisInOrder | framework/src/Gizmos.cpp:185-207 | solver helper: the box triangles are exactly the twelve addBox issues, two per face, in its order |
| Shapes.BoxEdgeStructure | framework/src/Gizmos.cpp:168-181 | the outline is the ring of corners 0..3, the ring of corners 4..7 and the four edges from corner k to corner k + 4 |
| Batch.GizmosGlobal.AddCylinder | framework/src/Gizmos.cpp:211-270 | for each segment in order: when filled its 4 triangles, then its 3 white lines; the reported array has 12 slots per segment and, when filled, holds every segment's corners |
| Batch.GizmosGlobal.CylinderSegmentPoints | framework/src/Gizmos.cpp:229-241 | the six points the loop computes for segment i are segment i of the cylinder |
| Batch.GizmosGlobal.EmitCylinderSegment | framework/src/Gizmos.cpp:244-268 | one loop iteration extends the lines, triangles and reported vertices by segment i's |
| Batch.GizmosGlobal.EmitSegmentTris | framework/src/Gizmos.cpp:247-250 | the four triangle appends of one segment grow the run by its four triangles |
| Batch.GizmosGlobal.EmitSegmentLines | framework/src/Gizmos.cpp:266-268 | the three line appends of one segment grow the run by its top rim, side and bottom rim |
| Batch.WriteSegmentVertices | framework/src/Gizmos.cpp:252-263 | slots 12i .. 12i + 11 receive the segment's twelve corners; earlier slots keep their values |
| Batch.WriteCorners | framework/src/Gizmos.cpp:256 | three consecutive slots receive three corners; earlier slots keep their values |
| Shapes.CylinderSegments | framework/src/Gizmos.cpp:227 | a cylinder has one segment per loop iteration |
| Shapes.SegmentAngle | framework/src/Gizmos.cpp:219-231 | angle k of the cylinder or circle: k times a full turn divided by the segment count |
| Shapes.CylinderSegmentAt | framework/src/Gizmos.cpp:229-241 | segment i: the cap centres and the rim points at angles i and i + 1, transformed as directions and moved to the centre |
| Shapes.SegmentTris | framework/src/Gizmos.cpp:247-250 | the four triangles of a filled segment: top cap, bottom cap, the two halves of the side |
| Shapes.SegmentVertices | framework/src/Gizmos.cpp:256-262 | the twelve vertices a filled segment writes, in slot order |
| Shapes.SegmentLines | framework/src/Gizmos.cpp:266-268 | the three white lines of a segment: top rim, side, bottom rim |
| Shapes.CylinderLines | framework/src/Gizmos.cpp:227-269 | the lines of a run of segments, segment by segment |
| Shapes.CylinderTris | framework/src/Gizmos.cpp:227-269 | the triangles of a run of filled segments, segment by segment |
| Shapes.CylinderVertices | framework/src/Gizmos.cpp:227-269 | the vertices a filled cylinder reports, segment by segment |
| Shapes.CylinderSegmentIndex | framework/src/Gizmos.cpp:227-241 | solver helper: segment i of the run is the one computed for index i |
| Shapes.SegmentInOrder | framework/src/Gizmos.cpp:247-268 | solver helper: a segment's lines and triangles are the single appends addCylinder issues, in its order |
| Shapes.CylinderStep | framework/src/Gizmos.cpp:227-269 | solver helper: one more segment appends exactly its own lines, triangles and vertices |
| Shapes.CylinderCounts | framework/src/Gizmos.cpp:222-268 | n segments give 3n lines, 4n triangles when filled and 12n reported vertices |
| Shapes.CylinderVerticesAreTriCorners | framework/src/Gizmos.cpp:247-263 | a filled cylinder reports exactly the corners of the triangles it emits, in emission order |
| Shapes.SegmentCorners | framework/src/Gizmos.cpp:247-263 | the twelve reported vertices of a segment are the corners of its four triangles |
| Batch.GizmosGlobal.AddCircle | framework/src/Gizmos.cpp:272-314 | for each segment in order: two triangles when filled, else one line in the colour; the reported array has 3 slots per segment and, when filled, holds each segment's three vertices |
| Batch.GizmosGlobal.CircleSegmentPoints | framework/src/Gizmos.cpp:290-293 | the carried v3Edge1 and the new sample, both transformed, are segment i of the circle |
| Batch.GizmosGlobal.EmitCircleSegment | framework/src/Gizmos.cpp:295-311 | one loop iteration adds segment i's triangles (filled) or its line (unfilled), and its reported vertices |
| Batch.GizmosGlobal.EmitCircleTris | framework/src/Gizmos.cpp:297-298 | the two triangle appends of a filled segment grow the run by its two triangles |
| Batch.WriteCircleVertices | framework/src/Gizmos.cpp:299-305 | slots 3i .. 3i + 2 receive segment i's reported vertices; the prefix stays that of the earlier segments |
| Shapes.CircleSegmentsUpTo | framework/src/Gizmos.cpp:287-313 | the first n iterations visit n segments |
| Shapes.CircleStart | framework/src/Gizmos.cpp:280 | v3Edge1 before the loop: (0, 0, radius, 0) |
| Shapes.CircleSample | framework/src/Gizmos.cpp:290 | the untransformed edge vector at angle k |
| Shapes.CircleEdge1 | framework/src/Gizmos.cpp:280-312 | v3Edge1 of iteration i: the start vector transformed once for i = 0, the sample at angle i transformed twice after that |
| Shapes.CircleEdge2 | framework/src/Gizmos.cpp:290-293 | v3Edge2 of iteration i: the sample at angle i + 1, transformed once |
| Shapes.CircleSegmentAt | framework/src/Gizmos.cpp:290-293 | what iteration i works with: its v3Edge1 and v3Edge2 |
| Shapes.CarriedEdge | framework/src/Gizmos.cpp:280-312 | v3Edge1 at the top of iteration i: the start vector, then the previous iteration's transformed v3Edge2 |
| Shapes.CircleSegmentTris | framework/src/Gizmos.cpp:297-298 | the two triangles of a filled segment, the first with the bare v3Edge1 corner |
| Shapes.CircleSegmentVertices | framework/src/Gizmos.cpp:302-304 | the three vertices a filled segment writes: centre, bare v3Edge1, centre + v3Edge2 |
| Shapes.CircleSegmentLine | framework/src/Gizmos.cpp:310 | the one line of an unfilled segment, in the single colour |
| Shapes.CircleLines | framework/src/Gizmos.cpp:287-313 | the lines of a run of unfilled segments |
| Shapes.CircleTris | framework/src/Gizmos.cpp:287-313 | the triangles of a run of filled segments |
| Shapes.CircleVertices | framework/src/Gizmos.cpp:287-313 | the vertices a filled circle reports for a run of segments |
| Shapes.CircleOutline | framework/src/Gizmos.cpp:295-311 | the lines addCircle issues: none when filled, one per segment otherwise |
| Shapes.CircleFill | framework/src/Gizmos.cpp:295-311 | the triangles addCircle issues: two per segment when filled, none otherwise |
| Shapes.CircleSegments | framework/src/Gizmos.cpp:287 | a circle has one segment per loop iteration |
| Shapes.CircleSegmentIndex | framework/src/Gizmos.cpp:287-293 | segment i of the run is the one computed for index i |
| Shapes.CircleSegmentsUpToIndex | framework/src/Gizmos.cpp:287-293 | segment i of the first n is the one computed for index i |
| Shapes.CircleSegmentFromCarried | framework/src/Gizmos.cpp:280-312 | iteration i transforms the carried edge (start vector, or the previous transformed v3Edge2) and the sample at angle i + 1 |
| Shapes.CircleEdgeAtIdentity | framework/src/Gizmos.cpp:290-312 | with the identity transform the doubly transformed edge equals the plain sample |
| Shapes.CircleStep | framework/src/Gizmos.cpp:287-313 | solver helper: one more segment appends exactly its own line, triangles and vertices |
| Shapes.CircleOutputStep | framework/src/Gizmos.cpp:295-311 | solver helper: a filled circle gains only triangles per segment and an unfilled one only a line |
| Shapes.CircleSegmentInOrder | framework/src/Gizmos.cpp:297-298 | solver helper: a segment's triangles are the two single appends addCircle issues, in its order |
| Shapes.CircleCounts | framework/src/Gizmos.cpp:283-311 | n segments give n lines unfilled, 2n triangles filled and 3n reported vertices |
| Shapes.CircleReportedVertices | framework/src/Gizmos.cpp:297-305 | reported slots 3i .. 3i + 2 are the corners of the first triangle of segment i |
| Shapes.CircleFanQuirk | framework/src/Gizmos.cpp:297-298 | off the origin, a segment's two triangles do not share the edge-1 corner |
| Batch.GizmosGlobal.AddSphere | framework/src/Gizmos.cpp:316-387 | the lines and triangles are the face walk over the filled grid, and the reported array is a copy of the grid; an empty shape stores nothing and reports an empty array |
| Batch.GizmosGlobal.CopyGrid | framework/src/Gizmos.cpp:357-363 | a new array holding the grid slot for slot |
| Batch.GizmosGlobal.WalkSphereFaces | framework/src/Gizmos.cpp:365-384 | faces 0 .. rows * columns - 1 in order leave the buffers at Admit of the walk's lines and triangles |
| Batch.GizmosGlobal.NextFaceIndex | framework/src/Gizmos.cpp:367-372 | solver helper: iNextFace as the loop computes it, the same expression as `Sphere.NextFace` |
| Batch.GizmosGlobal.EmitSphereFace | framework/src/Gizmos.cpp:374-383 | one face adds its column line and, away from the seam, its top edge and two triangles |
| Batch.GizmosGlobal.EmitFaceTop | framework/src/Gizmos.cpp:380-383 | the top edge, then the two triangles, appended in that order |
| Sphere.FillSphereGrid | framework/src/Gizmos.cpp:331-355 | the grid loop fills rows 0 .. rows and leaves exactly the grid SphereGrid describes |
| Sphere.FillGridRow | framework/src/Gizmos.cpp:336-354 | one row fills its block of `columns` slots with their final points and changes no other slot |
| Sphere.FillRowSlots | framework/src/Gizmos.cpp:341-354 | columns 0 .. columns written in order: columns 1 .. columns - 1 in their own slots, column `columns` in the slot of column 0, nothing outside the row's block changed |
| Sphere.EmptyShape | framework/src/Gizmos.cpp:331-365 | the negative rows and columns that leave the row loop, the allocation and the face loop all empty |
| Sphere.EmptyShapeSizes | framework/src/Gizmos.cpp:331-365 | for an empty shape the grid has 0 slots and the face loop 0 iterations |
| Sphere.WellShaped | framework/src/Gizmos.cpp:322-331 | at least one row and one column |
| Sphere.SphereRing | framework/src/Gizmos.cpp:336-339 | the latitude circle (y, z) of row `row` |
| Sphere.SpherePoint | framework/src/Gizmos.cpp:343-353 | the point at column `col` of a latitude circle, transformed as a direction when a transform is given, then moved to the centre |
| Sphere.RowPoint | framework/src/Gizmos.cpp:333-354 | the points of one row: its circle computed once, then sampled per column |
| Sphere.GridPoint | framework/src/Gizmos.cpp:336-350 | the point at (row, col) of the latitude/longitude sampling |
| Sphere.SlotPoint | framework/src/Gizmos.cpp:352-353 | what slot i holds after the fill: its row and column, with column `columns` in the slot of column 0 |
| Sphere.GridIndex | framework/src/Gizmos.cpp:352 | the slot of (row, col) is in row's block; col < columns has its own slot and col == columns lands on column 0's |
| Sphere.GridIndexInBounds | framework/src/Gizmos.cpp:331-352 | every grid write is inside the rows * columns + columns slots allocated |
| Sphere.SphereGridUpTo | framework/src/Gizmos.cpp:331-355 | the first n slots of the filled grid |
| Sphere.SphereGrid | framework/src/Gizmos.cpp:331 | the grid has rows * columns + columns slots |
| Sphere.SphereGridUpToIndex | framework/src/Gizmos.cpp:352-353 | slot i of the first n holds its slot's point |
| Sphere.SphereGridIndex | framework/src/Gizmos.cpp:352-353 | slot i of the grid holds its slot's point |
| Sphere.SphereGridFromSlots | framework/src/Gizmos.cpp:331-355 | an array of the grid's length holding every slot's point is the grid |
| Sphere.SlotOfRow | framework/src/Gizmos.cpp:352-353 | slot row * columns + k holds column k of its row, or column `columns` for k == 0 |
| Sphere.SphereGridLayout | framework/src/Gizmos.cpp:341-354 | row r column k (0 < k < columns) is at slot r * columns + k; slot r * columns holds column `columns`, never column 0 |
| Sphere.NextFace | framework/src/Gizmos.cpp:367-372 | iNextFace stays inside the face range |
| Sphere.NextFaceInRange | framework/src/Gizmos.cpp:369-371 | wrapping back a row never goes below face 0 |
| Sphere.NextFaceInRow | framework/src/Gizmos.cpp:367-372 | iNextFace is in face's row, one column further along, cyclically |
| Sphere.FaceReadsInBounds | framework/src/Gizmos.cpp:374-383 | every grid read of the face walk is a valid slot |
| Sphere.SkipsSeam | framework/src/Gizmos.cpp:376 | the seam rule: the face starts a row and the range is partial |
| Sphere.PartialRange | framework/src/Gizmos.cpp:376 | the longitude range, in radians, is below a full turn |
| Sphere.FaceLines | framework/src/Gizmos.cpp:374-380 | a face's lines: the line up its first column, then, away from the seam, the top edge |
| Sphere.FaceTris | framework/src/Gizmos.cpp:376-383 | a face's two triangles, or none at the seam |
| Sphere.SphereLines | framework/src/Gizmos.cpp:365-384 | the lines of faces 0 .. n - 1, face by face |
| Sphere.SphereTris | framework/src/Gizmos.cpp:365-384 | the triangles of faces 0 .. n - 1, face by face |
| Sphere.RowStarts | framework/src/Gizmos.cpp:376 | how many of faces 0 .. n - 1 start a row |
| Sphere.FaceInOrder | framework/src/Gizmos.cpp:374-383 | solver helper: a face's output is the single appends the loop issues; at the seam only the column line |
| Sphere.SphereStep | framework/src/Gizmos.cpp:365-384 | solver helper: the walk through face n + 1 is the walk through face n followed by face n's output |
| Sphere.FaceEmission | framework/src/Gizmos.cpp:374-383 | a face emits 2 lines and 2 triangles, or 1 line and none at the seam |
| Sphere.SeamFaces | framework/src/Gizmos.cpp:367-383 | on any grid, a row's last face wraps to the row's first slot and emits both lines; with a partial range the row's first face emits only its column line and no triangles |
| Sphere.SeamOfRow | framework/src/Gizmos.cpp:352-383 | on the filled grid, the last face of row r draws the strip ending at column `columns` (its top edge reaches the last longitude); with a partial range the first face draws only the last longitude's meridian piece, so no face draws column 0 |
| Sphere.SphereCountsFullRange | framework/src/Gizmos.cpp:365-384 | with a full range each of the first n faces emits 2 lines and 2 triangles |
| Sphere.SphereCountsPartial | framework/src/Gizmos.cpp:365-384 | with a partial range each face that starts a row loses one line and two triangles |
| Sphere.RowStartsInRow | framework/src/Gizmos.cpp:376 | within a row of faces only the first starts a row |
| Sphere.RowStartsOfRows | framework/src/Gizmos.cpp:365-376 | rows rows of faces contain exactly rows row starts |
| Sphere.SphereFaceCounts | framework/src/Gizmos.cpp:365-384 | full range: 2 lines and 2 triangles per face; partial range: rows fewer lines and 2 * rows fewer triangles |
| Sphere.DefaultRangeIsFull | framework/src/Gizmos.cpp:317-329 | the default 0 to 360 degrees is a full turn; 0 to 180 is partial |
| Batch.GizmosGlobal.Draw | framework/src/Gizmos.cpp:427-460 | nothing is submitted exactly when both buffers are empty (or no instance exists); otherwise the matrix and the stored vertices of each buffer in slot order |
| Batch.LineVertices | framework/src/Gizmos.cpp:437-444 | two vertices per stored line |
| Batch.TriVertices | framework/src/Gizmos.cpp:446-453 | three vertices per stored triangle |
| Batch.LineVerticesLayout | framework/src/Gizmos.cpp:440-443 | vertices 2k and 2k + 1 of the line pass are the ends of line k |
| Batch.TriVerticesLayout | framework/src/Gizmos.cpp:449-452 | vertices 3k .. 3k + 2 of the triangle pass are the corners of triangle k |

## Left out

- OpenGL: shader compilation, program linking, VBO/VAO creation in the constructor, their deletion in the destructor, and the GL calls of `draw`. `Draw` returns what would be submitted (the matrix and the vertex runs of both passes) instead of issuing calls.
- Floating point: positions, angles and colours are exact reals. `sinf`/`cosf` and `sin`/`cos` are one uninterpreted `Trig` parameter. Whether a float longitude range compares below 2 pi is decided in exact reals (`PartialRange`).
- `addCylinder` and `addCircle` with `a_segments * 12` or `a_segments * 3` beyond 32 bits: the unsigned wrap of the allocation size is not modelled. Counts are unbounded naturals.
- AddSphere: admits `rows > 0` with `columns > 0`, and the shapes the source handles without fault (`EmptyShape`): `rows == -1` with `columns >= 0`, or `rows < 0` with `columns == 0`. For those the row loop does not run, the array has `(rows + 1) * columns == 0` slots and the face loop does not run, so nothing is stored and an empty array is reported. The other arguments are excluded: with `rows == 0` and `columns > 0` the source divides by zero in float (an infinite `invRows`) and reports one row of NaN points while storing nothing; `rows >= 0` with `columns == 0` is undefined behaviour of `%` at line 352; `rows >= 0` with `columns < 0`, and `rows < -1` with `columns > 0`, give a negative size at line 331, so `new[]` throws; and `rows < 0` with `columns < 0` skips the fill but runs the face loop over an array that is too small, so it reads out of range at lines 374 and 380-383 (for example rows -3 and columns -1 give a 2-slot array and face 0 reads slot -1). The signed `int` product `a_rows*a_columns` can also overflow, which is undefined behaviour; the model's rows and columns are unbounded integers.
- AddSphere: the temporary `v4Array` is filled in place, but what leaves `FillSphereGrid` is its contents as a sequence. The copy for the caller is made after the face walk instead of before it. The two touch disjoint state, so the stored primitives and the reported array are the same.
- AddCylinder, AddCircle: when not filled, the source leaves the reported array uninitialised. The model promises only its length.
- The out-parameter `a_vertexCount` is not a separate value; it is the length of the returned array.
- AddBox, AddCylinder, AddCircle, AddSphere: the counts of stored primitives are not repeated in these builders' contracts; only AddTransform states its count. They follow from `Primitives.AdmitBounds` together with `Shapes.CylinderCounts`, `Shapes.CircleCounts` and `Sphere.SphereFaceCounts`.
- Default arguments: only `create`'s default capacities have their own method (`CreateDefault`). The other defaults are explicit parameters of the builders: `addTransform`'s scale 1, the white fill colour, the identity transform and no vertex report of `addBox`, `addCylinder` and `addCircle`, and `addSphere`'s null transform and its ranges 0 to 360 and -90 to 90 degrees. `TransformAxesAtIdentity` covers scale 1 with the identity transform, and `DefaultRangeIsFull` covers the default longitude range.
- Concurrency: the static instance is not thread-safe in the source, and the model is sequential.
- The `Gizmos` destructor's `delete[]` of the two arrays: memory is not modelled; `Destroy` drops the instance.
