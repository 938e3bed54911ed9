/**
 * The integer structure of addSphere: the latitude/longitude grid it fills,
 * the face walk that reads it, and what each face emits.
 *
 * The grid array has `rows * columns + columns` slots, one row of `columns`
 * slots for each of the rows + 1 latitudes. Column `columns` (the last
 * longitude) is written to `col % columns == 0`, the slot of column 0, so
 * after filling, slot 0 of every row holds the last longitude's point.
 */
module Sphere {
  import opened Wrappers
  import opened Geometry
  import opened Primitives

  // ---------------------------------------------------------- arithmetic

  lemma {:induction false} MulMonotone(a: int, b: int, c: int)
    requires 0 <= a <= b && 0 <= c
    ensures a * c <= b * c
    decreases b - a
  {
    if a < b {
      MulMonotone(a + 1, b, c);
    }
  }

  /** Euclidean division has one quotient and remainder: x == q * c + m with 0 <= m < c fixes both. */
  lemma DivModUnique(x: int, c: int, q: int, m: int)
    requires c > 0 && 0 <= m < c && x == q * c + m
    ensures x / c == q && x % c == m
  {
    var q', m' := x / c, x % c;
    assert x == q' * c + m';
    if q' < q {
      MulMonotone(q' + 1, q, c);
    } else if q < q' {
      MulMonotone(q + 1, q', c);
    }
  }

  /** Stepping x to x + 1 either moves one column along or, from the last column, starts the next row. */
  lemma SuccDivMod(x: int, c: int)
    requires c > 0 && x >= 0
    ensures x % c + 1 < c ==> (x + 1) / c == x / c && (x + 1) % c == x % c + 1
    ensures x % c + 1 == c ==> (x + 1) / c == x / c + 1 && (x + 1) % c == 0
  {
    var q, m := x / c, x % c;
    if m + 1 < c {
      DivModUnique(x + 1, c, q, m + 1);
    } else {
      DivModUnique(x + 1, c, q + 1, 0);
    }
  }

  // ---------------------------------------------------------------- grid

  /**
   * The slot `row * columns + col % columns` that point (row, col) is written
   * to: it lies in row `row`'s block of slots, column `col` < columns has its
   * own slot, and column `columns` lands on the slot of column 0.
   */
  function GridIndex(row: int, col: int, columns: int): (i: int)
    requires columns > 0 && row >= 0 && 0 <= col <= columns
    ensures row * columns <= i < row * columns + columns
    ensures col < columns ==> i == row * columns + col
    ensures col == columns ==> i == row * columns
  {
    DivModUnique(col, columns, if col == columns then 1 else 0, if col == columns then 0 else col);
    row * columns + col % columns
  }

  /** Every grid write lands inside the `rows * columns + columns` slots the source allocates. */
  lemma GridIndexInBounds(row: int, col: int, rows: int, columns: int)
    requires columns > 0 && 0 <= row <= rows && 0 <= col <= columns
    ensures 0 <= GridIndex(row, col, columns) < rows * columns + columns
  {
    MulMonotone(row, rows, columns);
  }

  /** The arguments of addSphere that shape its output. */
  datatype SphereArgs = SphereArgs(center: Vec3, rows: int, columns: int, radius: real,
                                   transform: Option<Mat4>,
                                   longMin: real, longMax: real, latMin: real, latMax: real)

  /** Rows and columns that draw a sphere: at least one of each. */
  predicate WellShaped(s: SphereArgs) {
    s.rows > 0 && s.columns > 0
  }

  /**
   * Negative rows and columns the source handles without fault: one row
   * fewer than none, or no columns at all. The row loop does not run, the
   * allocation is empty and the face loop does not run.
   */
  predicate EmptyShape(s: SphereArgs) {
    s.rows < 0 && s.columns >= 0 && (s.rows == -1 || s.columns == 0)
  }

  /** For an empty shape the grid has no slots and the face loop runs no iteration. */
  lemma EmptyShapeSizes(s: SphereArgs)
    requires EmptyShape(s)
    ensures s.rows * s.columns + s.columns == 0
    ensures s.rows * s.columns <= 0
    ensures !WellShaped(s)
  {
    if s.rows != -1 {
      assert s.columns == 0;
    }
  }

  /** The per-row values the source computes in its outer loop: (y, z) of the latitude circle. */
  function SphereRing(s: SphereArgs, trig: Trig, row: int): (real, real)
    requires WellShaped(s)
  {
    var invRows := 1.0 / (s.rows as real);
    var latitudinalRange := (s.latMax - s.latMin) * DegToRad;
    var radiansAboutXAxis := (row as real) * invRows * latitudinalRange + s.latMin * DegToRad;
    (s.radius * trig.sin(radiansAboutXAxis), s.radius * trig.cos(radiansAboutXAxis))
  }

  /** The point at column `col` of the latitude circle `ring`, transformed when a transform is given, then moved to the centre. */
  function SpherePoint(s: SphereArgs, trig: Trig, ring: (real, real), col: int): Vec3
    requires WellShaped(s)
  {
    var invColumns := 1.0 / (s.columns as real);
    var longitudinalRange := (s.longMax - s.longMin) * DegToRad;
    var theta := (col as real) * invColumns * longitudinalRange + s.longMin * DegToRad;
    var (y, z) := ring;
    var p := Vec3(-z * trig.sin(theta), y, -z * trig.cos(theta));
    var q := if s.transform.Some? then TransformDirection(s.transform.value, p) else p;
    Add(s.center, q)
  }

  /** The points of row `row`, by column: its latitude circle is computed once, then sampled per column. */
  function RowPoint(s: SphereArgs, trig: Trig, row: int): int -> Vec3
    requires WellShaped(s)
  {
    var ring := SphereRing(s, trig, row);
    col => SpherePoint(s, trig, ring, col)
  }

  /** The grid point (row, col) of the latitude/longitude sampling. */
  function GridPoint(s: SphereArgs, trig: Trig, row: int, col: int): Vec3
    requires WellShaped(s)
  {
    RowPoint(s, trig, row)(col)
  }

  /**
   * What slot `i` holds once the grid is filled: the point of its row and
   * column, except that the slot of column 0 holds the point of column
   * `columns`, which was written there last.
   */
  function SlotPoint(s: SphereArgs, trig: Trig, i: int): Vec3
    requires WellShaped(s) && i >= 0
  {
    var col := i % s.columns;
    GridPoint(s, trig, i / s.columns, if col == 0 then s.columns else col)
  }

  /** The first n slots of the filled grid array. */
  function SphereGridUpTo(s: SphereArgs, trig: Trig, n: nat): (g: seq<Vec3>)
    requires WellShaped(s)
    ensures |g| == n
  {
    if n == 0 then [] else SphereGridUpTo(s, trig, n - 1) + [SlotPoint(s, trig, n - 1)]
  }

  /** The filled grid array: rows + 1 rows of `columns` slots. */
  function SphereGrid(s: SphereArgs, trig: Trig): (g: seq<Vec3>)
    requires WellShaped(s)
    ensures |g| == s.rows * s.columns + s.columns
  {
    MulMonotone(0, s.rows, s.columns);
    SphereGridUpTo(s, trig, s.rows * s.columns + s.columns)
  }

  /** Slot i of the grid holds the point `SlotPoint` gives for it. */
  lemma {:induction false} SphereGridUpToIndex(s: SphereArgs, trig: Trig, n: nat, i: nat)
    requires WellShaped(s) && i < n
    ensures SphereGridUpTo(s, trig, n)[i] == SlotPoint(s, trig, i)
    decreases n
  {
    var prev := SphereGridUpTo(s, trig, n - 1);
    if i < n - 1 {
      SphereGridUpToIndex(s, trig, n - 1, i);
      assert SphereGridUpTo(s, trig, n)[i] == prev[i];
    }
  }

  lemma SphereGridIndex(s: SphereArgs, trig: Trig, i: nat)
    requires WellShaped(s) && i < s.rows * s.columns + s.columns
    ensures SphereGrid(s, trig)[i] == SlotPoint(s, trig, i)
  {
    MulMonotone(0, s.rows, s.columns);
    SphereGridUpToIndex(s, trig, s.rows * s.columns + s.columns, i);
  }

  /** A sequence of the grid's length holding every slot's point is the grid. */
  lemma SphereGridFromSlots(s: SphereArgs, trig: Trig, grid: seq<Vec3>)
    requires WellShaped(s) && |grid| == s.rows * s.columns + s.columns
    requires forall i :: 0 <= i < |grid| ==> grid[i] == SlotPoint(s, trig, i)
    ensures grid == SphereGrid(s, trig)
  {
    forall i | 0 <= i < |grid|
      ensures grid[i] == SphereGrid(s, trig)[i]
    {
      SphereGridIndex(s, trig, i);
    }
  }

  /**
   * The grid's layout: row r, column k (1 <= k < columns) is at slot
   * r * columns + k, and the slot of column 0 holds column `columns`, so the
   * point of the first longitude is overwritten in every row.
   */
  lemma SphereGridLayout(s: SphereArgs, trig: Trig, r: int, k: int)
    requires WellShaped(s) && 0 <= r <= s.rows && 0 <= k < s.columns
    ensures 0 <= r * s.columns + k < |SphereGrid(s, trig)|
    ensures SphereGrid(s, trig)[r * s.columns + k] == GridPoint(s, trig, r, if k == 0 then s.columns else k)
  {
    GridIndexInBounds(r, k, s.rows, s.columns);
    DivModUnique(r * s.columns + k, s.columns, r, k);
    SphereGridIndex(s, trig, r * s.columns + k);
  }

  // --------------------------------------------------------------- faces

  /**
   * iNextFace: the face after `face`, wrapped back to the start of the same
   * row when `face + 1` begins a new row. It stays inside the face range.
   */
  function NextFace(face: int, rows: int, columns: int): (n: int)
    requires columns > 0 && 0 <= face < rows * columns
    ensures 0 <= n < rows * columns
  {
    var next := face + 1;
    if next % columns == 0 then
      NextFaceInRange(face, rows, columns);
      next - columns
    else
      assert next != rows * columns by {
        DivModUnique(rows * columns, columns, rows, 0);
      }
      next
  }

  /** Wrapping back a row stays at or above 0: a face that ends a row is at least one row in. */
  lemma NextFaceInRange(face: int, rows: int, columns: int)
    requires columns > 0 && 0 <= face < rows * columns && (face + 1) % columns == 0
    ensures 0 <= face + 1 - columns
  {
    SuccDivMod(face, columns);
    DivModUnique(face + 1 - columns, columns, face / columns, 0);
    DivModUnique(columns, columns, 1, 0);
  }

  /** iNextFace lies in the row of `face`, one column further along, cyclically. */
  lemma NextFaceInRow(face: int, rows: int, columns: int)
    requires columns > 0 && 0 <= face < rows * columns
    ensures NextFace(face, rows, columns) / columns == face / columns
    ensures NextFace(face, rows, columns) % columns == (face % columns + 1) % columns
  {
    SuccDivMod(face, columns);
    var next := face + 1;
    if next % columns == 0 {
      DivModUnique(next - columns, columns, face / columns, 0);
      DivModUnique(columns, columns, 1, 0);
    } else {
      DivModUnique(next % columns, columns, 0, next % columns);
    }
  }

  /** Every grid read of the face walk (face, iNextFace, and each one row up) is a valid slot. */
  lemma FaceReadsInBounds(face: int, rows: int, columns: int)
    requires columns > 0 && 0 <= face < rows * columns
    ensures 0 <= face && face + columns < rows * columns + columns
    ensures 0 <= NextFace(face, rows, columns) && NextFace(face, rows, columns) + columns < rows * columns + columns
  {
  }

  /**
   * The seam rule: the second line and both triangles of a face are skipped
   * when the face starts a row and the longitude range is not a full turn.
   */
  predicate SkipsSeam(face: int, columns: int, partialRange: bool)
    requires columns > 0
  {
    face % columns == 0 && partialRange
  }

  /** `longitudinalRange < 2 pi`, evaluated in exact reals. */
  predicate PartialRange(s: SphereArgs) {
    (s.longMax - s.longMin) * DegToRad < 2.0 * Pi
  }

  /** The lines face `face` emits: the line up its first column, then (unless at the seam) the top edge. */
  function FaceLines(grid: seq<Vec3>, rows: int, columns: int, partialRange: bool, face: int): seq<GizmoLine>
    requires columns > 0 && 0 <= face < rows * columns && |grid| == rows * columns + columns
  {
    var next := NextFace(face, rows, columns);
    [LineOf(grid[face], grid[face + columns], White, White)]
    + (if SkipsSeam(face, columns, partialRange) then []
       else [LineOf(grid[next + columns], grid[face + columns], White, White)])
  }

  /** The two triangles of face `face`, unless it is skipped at the seam. */
  function FaceTris(grid: seq<Vec3>, rows: int, columns: int, partialRange: bool, fill: Vec4, face: int): seq<GizmoTri>
    requires columns > 0 && 0 <= face < rows * columns && |grid| == rows * columns + columns
  {
    var next := NextFace(face, rows, columns);
    if SkipsSeam(face, columns, partialRange) then []
    else [ TriOf(grid[next + columns], grid[face], grid[next], fill),
           TriOf(grid[next + columns], grid[face + columns], grid[face], fill) ]
  }

  /**
   * A face's output as the single appends addSphere issues: the line up the
   * first column, then, away from the seam, the top edge and two triangles.
   */
  lemma FaceInOrder(lines: seq<GizmoLine>, tris: seq<GizmoTri>, grid: seq<Vec3>, rows: int, columns: int,
                    partialRange: bool, fill: Vec4, face: int)
    requires columns > 0 && 0 <= face < rows * columns && |grid| == rows * columns + columns
    ensures SkipsSeam(face, columns, partialRange) ==>
      lines + FaceLines(grid, rows, columns, partialRange, face)
      == lines + [LineOf(grid[face], grid[face + columns], White, White)]
    ensures var next := NextFace(face, rows, columns);
      !SkipsSeam(face, columns, partialRange) ==>
        lines + FaceLines(grid, rows, columns, partialRange, face)
        == lines + [LineOf(grid[face], grid[face + columns], White, White)]
                 + [LineOf(grid[next + columns], grid[face + columns], White, White)]
    ensures var next := NextFace(face, rows, columns);
      !SkipsSeam(face, columns, partialRange) ==>
        tris + FaceTris(grid, rows, columns, partialRange, fill, face)
        == tris + [TriOf(grid[next + columns], grid[face], grid[next], fill)]
                + [TriOf(grid[next + columns], grid[face + columns], grid[face], fill)]
    ensures SkipsSeam(face, columns, partialRange) ==> tris + FaceTris(grid, rows, columns, partialRange, fill, face) == tris
  {
  }

  /** The lines of faces 0 .. n - 1. */
  function SphereLines(grid: seq<Vec3>, rows: int, columns: int, partialRange: bool, n: int): seq<GizmoLine>
    requires columns > 0 && 0 <= n <= rows * columns && |grid| == rows * columns + columns
    decreases n
  {
    if n == 0 then []
    else SphereLines(grid, rows, columns, partialRange, n - 1) + FaceLines(grid, rows, columns, partialRange, n - 1)
  }

  /** The triangles of faces 0 .. n - 1. */
  function SphereTris(grid: seq<Vec3>, rows: int, columns: int, partialRange: bool, fill: Vec4, n: int): seq<GizmoTri>
    requires columns > 0 && 0 <= n <= rows * columns && |grid| == rows * columns + columns
    decreases n
  {
    if n == 0 then []
    else SphereTris(grid, rows, columns, partialRange, fill, n - 1) + FaceTris(grid, rows, columns, partialRange, fill, n - 1)
  }

  /** The walk up to face n + 1 is the walk up to face n followed by face n's output. */
  lemma SphereStep(grid: seq<Vec3>, rows: int, columns: int, partialRange: bool, fill: Vec4, n: int)
    requires columns > 0 && 0 <= n < rows * columns && |grid| == rows * columns + columns
    ensures SphereLines(grid, rows, columns, partialRange, n + 1)
         == SphereLines(grid, rows, columns, partialRange, n) + FaceLines(grid, rows, columns, partialRange, n)
    ensures SphereTris(grid, rows, columns, partialRange, fill, n + 1)
         == SphereTris(grid, rows, columns, partialRange, fill, n) + FaceTris(grid, rows, columns, partialRange, fill, n)
  {
  }

  /** How many of faces 0 .. n - 1 start a row. */
  function RowStarts(n: int, columns: int): (r: int)
    requires columns > 0 && n >= 0
    decreases n
  {
    if n == 0 then 0 else RowStarts(n - 1, columns) + (if (n - 1) % columns == 0 then 1 else 0)
  }

  /** A face emits two lines and two triangles, or one line and none when it is skipped at the seam. */
  lemma FaceEmission(grid: seq<Vec3>, rows: int, columns: int, partialRange: bool, fill: Vec4, face: int)
    requires columns > 0 && 0 <= face < rows * columns && |grid| == rows * columns + columns
    ensures SkipsSeam(face, columns, partialRange) ==>
      |FaceLines(grid, rows, columns, partialRange, face)| == 1 && FaceTris(grid, rows, columns, partialRange, fill, face) == []
    ensures !SkipsSeam(face, columns, partialRange) ==>
      |FaceLines(grid, rows, columns, partialRange, face)| == 2 && |FaceTris(grid, rows, columns, partialRange, fill, face)| == 2
  {
  }

  /** With a full longitude range every one of the first n faces emits 2 lines and 2 triangles. */
  lemma {:induction false} SphereCountsFullRange(grid: seq<Vec3>, rows: int, columns: int, fill: Vec4, n: int)
    requires columns > 0 && 0 <= n <= rows * columns && |grid| == rows * columns + columns
    ensures |SphereLines(grid, rows, columns, false, n)| == 2 * n
    ensures |SphereTris(grid, rows, columns, false, fill, n)| == 2 * n
    decreases n
  {
    if n > 0 {
      SphereCountsFullRange(grid, rows, columns, fill, n - 1);
    }
  }

  /** With a partial range, each face that starts a row costs one line and two triangles. */
  lemma {:induction false} SphereCountsPartial(grid: seq<Vec3>, rows: int, columns: int, fill: Vec4, n: int)
    requires columns > 0 && 0 <= n <= rows * columns && |grid| == rows * columns + columns
    ensures |SphereLines(grid, rows, columns, true, n)| == 2 * n - RowStarts(n, columns)
    ensures |SphereTris(grid, rows, columns, true, fill, n)| == 2 * n - 2 * RowStarts(n, columns)
    decreases n
  {
    if n > 0 {
      SphereCountsPartial(grid, rows, columns, fill, n - 1);
    }
  }

  /** Within one row of faces, only its first face starts a row. */
  lemma {:induction false} RowStartsInRow(r: int, k: int, columns: int)
    requires columns > 0 && r >= 0 && 0 < k <= columns
    ensures RowStarts(r * columns + k, columns) == RowStarts(r * columns, columns) + 1
    decreases k
  {
    if k == 1 {
      DivModUnique(r * columns, columns, r, 0);
    } else {
      RowStartsInRow(r, k - 1, columns);
      DivModUnique(r * columns + k - 1, columns, r, k - 1);
    }
  }

  /** `rows` rows of faces hold exactly `rows` faces that start a row. */
  lemma {:induction false} RowStartsOfRows(rows: int, columns: int)
    requires columns > 0 && rows >= 0
    ensures RowStarts(rows * columns, columns) == rows
    decreases rows
  {
    if rows > 0 {
      RowStartsOfRows(rows - 1, columns);
      RowStartsInRow(rows - 1, columns, columns);
      assert (rows - 1) * columns + columns == rows * columns;
    }
  }

  /**
   * The whole face walk: a full range gives 2 lines and 2 triangles per face;
   * a partial range drops the seam line and the two triangles of the first
   * face of every row, one per row.
   */
  lemma SphereFaceCounts(grid: seq<Vec3>, rows: int, columns: int, partialRange: bool, fill: Vec4)
    requires columns > 0 && rows >= 0 && |grid| == rows * columns + columns
    ensures !partialRange ==>
      |SphereLines(grid, rows, columns, partialRange, rows * columns)| == 2 * (rows * columns) &&
      |SphereTris(grid, rows, columns, partialRange, fill, rows * columns)| == 2 * (rows * columns)
    ensures partialRange ==>
      |SphereLines(grid, rows, columns, partialRange, rows * columns)| == 2 * (rows * columns) - rows &&
      |SphereTris(grid, rows, columns, partialRange, fill, rows * columns)| == 2 * (rows * columns) - 2 * rows
  {
    assert 0 <= rows * columns by { MulMonotone(0, rows, columns); }
    if partialRange {
      SphereCountsPartial(grid, rows, columns, fill, rows * columns);
      RowStartsOfRows(rows, columns);
    } else {
      SphereCountsFullRange(grid, rows, columns, fill, rows * columns);
    }
  }

  /** The default arguments (0 to 360 degrees of longitude) cover a full turn; 0 to 180 does not. */
  lemma DefaultRangeIsFull(s: SphereArgs)
    ensures s.longMin == 0.0 && s.longMax == 360.0 ==> !PartialRange(s)
    ensures s.longMin == 0.0 && s.longMax == 180.0 ==> PartialRange(s)
  {
  }

  /**
   * The faces at the seam of row r, on any grid: the row's last face wraps to
   * the row's first slot, and with a partial range the first face keeps only
   * its line up the first column.
   */
  lemma SeamFaces(grid: seq<Vec3>, rows: int, columns: int, partialRange: bool, fill: Vec4, r: int)
    requires columns > 1 && 0 <= r < rows && |grid| == rows * columns + columns
    ensures 0 <= r * columns && r * columns + columns <= rows * columns
    ensures NextFace(r * columns + columns - 1, rows, columns) == r * columns
    ensures FaceLines(grid, rows, columns, partialRange, r * columns + columns - 1)
        == [ LineOf(grid[r * columns + columns - 1], grid[r * columns + 2 * columns - 1], White, White),
             LineOf(grid[r * columns + columns], grid[r * columns + 2 * columns - 1], White, White) ]
    ensures partialRange ==>
      FaceLines(grid, rows, columns, partialRange, r * columns) == [LineOf(grid[r * columns], grid[r * columns + columns], White, White)]
      && FaceTris(grid, rows, columns, partialRange, fill, r * columns) == []
  {
    var c := columns;
    MulMonotone(r + 1, rows, c);
    DivModUnique(r * c + c - 1, c, r, c - 1);
    DivModUnique(r * c + c, c, r + 1, 0);
    DivModUnique(r * c, c, r, 0);
  }

  /**
   * The seam of row r on the filled grid: the row's last face ends on the
   * row's first slot, which holds column `columns`, so the strip from column
   * `columns` - 1 to the last longitude is drawn; the first face starts at
   * column `columns` too, and with a partial range it keeps only its line up
   * that column. No face reads column 0: the strip from column 0 to column 1
   * and the first longitude's meridian are never drawn.
   */
  lemma SeamOfRow(s: SphereArgs, trig: Trig, r: int)
    requires WellShaped(s) && s.columns > 1 && 0 <= r < s.rows
    ensures 0 <= r * s.columns && r * s.columns + s.columns <= s.rows * s.columns
    ensures |SphereGrid(s, trig)| == s.rows * s.columns + s.columns
    ensures NextFace(r * s.columns + s.columns - 1, s.rows, s.columns) == r * s.columns
    ensures FaceLines(SphereGrid(s, trig), s.rows, s.columns, PartialRange(s), r * s.columns + s.columns - 1)
      == [ LineOf(GridPoint(s, trig, r, s.columns - 1), GridPoint(s, trig, r + 1, s.columns - 1), White, White),
           LineOf(GridPoint(s, trig, r + 1, s.columns), GridPoint(s, trig, r + 1, s.columns - 1), White, White) ]
    ensures PartialRange(s) ==>
      FaceLines(SphereGrid(s, trig), s.rows, s.columns, true, r * s.columns)
        == [LineOf(GridPoint(s, trig, r, s.columns), GridPoint(s, trig, r + 1, s.columns), White, White)]
      && FaceTris(SphereGrid(s, trig), s.rows, s.columns, true, White, r * s.columns) == []
  {
    var c := s.columns;
    var g := SphereGrid(s, trig);
    SeamFaces(g, s.rows, c, PartialRange(s), White, r);
    assert r * c + 2 * c - 1 == (r + 1) * c + (c - 1);
    assert r * c + c == (r + 1) * c + 0;
    SphereGridLayout(s, trig, r, c - 1);
    SphereGridLayout(s, trig, r + 1, c - 1);
    SphereGridLayout(s, trig, r + 1, 0);
    SphereGridLayout(s, trig, r, 0);
    assert FaceLines(g, s.rows, c, PartialRange(s), r * c + c - 1)
      == [ LineOf(g[r * c + c - 1], g[r * c + 2 * c - 1], White, White),
           LineOf(g[r * c + c], g[r * c + 2 * c - 1], White, White) ];
  }

  // ---------------------------------------------------------------- fill

  /** Slot `row * columns + k` of the filled grid holds column k of its row, or column `columns` for k == 0. */
  lemma SlotOfRow(s: SphereArgs, trig: Trig, row: int, k: int)
    requires WellShaped(s) && 0 <= row && 0 <= k < s.columns
    ensures SlotPoint(s, trig, row * s.columns + k) == GridPoint(s, trig, row, if k == 0 then s.columns else k)
  {
    DivModUnique(row * s.columns + k, s.columns, row, k);
  }

  /**
   * The inner loop of addSphere's grid fill, over the row's point function:
   * columns 0 to `columns` inclusive, each written to
   * `row * columns + col % columns`. Column `columns` is written last, onto
   * the slot of column 0; no slot outside the row's block changes.
   */
  method FillRowSlots(v4Array: array<Vec3>, row: int, columns: int, point: int -> Vec3)
    requires columns > 0 && 0 <= row && row * columns + columns <= v4Array.Length
    modifies v4Array
    ensures v4Array[..row * columns] == old(v4Array[..row * columns])
    ensures v4Array[row * columns + columns..] == old(v4Array[row * columns + columns..])
    ensures v4Array[row * columns] == point(columns)
    ensures forall k :: 0 < k < columns ==> v4Array[row * columns + k] == point(k)
  {
    var base := row * columns;
    var col := 0;
    while col <= columns
      invariant 0 <= col <= columns + 1
      invariant v4Array[..base] == old(v4Array[..base])
      invariant v4Array[base + columns..] == old(v4Array[base + columns..])
      invariant forall k :: 0 < k < col && k < columns ==> v4Array[base + k] == point(k)
      invariant 0 < col ==> v4Array[base] == point(if col == columns + 1 then columns else 0)
    {
      var index := GridIndex(row, col, columns);
      v4Array[index] := point(col);
      col := col + 1;
    }
  }

  /**
   * One row of addSphere's grid fill: the latitude circle of `row` is
   * computed once, then every column's point is written to its slot.
   * Afterwards the row's block holds its final points and no other slot has
   * changed.
   */
  method FillGridRow(v4Array: array<Vec3>, s: SphereArgs, trig: Trig, row: int)
    requires WellShaped(s) && 0 <= row <= s.rows && v4Array.Length == s.rows * s.columns + s.columns
    modifies v4Array
    ensures row * s.columns + s.columns <= v4Array.Length
    ensures v4Array[..row * s.columns] == old(v4Array[..row * s.columns])
    ensures v4Array[row * s.columns + s.columns..] == old(v4Array[row * s.columns + s.columns..])
    ensures forall i :: row * s.columns <= i < row * s.columns + s.columns ==> v4Array[i] == SlotPoint(s, trig, i)
  {
    var columns := s.columns;
    GridIndexInBounds(row, 0, s.rows, columns);
    FillRowSlots(v4Array, row, columns, RowPoint(s, trig, row));
    forall i | row * columns <= i < row * columns + columns
      ensures v4Array[i] == SlotPoint(s, trig, i)
    {
      var k := i - row * columns;
      SlotOfRow(s, trig, row, k);
      if k == 0 {
        assert v4Array[row * columns] == GridPoint(s, trig, row, columns);
      } else {
        assert v4Array[row * columns + k] == GridPoint(s, trig, row, k);
      }
    }
  }

  /**
   * The outer loop of addSphere's grid fill: every row from 0 to `rows`
   * inclusive. The result is the grid of `SphereGrid`.
   */
  method FillSphereGrid(s: SphereArgs, trig: Trig) returns (grid: seq<Vec3>)
    requires WellShaped(s)
    ensures grid == SphereGrid(s, trig)
  {
    var rows, columns := s.rows, s.columns;
    var v4Array := new Vec3[rows * columns + columns];
    var row := 0;
    ghost var base := 0;  // row * columns, the first slot of the current row
    while row <= rows
      invariant 0 <= row <= rows + 1
      invariant base == row * columns && base <= v4Array.Length
      invariant forall i :: 0 <= i < base ==> v4Array[i] == SlotPoint(s, trig, i)
    {
      MulMonotone(row, rows, columns);
      FillGridRow(v4Array, s, trig, row);
      assert base + columns == (row + 1) * columns;
      row := row + 1;
      base := base + columns;
    }
    grid := v4Array[..];
    SphereGridFromSlots(s, trig, grid);
  }
}
