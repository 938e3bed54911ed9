/**
 * What the coordinate-axis, box, cylinder and circle builders emit, as pure
 * functions of their arguments: the lines, the triangles and the vertices
 * reported through the optional out-parameter. The builders themselves are
 * methods of `Batch.GizmosGlobal`, proved to append exactly these runs under
 * the capacity policy of `Primitives.Admit`.
 */
module Shapes {
  import opened Geometry
  import opened Primitives

  // ---------------------------------------------------------------- axes

  /** The three axis lines of addTransform: from the translation column along each scaled basis column, red, green, blue. */
  function TransformAxisLines(transform: Mat4, scale: real): seq<GizmoLine> {
    var origin := Xyz(transform.c3);
    [ LineOf(origin, Xyz(Add4(transform.c3, Scale4(transform.c0, scale))), Red, Red),
      LineOf(origin, Xyz(Add4(transform.c3, Scale4(transform.c1, scale))), Green, Green),
      LineOf(origin, Xyz(Add4(transform.c3, Scale4(transform.c2, scale))), Blue, Blue) ]
  }

  /** With the identity transform and scale 1 the gizmo is the three unit axes at the origin. */
  lemma TransformAxesAtIdentity()
    ensures TransformAxisLines(Identity, 1.0) ==
      [ LineOf(Origin, Vec3(1.0, 0.0, 0.0), Red, Red),
        LineOf(Origin, Vec3(0.0, 1.0, 0.0), Green, Green),
        LineOf(Origin, Vec3(0.0, 0.0, 1.0), Blue, Blue) ]
  {
  }

  // ----------------------------------------------------------------- box

  /**
   * The eight corners of addBox: the centre offset by the transformed half
   * extents. Corners 0..3 form the ring at -y, corners 4..7 the ring at +y,
   * and corner k + 4 lies above corner k.
   */
  function BoxCorners(center: Vec3, dimensions: Vec3, transform: Mat4): (v: seq<Vec3>)
    ensures |v| == 8
  {
    var vX := TransformDirection(transform, Vec3(dimensions.x * 0.5, 0.0, 0.0));
    var vY := TransformDirection(transform, Vec3(0.0, dimensions.y * 0.5, 0.0));
    var vZ := TransformDirection(transform, Vec3(0.0, 0.0, dimensions.z * 0.5));
    [ Sub(Sub(Sub(center, vX), vZ), vY),
      Sub(Add(Sub(center, vX), vZ), vY),
      Sub(Add(Add(center, vX), vZ), vY),
      Sub(Sub(Add(center, vX), vZ), vY),
      Add(Sub(Sub(center, vX), vZ), vY),
      Add(Add(Sub(center, vX), vZ), vY),
      Add(Add(Add(center, vX), vZ), vY),
      Add(Sub(Add(center, vX), vZ), vY) ]
  }

  /** A white edge between two corners. */
  function Edge(a: Vec3, b: Vec3): GizmoLine {
    LineOf(a, b, White, White)
  }

  /** The twelve white edges of addBox, in the order it emits them. */
  function BoxLines(v: seq<Vec3>): seq<GizmoLine>
    requires |v| == 8
  {
    [ Edge(v[0], v[1]), Edge(v[1], v[2]), Edge(v[2], v[3]), Edge(v[3], v[0]),
      Edge(v[4], v[5]), Edge(v[5], v[6]), Edge(v[6], v[7]), Edge(v[7], v[4]),
      Edge(v[0], v[4]), Edge(v[1], v[5]), Edge(v[2], v[6]), Edge(v[3], v[7]) ]
  }

  /** The twelve triangles of a filled box, two per face, in the order addBox emits them. */
  function BoxTris(v: seq<Vec3>, fill: Vec4): seq<GizmoTri>
    requires |v| == 8
  {
    [ TriOf(v[2], v[1], v[0], fill), TriOf(v[3], v[2], v[0], fill),
      TriOf(v[5], v[6], v[4], fill), TriOf(v[6], v[7], v[4], fill),
      TriOf(v[4], v[3], v[0], fill), TriOf(v[7], v[3], v[4], fill),
      TriOf(v[1], v[2], v[5], fill), TriOf(v[2], v[6], v[5], fill),
      TriOf(v[0], v[1], v[4], fill), TriOf(v[1], v[5], v[4], fill),
      TriOf(v[2], v[3], v[7], fill), TriOf(v[6], v[2], v[7], fill) ]
  }

  /** The box edges as twelve appends of one line each, the way addBox issues them. */
  lemma BoxLinesInOrder(v: seq<Vec3>)
    requires |v| == 8
    ensures BoxLines(v) == [] + [LineOf(v[0], v[1], White, White)] + [LineOf(v[1], v[2], White, White)]
                    + [LineOf(v[2], v[3], White, White)] + [LineOf(v[3], v[0], White, White)]
                    + [LineOf(v[4], v[5], White, White)] + [LineOf(v[5], v[6], White, White)]
                    + [LineOf(v[6], v[7], White, White)] + [LineOf(v[7], v[4], White, White)]
                    + [LineOf(v[0], v[4], White, White)] + [LineOf(v[1], v[5], White, White)]
                    + [LineOf(v[2], v[6], White, White)] + [LineOf(v[3], v[7], White, White)]
  {
  }

  /** The box triangles as twelve appends of one triangle each, the way addBox issues them. */
  lemma BoxTrisInOrder(v: seq<Vec3>, fill: Vec4)
    requires |v| == 8
    ensures BoxTris(v, fill) == [] + [TriOf(v[2], v[1], v[0], fill)] + [TriOf(v[3], v[2], v[0], fill)]
                    + [TriOf(v[5], v[6], v[4], fill)] + [TriOf(v[6], v[7], v[4], fill)]
                    + [TriOf(v[4], v[3], v[0], fill)] + [TriOf(v[7], v[3], v[4], fill)]
                    + [TriOf(v[1], v[2], v[5], fill)] + [TriOf(v[2], v[6], v[5], fill)]
                    + [TriOf(v[0], v[1], v[4], fill)] + [TriOf(v[1], v[5], v[4], fill)]
                    + [TriOf(v[2], v[3], v[7], fill)] + [TriOf(v[6], v[2], v[7], fill)]
  {
  }

  /** The four edges closing the ring of corners first .. first + 3: each corner to the next, the last back to the first. */
  function RingEdges(v: seq<Vec3>, first: nat): seq<GizmoLine>
    requires first + 4 <= |v|
  {
    seq(4, k requires 0 <= k < 4 => Edge(v[first + k], v[if k == 3 then first else first + k + 1]))
  }

  /**
   * The box outline is 12 edges: the four around the ring of corners 0..3,
   * the four around the ring of corners 4..7, and four joining corner k to
   * corner k + 4.
   */
  lemma BoxEdgeStructure(v: seq<Vec3>)
    requires |v| == 8
    ensures BoxLines(v) == RingEdges(v, 0) + RingEdges(v, 4)
                           + seq(4, k requires 0 <= k < 4 => Edge(v[k], v[k + 4]))
  {
  }

  // ------------------------------------------------------------ cylinder

  /** The arguments of addCylinder that shape its output. */
  datatype Cylinder = Cylinder(center: Vec3, radius: real, halfLength: real, segments: nat, transform: Mat4)

  /** The six points of one segment, already transformed and moved to the centre. */
  datatype CylinderSegment = CylinderSegment(top0: Vec3, top1: Vec3, top2: Vec3,
                                             bottom0: Vec3, bottom1: Vec3, bottom2: Vec3)

  /** `k * fSegmentSize`, where fSegmentSize is a full turn divided by the segment count. */
  function SegmentAngle(segments: nat, k: nat): real
    requires segments > 0
  {
    (k as real) * ((2.0 * Pi) / (segments as real))
  }

  /** Segment `i` of a cylinder: the cap centres and the ring points at angles i and i + 1. */
  function CylinderSegmentAt(cyl: Cylinder, trig: Trig, i: nat): CylinderSegment
    requires i < cyl.segments
  {
    var a1 := SegmentAngle(cyl.segments, i);
    var a2 := SegmentAngle(cyl.segments, i + 1);
    var h, r, T := cyl.halfLength, cyl.radius, cyl.transform;
    CylinderSegment(
      Add(cyl.center, TransformDirection(T, Vec3(0.0, h, 0.0))),
      Add(cyl.center, TransformDirection(T, Vec3(trig.sin(a1) * r, h, trig.cos(a1) * r))),
      Add(cyl.center, TransformDirection(T, Vec3(trig.sin(a2) * r, h, trig.cos(a2) * r))),
      Add(cyl.center, TransformDirection(T, Vec3(0.0, -h, 0.0))),
      Add(cyl.center, TransformDirection(T, Vec3(trig.sin(a1) * r, -h, trig.cos(a1) * r))),
      Add(cyl.center, TransformDirection(T, Vec3(trig.sin(a2) * r, -h, trig.cos(a2) * r))))
  }

  /** The three white lines of one segment: the top rim, one side, the bottom rim. */
  function SegmentLines(s: CylinderSegment): seq<GizmoLine> {
    [Edge(s.top1, s.top2), Edge(s.top1, s.bottom1), Edge(s.bottom1, s.bottom2)]
  }

  /** The four triangles of one filled segment: top cap, bottom cap and the two halves of the side. */
  function SegmentTris(s: CylinderSegment, fill: Vec4): seq<GizmoTri> {
    [ TriOf(s.top0, s.top1, s.top2, fill), TriOf(s.bottom0, s.bottom2, s.bottom1, fill),
      TriOf(s.top2, s.top1, s.bottom1, fill), TriOf(s.bottom1, s.bottom2, s.top2, fill) ]
  }

  /** The twelve vertices one filled segment writes into the out-parameter, slots 12i to 12i + 11. */
  function SegmentVertices(s: CylinderSegment): seq<Vec3> {
    [ s.top0, s.top1, s.top2, s.bottom0, s.bottom2, s.bottom1,
      s.top2, s.top1, s.bottom1, s.bottom1, s.bottom2, s.top2 ]
  }

  /** The segments of a cylinder, in the order the loop visits them. */
  function CylinderSegments(cyl: Cylinder, trig: Trig): (segs: seq<CylinderSegment>)
    ensures |segs| == cyl.segments
  {
    seq(cyl.segments, i requires 0 <= i < cyl.segments => CylinderSegmentAt(cyl, trig, i))
  }

  /** Segment i of the run is the one computed for index i. */
  lemma CylinderSegmentIndex(cyl: Cylinder, trig: Trig, i: nat)
    requires i < cyl.segments
    ensures CylinderSegments(cyl, trig)[i] == CylinderSegmentAt(cyl, trig, i)
  {
    assert |CylinderSegments(cyl, trig)| == cyl.segments;
  }

  /** The lines of a run of segments, segment by segment. */
  function CylinderLines(segs: seq<CylinderSegment>): seq<GizmoLine> {
    if segs == [] then [] else CylinderLines(segs[..|segs| - 1]) + SegmentLines(segs[|segs| - 1])
  }

  /** The triangles of a run of filled segments, segment by segment. */
  function CylinderTris(segs: seq<CylinderSegment>, fill: Vec4): seq<GizmoTri> {
    if segs == [] then [] else CylinderTris(segs[..|segs| - 1], fill) + SegmentTris(segs[|segs| - 1], fill)
  }

  /** The vertices a filled cylinder reports for a run of segments. */
  function CylinderVertices(segs: seq<CylinderSegment>): seq<Vec3> {
    if segs == [] then [] else CylinderVertices(segs[..|segs| - 1]) + SegmentVertices(segs[|segs| - 1])
  }

  /** A segment's lines and triangles as appends of one primitive each, the way addCylinder issues them. */
  lemma SegmentInOrder(lines: seq<GizmoLine>, tris: seq<GizmoTri>, s: CylinderSegment, fill: Vec4)
    ensures lines + SegmentLines(s) == lines + [LineOf(s.top1, s.top2, White, White)]
                                       + [LineOf(s.top1, s.bottom1, White, White)]
                                       + [LineOf(s.bottom1, s.bottom2, White, White)]
    ensures tris + SegmentTris(s, fill) == tris + [TriOf(s.top0, s.top1, s.top2, fill)]
                                          + [TriOf(s.bottom0, s.bottom2, s.bottom1, fill)]
                                          + [TriOf(s.top2, s.top1, s.bottom1, fill)]
                                          + [TriOf(s.bottom1, s.bottom2, s.top2, fill)]
  {
  }

  /** One more segment appends its own lines, triangles and vertices to the run's. */
  lemma CylinderStep(segs: seq<CylinderSegment>, s: CylinderSegment, fill: Vec4)
    ensures CylinderLines(segs + [s]) == CylinderLines(segs) + SegmentLines(s)
    ensures CylinderTris(segs + [s], fill) == CylinderTris(segs, fill) + SegmentTris(s, fill)
    ensures CylinderVertices(segs + [s]) == CylinderVertices(segs) + SegmentVertices(s)
  {
    assert (segs + [s])[..|segs|] == segs;
  }

  /** n segments give 3n lines, 4n triangles when filled, and 12n reported vertices; 0 segments give nothing. */
  lemma {:induction false} CylinderCounts(segs: seq<CylinderSegment>, fill: Vec4)
    ensures |CylinderLines(segs)| == 3 * |segs|
    ensures |CylinderTris(segs, fill)| == 4 * |segs|
    ensures |CylinderVertices(segs)| == 12 * |segs|
    decreases |segs|
  {
    if segs != [] {
      CylinderCounts(segs[..|segs| - 1], fill);
    }
  }

  /** A filled cylinder reports exactly the corners of the triangles it emits, in emission order. */
  lemma {:induction false} CylinderVerticesAreTriCorners(segs: seq<CylinderSegment>, fill: Vec4)
    ensures CylinderVertices(segs) == Corners(CylinderTris(segs, fill))
    decreases |segs|
  {
    if segs != [] {
      var init, last := segs[..|segs| - 1], segs[|segs| - 1];
      CylinderVerticesAreTriCorners(init, fill);
      CornersAppend(CylinderTris(init, fill), SegmentTris(last, fill));
      SegmentCorners(last, fill);
    }
  }

  /** The twelve vertices of one segment are the corners of its four triangles, in order. */
  lemma SegmentCorners(s: CylinderSegment, fill: Vec4)
    ensures Corners(SegmentTris(s, fill)) == SegmentVertices(s)
  {
    var t := SegmentTris(s, fill);
    assert t == [t[0]] + [t[1]] + [t[2]] + [t[3]];
    CornersAppend([t[0]] + [t[1]] + [t[2]], [t[3]]);
    CornersAppend([t[0]] + [t[1]], [t[2]]);
    CornersAppend([t[0]], [t[1]]);
    CornersOne(t[0]);
    CornersOne(t[1]);
    CornersOne(t[2]);
    CornersOne(t[3]);
  }

  // -------------------------------------------------------------- circle

  /** The arguments of addCircle that shape its output. */
  datatype Circle = Circle(center: Vec3, radius: real, segments: nat, transform: Mat4)

  /** The first edge vector before the loop: (0, 0, radius, 0), standing for angle 0. */
  function CircleStart(c: Circle): Vec4 {
    Vec4(0.0, 0.0, c.radius, 0.0)
  }

  /** The untransformed edge vector at angle k * fAngle, for k >= 1. */
  function CircleSample(c: Circle, trig: Trig, k: nat): Vec4
    requires 0 < k <= c.segments
  {
    var a := SegmentAngle(c.segments, k);
    Vec4(trig.sin(a) * c.radius, 0.0, trig.cos(a) * c.radius, 0.0)
  }

  /**
   * v3Edge1 in iteration i. The loop carries the already transformed v3Edge2
   * into the next iteration and transforms it again, so for i >= 1 the
   * transform is applied twice; only the start vector is transformed once.
   */
  function CircleEdge1(c: Circle, trig: Trig, i: nat): Vec4
    requires i < c.segments
  {
    if i == 0 then MulVec(c.transform, CircleStart(c))
    else MulVec(c.transform, MulVec(c.transform, CircleSample(c, trig, i)))
  }

  /** v3Edge2 in iteration i: the sample at angle i + 1, transformed once. */
  function CircleEdge2(c: Circle, trig: Trig, i: nat): Vec4
    requires i < c.segments
  {
    MulVec(c.transform, CircleSample(c, trig, i + 1))
  }

  /** What iteration i of addCircle works with: v3Edge1 and v3Edge2 after the transform. */
  datatype CircleSegment = CircleSegment(edge1: Vec4, edge2: Vec4)

  function CircleSegmentAt(c: Circle, trig: Trig, i: nat): CircleSegment
    requires i < c.segments
  {
    CircleSegment(CircleEdge1(c, trig, i), CircleEdge2(c, trig, i))
  }

  /** The first n segments of a circle, in the order the loop visits them. */
  function CircleSegmentsUpTo(c: Circle, trig: Trig, n: nat): (segs: seq<CircleSegment>)
    requires n <= c.segments
    ensures |segs| == n
  {
    if n == 0 then [] else CircleSegmentsUpTo(c, trig, n - 1) + [CircleSegmentAt(c, trig, n - 1)]
  }

  /** All segments of a circle. */
  function CircleSegments(c: Circle, trig: Trig): (segs: seq<CircleSegment>)
    ensures |segs| == c.segments
  {
    CircleSegmentsUpTo(c, trig, c.segments)
  }

  /**
   * v3Edge1 at the top of iteration i, before this iteration's transform:
   * the start vector, then the transformed v3Edge2 of iteration i - 1.
   */
  function CarriedEdge(start: Vec4, segs: seq<CircleSegment>, i: nat): Vec4
    requires i <= |segs|
  {
    if i == 0 then start else segs[i - 1].edge2
  }

  /** Segment i of the run is the one computed for index i. */
  lemma CircleSegmentIndex(c: Circle, trig: Trig, i: nat)
    requires i < c.segments
    ensures CircleSegments(c, trig)[i] == CircleSegmentAt(c, trig, i)
  {
    CircleSegmentsUpToIndex(c, trig, c.segments, i);
  }

  lemma {:induction false} CircleSegmentsUpToIndex(c: Circle, trig: Trig, n: nat, i: nat)
    requires i < n <= c.segments
    ensures CircleSegmentsUpTo(c, trig, n)[i] == CircleSegmentAt(c, trig, i)
    decreases n
  {
    var prev := CircleSegmentsUpTo(c, trig, n - 1);
    if i < n - 1 {
      CircleSegmentsUpToIndex(c, trig, n - 1, i);
      assert CircleSegmentsUpTo(c, trig, n)[i] == prev[i];
    }
  }

  /**
   * The two triangles of a filled segment. As written in the source, the
   * first triangle's second corner is v3Edge1 itself, without the centre.
   */
  function CircleSegmentTris(center: Vec3, s: CircleSegment, colour: Vec4): seq<GizmoTri> {
    var e1, e2 := Xyz(s.edge1), Xyz(s.edge2);
    [ TriOf(center, e1, Add(center, e2), colour),
      TriOf(Add(center, e2), Add(center, e1), center, colour) ]
  }

  /** The one line of an unfilled segment, drawn in the single colour. */
  function CircleSegmentLine(center: Vec3, s: CircleSegment, colour: Vec4): GizmoLine {
    LineOf(Add(center, Xyz(s.edge1)), Add(center, Xyz(s.edge2)), colour, colour)
  }

  /** The three vertices a filled segment writes into the out-parameter. */
  function CircleSegmentVertices(center: Vec3, s: CircleSegment): seq<Vec3> {
    [center, Xyz(s.edge1), Add(center, Xyz(s.edge2))]
  }

  /** The lines of a run of unfilled segments. */
  function CircleLines(center: Vec3, segs: seq<CircleSegment>, colour: Vec4): seq<GizmoLine> {
    if segs == [] then []
    else CircleLines(center, segs[..|segs| - 1], colour) + [CircleSegmentLine(center, segs[|segs| - 1], colour)]
  }

  /** The triangles of a run of filled segments. */
  function CircleTris(center: Vec3, segs: seq<CircleSegment>, colour: Vec4): seq<GizmoTri> {
    if segs == [] then []
    else CircleTris(center, segs[..|segs| - 1], colour) + CircleSegmentTris(center, segs[|segs| - 1], colour)
  }

  /** The vertices a filled circle reports for a run of segments. */
  function CircleVertices(center: Vec3, segs: seq<CircleSegment>): seq<Vec3> {
    if segs == [] then []
    else CircleVertices(center, segs[..|segs| - 1]) + CircleSegmentVertices(center, segs[|segs| - 1])
  }

  /** One more segment appends its own line, triangles and vertices to the run's. */
  lemma CircleStep(center: Vec3, segs: seq<CircleSegment>, s: CircleSegment, colour: Vec4)
    ensures CircleLines(center, segs + [s], colour) == CircleLines(center, segs, colour) + [CircleSegmentLine(center, s, colour)]
    ensures CircleTris(center, segs + [s], colour) == CircleTris(center, segs, colour) + CircleSegmentTris(center, s, colour)
    ensures CircleVertices(center, segs + [s]) == CircleVertices(center, segs) + CircleSegmentVertices(center, s)
  {
    assert (segs + [s])[..|segs|] == segs;
  }

  /** The lines addCircle issues: one per segment when unfilled, none when filled. */
  function CircleOutline(center: Vec3, segs: seq<CircleSegment>, filled: bool, colour: Vec4): seq<GizmoLine> {
    if filled then [] else CircleLines(center, segs, colour)
  }

  /** The triangles addCircle issues: two per segment when filled, none otherwise. */
  function CircleFill(center: Vec3, segs: seq<CircleSegment>, filled: bool, colour: Vec4): seq<GizmoTri> {
    if filled then CircleTris(center, segs, colour) else []
  }

  /** One more segment adds its triangles to a filled circle and its line to an unfilled one. */
  lemma CircleOutputStep(center: Vec3, segs: seq<CircleSegment>, s: CircleSegment, filled: bool, colour: Vec4)
    ensures filled ==> CircleOutline(center, segs + [s], filled, colour) == CircleOutline(center, segs, filled, colour)
    ensures filled ==> CircleFill(center, segs + [s], filled, colour) == CircleFill(center, segs, filled, colour) + CircleSegmentTris(center, s, colour)
    ensures !filled ==> CircleOutline(center, segs + [s], filled, colour) == CircleOutline(center, segs, filled, colour) + [CircleSegmentLine(center, s, colour)]
    ensures !filled ==> CircleFill(center, segs + [s], filled, colour) == CircleFill(center, segs, filled, colour)
  {
    CircleStep(center, segs, s, colour);
  }

  /** Iteration i works with v3Edge1 carried in from before it and the sample at angle i + 1, both transformed. */
  lemma CircleSegmentFromCarried(c: Circle, trig: Trig, i: nat)
    requires i < c.segments
    ensures CircleSegments(c, trig)[i]
         == CircleSegment(MulVec(c.transform, CarriedEdge(CircleStart(c), CircleSegments(c, trig), i)),
                          MulVec(c.transform, CircleSample(c, trig, i + 1)))
  {
    CircleSegmentIndex(c, trig, i);
    if i > 0 {
      CircleSegmentIndex(c, trig, i - 1);
    }
  }

  /** A filled segment's triangles as two appends of one triangle each, the way addCircle issues them. */
  lemma CircleSegmentInOrder(tris: seq<GizmoTri>, center: Vec3, s: CircleSegment, colour: Vec4)
    ensures tris + CircleSegmentTris(center, s, colour)
         == tris + [TriOf(center, Xyz(s.edge1), Add(center, Xyz(s.edge2)), colour)]
                 + [TriOf(Add(center, Xyz(s.edge2)), Add(center, Xyz(s.edge1)), center, colour)]
  {
  }

  /** n segments give n lines when unfilled, 2n triangles when filled, and 3n reported vertices. */
  lemma {:induction false} CircleCounts(center: Vec3, segs: seq<CircleSegment>, colour: Vec4)
    ensures |CircleLines(center, segs, colour)| == |segs|
    ensures |CircleTris(center, segs, colour)| == 2 * |segs|
    ensures |CircleVertices(center, segs)| == 3 * |segs|
    decreases |segs|
  {
    if segs != [] {
      CircleCounts(center, segs[..|segs| - 1], colour);
    }
  }

  /**
   * A filled circle reports, for each segment i, the corners of the first of
   * its two triangles: slots 3i .. 3i + 2 hold triangle 2i's corners.
   */
  lemma {:induction false} CircleReportedVertices(center: Vec3, segs: seq<CircleSegment>, colour: Vec4, i: nat, j: nat)
    requires i < |segs| && j < 3
    ensures |CircleVertices(center, segs)| == 3 * |segs| && |CircleTris(center, segs, colour)| == 2 * |segs|
    ensures CircleVertices(center, segs)[3 * i + j] == Corners([CircleTris(center, segs, colour)[2 * i]])[j]
    decreases |segs|
  {
    var init := segs[..|segs| - 1];
    CircleCounts(center, segs, colour);
    CircleCounts(center, init, colour);
    if i < |segs| - 1 {
      CircleReportedVertices(center, init, colour, i, j);
    } else {
      var t := CircleSegmentTris(center, segs[i], colour)[0];
      assert CircleTris(center, segs, colour)[2 * i] == t;
      CornersOne(t);
    }
  }

  /**
   * The quirk of the filled circle: when the centre is not the origin, the
   * two triangles of a segment do not meet at the edge-1 corner, because the
   * first one uses v3Edge1 without adding the centre.
   */
  lemma CircleFanQuirk(center: Vec3, s: CircleSegment, colour: Vec4)
    requires center != Origin
    ensures CircleSegmentTris(center, s, colour)[0].v1.position
         != CircleSegmentTris(center, s, colour)[1].v1.position
  {
  }

  /** With the identity transform the double transform of v3Edge1 is invisible: the edge is the plain sample. */
  lemma CircleEdgeAtIdentity(c: Circle, trig: Trig, i: nat)
    requires 0 < i < c.segments && c.transform == Identity
    ensures CircleEdge1(c, trig, i) == CircleSample(c, trig, i)
  {
    MulVecIdentity(CircleSample(c, trig, i));
    MulVecIdentity(MulVec(Identity, CircleSample(c, trig, i)));
  }
}
