/**
 * The primitive batch: one process-wide `Gizmos` instance owning two
 * fixed-capacity arrays of lines and triangles with their counts, and the
 * static operations that create, clear and destroy it and append to it.
 *
 * The static pointer `sm_singleton` is the field `singleton` of a
 * `GizmosGlobal` object, null while no instance exists. Every append goes
 * through `AddLine` or `AddTri`, which store the primitive in the next free
 * slot when the instance exists and its buffer has room and drop it
 * otherwise; the shape builders are proved to leave the buffers exactly as
 * `Primitives.Admit` says for the runs of lines and triangles that
 * `Shapes` and `Sphere` describe.
 */
module Batch {
  import opened Wrappers
  import opened Geometry
  import opened Primitives
  import opened Shapes
  import opened Sphere

  /** The default capacities of `create`: 16384 lines and 16384 triangles. */
  const DefaultMaxLines: nat := 16384
  const DefaultMaxTris: nat := 16384

  /** One instance of the batch: capacities, counts and the two arrays. */
  class Gizmos {
    const maxLines: nat
    const maxTris: nat
    var lineCount: nat
    var triCount: nat
    const lines: array<GizmoLine>
    const tris: array<GizmoTri>
    /** The lines in slots 0 .. m_lineCount - 1, as a sequence. */
    ghost var storedLines: seq<GizmoLine>
    /** The triangles in slots 0 .. m_triCount - 1, as a sequence. */
    ghost var storedTris: seq<GizmoTri>

    /**
     * The arrays have the capacities' lengths, the counts never exceed them,
     * and the stored sequences are the filled prefixes of the arrays.
     */
    ghost predicate Valid()
      reads this, lines, tris
    {
      lines.Length == maxLines && tris.Length == maxTris &&
      lineCount <= maxLines && triCount <= maxTris &&
      storedLines == lines[..lineCount] && storedTris == tris[..triCount]
    }

    /** The constructor's buffer part: both arrays allocated at full capacity, both counts 0. */
    constructor(maxLines: nat, maxTris: nat)
      ensures Valid()
      ensures this.maxLines == maxLines && this.maxTris == maxTris
      ensures storedLines == [] && storedTris == []
      ensures fresh(lines) && fresh(tris)
    {
      this.maxLines := maxLines;
      this.maxTris := maxTris;
      lineCount := 0;
      triCount := 0;
      lines := new GizmoLine[maxLines];
      tris := new GizmoTri[maxTris];
      storedLines := [];
      storedTris := [];
    }
  }

  /** The vertices the line pass of `draw` hands to GL: two per line, in slot order. */
  function LineVertices(ls: seq<GizmoLine>): (r: seq<GizmoVertex>)
    ensures |r| == 2 * |ls|
  {
    if ls == [] then [] else LineVertices(ls[..|ls| - 1]) + [ls[|ls| - 1].v0, ls[|ls| - 1].v1]
  }

  /** The vertices the triangle pass of `draw` hands to GL: three per triangle, in slot order. */
  function TriVertices(ts: seq<GizmoTri>): (r: seq<GizmoVertex>)
    ensures |r| == 3 * |ts|
  {
    if ts == [] then [] else TriVertices(ts[..|ts| - 1]) + [ts[|ts| - 1].v0, ts[|ts| - 1].v1, ts[|ts| - 1].v2]
  }

  /** Vertex 2k and 2k + 1 of the line pass are the two ends of line k. */
  lemma {:induction false} LineVerticesLayout(ls: seq<GizmoLine>, k: nat)
    requires k < |ls|
    ensures LineVertices(ls)[2 * k] == ls[k].v0 && LineVertices(ls)[2 * k + 1] == ls[k].v1
    decreases |ls|
  {
    if k < |ls| - 1 {
      LineVerticesLayout(ls[..|ls| - 1], k);
    }
  }

  /** Vertices 3k, 3k + 1 and 3k + 2 of the triangle pass are the corners of triangle k. */
  lemma {:induction false} TriVerticesLayout(ts: seq<GizmoTri>, k: nat)
    requires k < |ts|
    ensures TriVertices(ts)[3 * k] == ts[k].v0 && TriVertices(ts)[3 * k + 1] == ts[k].v1
         && TriVertices(ts)[3 * k + 2] == ts[k].v2
    decreases |ts|
  {
    if k < |ts| - 1 {
      TriVerticesLayout(ts[..|ts| - 1], k);
    }
  }

  /** Three reported corners written to slots index .. index + 2; the slots before them keep their values. */
  method WriteCorners(vertexData: array<Vec3>, index: nat, p0: Vec3, p1: Vec3, p2: Vec3)
    requires index + 3 <= vertexData.Length
    modifies vertexData
    ensures vertexData[..index + 3] == old(vertexData[..index]) + [p0, p1, p2]
  {
    vertexData[index], vertexData[index + 1], vertexData[index + 2] := p0, p1, p2;
  }

  /** The corners of filled cylinder segment i, written to slots 12i .. 12i + 11 of the reported vertices. */
  method WriteSegmentVertices(vertexData: array<Vec3>, i: nat, seg: CylinderSegment)
    requires 12 * i + 12 <= vertexData.Length
    modifies vertexData
    ensures vertexData[..12 * (i + 1)] == old(vertexData[..12 * i]) + SegmentVertices(seg)
  {
    var index := i * 12;
    WriteCorners(vertexData, index, seg.top0, seg.top1, seg.top2);
    index := index + 3;
    WriteCorners(vertexData, index, seg.bottom0, seg.bottom2, seg.bottom1);
    index := index + 3;
    WriteCorners(vertexData, index, seg.top2, seg.top1, seg.bottom1);
    index := index + 3;
    WriteCorners(vertexData, index, seg.bottom1, seg.bottom2, seg.top2);
  }

  /** The three corners of filled circle segment i, written to slots 3i .. 3i + 2 of the reported vertices. */
  method WriteCircleVertices(vertexData: array<Vec3>, center: Vec3, seg: CircleSegment, i: nat, ghost segs: seq<CircleSegment>)
    requires i < |segs| && segs[i] == seg && 3 * (i + 1) <= vertexData.Length
    requires vertexData[..3 * i] == CircleVertices(center, segs[..i])
    modifies vertexData
    ensures vertexData[..3 * (i + 1)] == CircleVertices(center, segs[..i + 1])
  {
    TakeSnoc(segs, i);
    CircleStep(center, segs[..i], seg, White);
    var index := i * 3;
    WriteCorners(vertexData, index, center, Xyz(seg.edge1), Add(center, Xyz(seg.edge2)));
  }

  /**
   * What one call of `draw` hands to GL: the ProjectionView uniform and the
   * vertices of the line pass and of the triangle pass (empty when that pass
   * is skipped).
   */
  datatype Submission = Submission(projectionView: Mat4, lineVertices: seq<GizmoVertex>, triVertices: seq<GizmoVertex>)

  /** The holder of the static instance pointer. */
  class GizmosGlobal {
    var singleton: Gizmos?

    /** When an instance exists its buffers are consistent. */
    ghost predicate Valid()
      reads this, Repr()
    {
      singleton != null ==> singleton.Valid()
    }

    /** Everything an operation on the instance may change: the instance and its two arrays. */
    ghost function Repr(): set<object>
      reads this
    {
      if singleton == null then {} else {singleton, singleton.lines, singleton.tris}
    }

    /** What `addLine` may change: the instance and its line array. */
    ghost function LineFrame(): set<object>
      reads this
    {
      if singleton == null then {} else {singleton, singleton.lines}
    }

    /** What `addTri` may change: the instance and its triangle array. */
    ghost function TriFrame(): set<object>
      reads this
    {
      if singleton == null then {} else {singleton, singleton.tris}
    }

    /** The stored lines, slots 0 .. m_lineCount - 1; none while no instance exists. */
    ghost function Lines(): seq<GizmoLine>
      reads this, singleton
    {
      if singleton == null then [] else singleton.storedLines
    }

    /** The stored triangles, slots 0 .. m_triCount - 1; none while no instance exists. */
    ghost function Tris(): seq<GizmoTri>
      reads this, singleton
    {
      if singleton == null then [] else singleton.storedTris
    }

    /** Room for lines: m_maxLines, or 0 while no instance exists, so that every append is dropped. */
    ghost function LineCapacity(): nat
      reads this
    {
      if singleton == null then 0 else singleton.maxLines
    }

    /** Room for triangles: m_maxTris, or 0 while no instance exists. */
    ghost function TriCapacity(): nat
      reads this
    {
      if singleton == null then 0 else singleton.maxTris
    }

    /** The static initialisation: no instance. */
    constructor()
      ensures Valid() && singleton == null
    {
      singleton := null;
    }

    /** create: allocate the instance unless one exists already, in which case nothing changes. */
    method Create(maxLines: nat, maxTris: nat)
      requires Valid()
      modifies this
      ensures Valid()
      ensures old(singleton) != null ==> singleton == old(singleton)
      ensures old(singleton) == null ==>
        singleton != null && fresh(singleton) && fresh(singleton.lines) && fresh(singleton.tris) &&
        Lines() == [] && Tris() == [] && LineCapacity() == maxLines && TriCapacity() == maxTris
    {
      if singleton == null {
        singleton := new Gizmos(maxLines, maxTris);
      }
    }

    /** create with its default arguments: room for 16384 lines and 16384 triangles. */
    method CreateDefault()
      requires Valid()
      modifies this
      ensures Valid()
      ensures old(singleton) != null ==> singleton == old(singleton)
      ensures old(singleton) == null ==>
        singleton != null && fresh(singleton) && Lines() == [] && Tris() == [] &&
        LineCapacity() == 16384 && TriCapacity() == 16384
    {
      Create(DefaultMaxLines, DefaultMaxTris);
    }

    /** destroy: afterwards no instance exists. */
    method Destroy()
      requires Valid()
      modifies this
      ensures Valid() && singleton == null
      ensures Lines() == [] && Tris() == [] && LineCapacity() == 0 && TriCapacity() == 0
    {
      singleton := null;
    }

    /**
     * clear: both counts back to 0; the capacities and the arrays stay, so the
     * buffers accept appends again up to their full capacity. The source
     * dereferences the instance without a null check, so an instance must exist.
     */
    method Clear()
      requires Valid() && singleton != null
      modifies singleton
      ensures Valid() && singleton == old(singleton)
      ensures Lines() == [] && Tris() == []
      ensures LineCapacity() == old(LineCapacity()) && TriCapacity() == old(TriCapacity())
      ensures unchanged(singleton.lines, singleton.tris)
    {
      singleton.lineCount := 0;
      singleton.triCount := 0;
      singleton.storedLines := [];
      singleton.storedTris := [];
    }

    /**
     * addLine with a colour per end: when the instance exists and the line
     * buffer has room, slot m_lineCount receives the two ends at w = 1 with
     * their colours and the count goes up by one; otherwise nothing changes.
     * No other slot and nothing of the triangle buffer changes.
     */
    method AddLine(p0: Vec3, p1: Vec3, colour0: Vec4, colour1: Vec4)
      requires Valid()
      modifies LineFrame()
      ensures Valid() && singleton == old(singleton)
      ensures Lines() == AdmitOne(old(Lines()), LineCapacity(), LineOf(p0, p1, colour0, colour1))
      ensures Tris() == old(Tris())
      ensures singleton != null ==>
        singleton.lines[..] == if old(singleton.lineCount) < singleton.maxLines
                              then old(singleton.lines[..])[old(singleton.lineCount) := LineOf(p0, p1, colour0, colour1)]
                              else old(singleton.lines[..])
    {
      if singleton != null && singleton.lineCount < singleton.maxLines {
        singleton.lines[singleton.lineCount] := LineOf(p0, p1, colour0, colour1);
        singleton.lineCount := singleton.lineCount + 1;
        singleton.storedLines := singleton.storedLines + [LineOf(p0, p1, colour0, colour1)];
      }
    }

    /** addLine with one colour: the same append, with that colour at both ends. */
    method AddLineSingleColour(p0: Vec3, p1: Vec3, colour: Vec4)
      requires Valid()
      modifies LineFrame()
      ensures Valid() && singleton == old(singleton)
      ensures Lines() == AdmitOne(old(Lines()), LineCapacity(), LineOf(p0, p1, colour, colour))
      ensures Tris() == old(Tris())
    {
      AddLine(p0, p1, colour, colour);
    }

    /**
     * addTri: when the instance exists and the triangle buffer has room, slot
     * m_triCount receives the three corners at w = 1, all in the one colour,
     * and the count goes up by one; otherwise nothing changes. No other slot
     * and nothing of the line buffer changes.
     */
    method AddTri(p0: Vec3, p1: Vec3, p2: Vec3, colour: Vec4)
      requires Valid()
      modifies TriFrame()
      ensures Valid() && singleton == old(singleton)
      ensures Tris() == AdmitOne(old(Tris()), TriCapacity(), TriOf(p0, p1, p2, colour))
      ensures Lines() == old(Lines())
      ensures singleton != null ==>
        singleton.tris[..] == if old(singleton.triCount) < singleton.maxTris
                              then old(singleton.tris[..])[old(singleton.triCount) := TriOf(p0, p1, p2, colour)]
                              else old(singleton.tris[..])
    {
      if singleton != null {
        if singleton.triCount < singleton.maxTris {
          singleton.tris[singleton.triCount] := TriOf(p0, p1, p2, colour);
          singleton.triCount := singleton.triCount + 1;
          singleton.storedTris := singleton.storedTris + [TriOf(p0, p1, p2, colour)];
        }
      }
    }

    /**
     * A call of addLine inside a shape builder: the buffer holds what the
     * builder's run of lines so far left in it, and the run grows by this line.
     */
    method EmitLine(p0: Vec3, p1: Vec3, colour0: Vec4, colour1: Vec4,
                    ghost start: seq<GizmoLine>, ghost run: seq<GizmoLine>)
      returns (ghost run': seq<GizmoLine>)
      requires Valid() && Lines() == Admit(start, LineCapacity(), run)
      modifies LineFrame()
      ensures Valid() && singleton == old(singleton) && Tris() == old(Tris())
      ensures run' == run + [LineOf(p0, p1, colour0, colour1)]
      ensures Lines() == Admit(start, LineCapacity(), run')
    {
      AddLine(p0, p1, colour0, colour1);
      run' := run + [LineOf(p0, p1, colour0, colour1)];
      AdmitSnoc(start, LineCapacity(), run, LineOf(p0, p1, colour0, colour1));
    }

    /** A call of addTri inside a shape builder: the builder's run of triangles grows by this one. */
    method EmitTri(p0: Vec3, p1: Vec3, p2: Vec3, colour: Vec4,
                   ghost start: seq<GizmoTri>, ghost run: seq<GizmoTri>)
      returns (ghost run': seq<GizmoTri>)
      requires Valid() && Tris() == Admit(start, TriCapacity(), run)
      modifies TriFrame()
      ensures Valid() && singleton == old(singleton) && Lines() == old(Lines())
      ensures run' == run + [TriOf(p0, p1, p2, colour)]
      ensures Tris() == Admit(start, TriCapacity(), run')
    {
      AddTri(p0, p1, p2, colour);
      run' := run + [TriOf(p0, p1, p2, colour)];
      AdmitSnoc(start, TriCapacity(), run, TriOf(p0, p1, p2, colour));
    }

    /**
     * addTransform: the three axis lines of the transform, red, green and
     * blue, appended in that order; no triangles.
     */
    method AddTransform(transform: Mat4, scale: real)
      requires Valid()
      modifies Repr()
      ensures Valid() && singleton == old(singleton)
      ensures Lines() == Admit(old(Lines()), LineCapacity(), TransformAxisLines(transform, scale))
      ensures Tris() == old(Tris())
      ensures |old(Lines())| + 3 <= LineCapacity() ==> |Lines()| == |old(Lines())| + 3
    {
      var xAxis := Add4(transform.c3, Scale4(transform.c0, scale));
      var yAxis := Add4(transform.c3, Scale4(transform.c1, scale));
      var zAxis := Add4(transform.c3, Scale4(transform.c2, scale));
      ghost var start, run := Lines(), [];
      run := EmitLine(Xyz(transform.c3), Xyz(xAxis), Red, Red, start, run);
      run := EmitLine(Xyz(transform.c3), Xyz(yAxis), Green, Green, start, run);
      run := EmitLine(Xyz(transform.c3), Xyz(zAxis), Blue, Blue, start, run);
      assert run == TransformAxisLines(transform, scale);
      AdmitBounds(start, LineCapacity(), run);
    }

    /**
     * addBox: the eight corners, reported when asked for; then the twelve
     * white edges; then, only when filled, the twelve triangles.
     */
    method AddBox(center: Vec3, dimensions: Vec3, filled: bool, fill: Vec4, transform: Mat4, wantVertices: bool)
      returns (vertexData: array?<Vec3>)
      requires Valid()
      modifies Repr()
      ensures Valid() && singleton == old(singleton)
      ensures Lines() == Admit(old(Lines()), LineCapacity(), BoxLines(BoxCorners(center, dimensions, transform)))
      ensures Tris() == Admit(old(Tris()), TriCapacity(),
                              if filled then BoxTris(BoxCorners(center, dimensions, transform), fill) else [])
      ensures wantVertices <==> vertexData != null
      ensures vertexData != null ==> fresh(vertexData) && vertexData[..] == BoxCorners(center, dimensions, transform)
    {
      var v := BoxCorners(center, dimensions, transform);
      if wantVertices {
        vertexData := new Vec3[8](i requires 0 <= i < 8 => v[i]);
      } else {
        vertexData := null;
      }
      EmitBoxLines(v);
      if filled {
        EmitBoxTris(v, fill);
      }
    }

    /** The twelve addLine calls of addBox, given its eight corners. */
    method EmitBoxLines(v: seq<Vec3>)
      requires Valid() && |v| == 8
      modifies LineFrame()
      ensures Valid() && singleton == old(singleton) && Tris() == old(Tris())
      ensures Lines() == Admit(old(Lines()), LineCapacity(), BoxLines(v))
    {
      ghost var start, run := Lines(), [];
      run := EmitEdges(v[0], v[1], v[2], v[3], v[1], v[2], v[3], v[0], start, run);
      run := EmitEdges(v[4], v[5], v[6], v[7], v[5], v[6], v[7], v[4], start, run);
      run := EmitEdges(v[0], v[1], v[2], v[3], v[4], v[5], v[6], v[7], start, run);
      BoxLinesInOrder(v);
    }

    /** Four white addLine calls in a row, from p0 to q0, ..., from p3 to q3. */
    method EmitEdges(p0: Vec3, p1: Vec3, p2: Vec3, p3: Vec3, q0: Vec3, q1: Vec3, q2: Vec3, q3: Vec3,
                     ghost start: seq<GizmoLine>, ghost run: seq<GizmoLine>)
      returns (ghost run': seq<GizmoLine>)
      requires Valid() && Lines() == Admit(start, LineCapacity(), run)
      modifies LineFrame()
      ensures Valid() && singleton == old(singleton) && Tris() == old(Tris())
      ensures run' == run + [LineOf(p0, q0, White, White)] + [LineOf(p1, q1, White, White)]
                          + [LineOf(p2, q2, White, White)] + [LineOf(p3, q3, White, White)]
      ensures Lines() == Admit(start, LineCapacity(), run')
    {
      run' := EmitLine(p0, q0, White, White, start, run);
      run' := EmitLine(p1, q1, White, White, start, run');
      run' := EmitLine(p2, q2, White, White, start, run');
      run' := EmitLine(p3, q3, White, White, start, run');
    }

    /** The twelve addTri calls of a filled addBox, two per face. */
    method EmitBoxTris(v: seq<Vec3>, fill: Vec4)
      requires Valid() && |v| == 8
      modifies TriFrame()
      ensures Valid() && singleton == old(singleton) && Lines() == old(Lines())
      ensures Tris() == Admit(old(Tris()), TriCapacity(), BoxTris(v, fill))
    {
      ghost var start, run := Tris(), [];
      run := EmitFace(v[2], v[1], v[0], v[3], v[2], v[0], fill, start, run);  // top
      run := EmitFace(v[5], v[6], v[4], v[6], v[7], v[4], fill, start, run);  // bottom
      run := EmitFace(v[4], v[3], v[0], v[7], v[3], v[4], fill, start, run);  // front
      run := EmitFace(v[1], v[2], v[5], v[2], v[6], v[5], fill, start, run);  // back
      run := EmitFace(v[0], v[1], v[4], v[1], v[5], v[4], fill, start, run);  // left
      run := EmitFace(v[2], v[3], v[7], v[6], v[2], v[7], fill, start, run);  // right
      BoxTrisInOrder(v, fill);
    }

    /** The two addTri calls of one box face: triangle p0 p1 p2, then q0 q1 q2. */
    method EmitFace(p0: Vec3, p1: Vec3, p2: Vec3, q0: Vec3, q1: Vec3, q2: Vec3, fill: Vec4,
                    ghost start: seq<GizmoTri>, ghost run: seq<GizmoTri>)
      returns (ghost run': seq<GizmoTri>)
      requires Valid() && Tris() == Admit(start, TriCapacity(), run)
      modifies TriFrame()
      ensures Valid() && singleton == old(singleton) && Lines() == old(Lines())
      ensures run' == run + [TriOf(p0, p1, p2, fill)] + [TriOf(q0, q1, q2, fill)]
      ensures Tris() == Admit(start, TriCapacity(), run')
    {
      run' := EmitTri(p0, p1, p2, fill, start, run);
      run' := EmitTri(q0, q1, q2, fill, start, run');
    }

    /**
     * addCylinder: for each segment, when filled, the two cap triangles and
     * the two side triangles (and their twelve corners, when reported), then
     * the top rim, the side and the bottom rim as white lines.
     */
    method AddCylinder(cyl: Cylinder, trig: Trig, filled: bool, fill: Vec4, wantVertices: bool)
      returns (vertexData: array?<Vec3>)
      requires Valid()
      modifies Repr()
      ensures Valid() && singleton == old(singleton)
      ensures Lines() == Admit(old(Lines()), LineCapacity(), CylinderLines(CylinderSegments(cyl, trig)))
      ensures Tris() == Admit(old(Tris()), TriCapacity(),
                              if filled then CylinderTris(CylinderSegments(cyl, trig), fill) else [])
      ensures wantVertices <==> vertexData != null
      ensures vertexData != null ==> fresh(vertexData) && vertexData.Length == 12 * cyl.segments
      ensures vertexData != null && filled ==> vertexData[..] == CylinderVertices(CylinderSegments(cyl, trig))
    {
      ghost var segs := CylinderSegments(cyl, trig);
      if wantVertices {
        vertexData := new Vec3[cyl.segments * 12];
      } else {
        vertexData := null;
      }
      ghost var lineStart, triStart := Lines(), Tris();
      assert segs[..0] == [];
      for i := 0 to cyl.segments
        invariant Valid() && singleton == old(singleton)
        invariant Lines() == Admit(lineStart, LineCapacity(), CylinderLines(segs[..i]))
        invariant Tris() == Admit(triStart, TriCapacity(), if filled then CylinderTris(segs[..i], fill) else [])
        invariant vertexData != null ==> vertexData !in Repr()
        invariant vertexData != null && filled ==> vertexData[..12 * i] == CylinderVertices(segs[..i])
      {
        var seg := CylinderSegmentPoints(cyl, trig, i);
        EmitCylinderSegment(seg, i, filled, fill, vertexData, segs, lineStart, triStart);
      }
      assert segs[..cyl.segments] == segs;
      if vertexData != null {
        assert vertexData[..] == vertexData[..12 * cyl.segments];
      }
    }

    /**
     * The six points of segment i as addCylinder's loop computes them: the cap
     * centres and the ring points at angles i and i + 1 segment sizes, turned
     * by the transform as directions and moved to the centre.
     */
    static method CylinderSegmentPoints(cyl: Cylinder, trig: Trig, i: nat) returns (seg: CylinderSegment)
      requires i < cyl.segments
      ensures seg == CylinderSegments(cyl, trig)[i]
    {
      seg := CylinderSegmentAt(cyl, trig, i);
      CylinderSegmentIndex(cyl, trig, i);
    }

    /** The body of addCylinder's loop for segment i, once its points `seg` are computed. */
    method EmitCylinderSegment(seg: CylinderSegment, i: nat, filled: bool, fill: Vec4, vertexData: array?<Vec3>,
                               ghost segs: seq<CylinderSegment>, ghost lineStart: seq<GizmoLine>, ghost triStart: seq<GizmoTri>)
      requires i < |segs| && segs[i] == seg
      requires Valid() && Lines() == Admit(lineStart, LineCapacity(), CylinderLines(segs[..i]))
      requires Tris() == Admit(triStart, TriCapacity(), if filled then CylinderTris(segs[..i], fill) else [])
      requires vertexData != null ==> vertexData !in Repr() && vertexData.Length == 12 * |segs|
      requires vertexData != null && filled ==> vertexData[..12 * i] == CylinderVertices(segs[..i])
      modifies Repr(), vertexData
      ensures Valid() && singleton == old(singleton)
      ensures Lines() == Admit(lineStart, LineCapacity(), CylinderLines(segs[..i + 1]))
      ensures Tris() == Admit(triStart, TriCapacity(), if filled then CylinderTris(segs[..i + 1], fill) else [])
      ensures vertexData != null && filled ==> vertexData[..12 * (i + 1)] == CylinderVertices(segs[..i + 1])
    {
      ghost var done := segs[..i];
      TakeSnoc(segs, i);
      CylinderStep(done, seg, fill);
      if filled {
        ghost var tris := EmitSegmentTris(seg, fill, triStart, CylinderTris(done, fill));
        if vertexData != null {
          WriteSegmentVertices(vertexData, i, seg);
        }
      }
      ghost var lines := EmitSegmentLines(seg, lineStart, CylinderLines(done));
    }

    /** The four addTri calls of one filled cylinder segment. */
    method EmitSegmentTris(seg: CylinderSegment, fill: Vec4, ghost start: seq<GizmoTri>, ghost run: seq<GizmoTri>)
      returns (ghost run': seq<GizmoTri>)
      requires Valid() && Tris() == Admit(start, TriCapacity(), run)
      modifies TriFrame()
      ensures Valid() && singleton == old(singleton) && Lines() == old(Lines())
      ensures run' == run + SegmentTris(seg, fill)
      ensures Tris() == Admit(start, TriCapacity(), run')
    {
      run' := EmitTri(seg.top0, seg.top1, seg.top2, fill, start, run);
      run' := EmitTri(seg.bottom0, seg.bottom2, seg.bottom1, fill, start, run');
      run' := EmitTri(seg.top2, seg.top1, seg.bottom1, fill, start, run');
      run' := EmitTri(seg.bottom1, seg.bottom2, seg.top2, fill, start, run');
      SegmentInOrder([], run, seg, fill);
    }

    /** The three white addLine calls of one cylinder segment: top rim, side, bottom rim. */
    method EmitSegmentLines(seg: CylinderSegment, ghost start: seq<GizmoLine>, ghost run: seq<GizmoLine>)
      returns (ghost run': seq<GizmoLine>)
      requires Valid() && Lines() == Admit(start, LineCapacity(), run)
      modifies LineFrame()
      ensures Valid() && singleton == old(singleton) && Tris() == old(Tris())
      ensures run' == run + SegmentLines(seg)
      ensures Lines() == Admit(start, LineCapacity(), run')
    {
      run' := EmitLine(seg.top1, seg.top2, White, White, start, run);
      run' := EmitLine(seg.top1, seg.bottom1, White, White, start, run');
      run' := EmitLine(seg.bottom1, seg.bottom2, White, White, start, run');
      SegmentInOrder(run, [], seg, White);
    }
    /**
     * addCircle: for each segment, when filled, two triangles in the fill
     * colour (and three reported corners), otherwise one line from edge to
     * edge in that colour.
     */
    method AddCircle(c: Circle, trig: Trig, filled: bool, colour: Vec4, wantVertices: bool)
      returns (vertexData: array?<Vec3>)
      requires Valid()
      modifies Repr()
      ensures Valid() && singleton == old(singleton)
      ensures Lines() == Admit(old(Lines()), LineCapacity(),
                               CircleOutline(c.center, CircleSegments(c, trig), filled, colour))
      ensures Tris() == Admit(old(Tris()), TriCapacity(),
                              CircleFill(c.center, CircleSegments(c, trig), filled, colour))
      ensures wantVertices <==> vertexData != null
      ensures vertexData != null ==> fresh(vertexData) && vertexData.Length == 3 * c.segments
      ensures vertexData != null && filled ==> vertexData[..] == CircleVertices(c.center, CircleSegments(c, trig))
    {
      ghost var segs := CircleSegments(c, trig);
      var edge1 := CircleStart(c);
      if wantVertices {
        vertexData := new Vec3[c.segments * 3];
      } else {
        vertexData := null;
      }
      ghost var lineStart, triStart := Lines(), Tris();
      assert segs[..0] == [];
      for i := 0 to c.segments
        invariant Valid() && singleton == old(singleton)
        invariant edge1 == CarriedEdge(CircleStart(c), segs, i)
        invariant Lines() == Admit(lineStart, LineCapacity(), CircleOutline(c.center, segs[..i], filled, colour))
        invariant Tris() == Admit(triStart, TriCapacity(), CircleFill(c.center, segs[..i], filled, colour))
        invariant vertexData != null ==> vertexData !in Repr()
        invariant vertexData != null && filled ==> vertexData[..3 * i] == CircleVertices(c.center, segs[..i])
      {
        var seg := CircleSegmentPoints(c, trig, i, edge1);
        EmitCircleSegment(c.center, seg, i, filled, colour, vertexData, segs, lineStart, triStart);
        edge1 := seg.edge2;
      }
      assert segs[..c.segments] == segs;
      if vertexData != null {
        assert vertexData[..] == vertexData[..3 * c.segments];
      }
    }

    /**
     * The two edge vectors of iteration i: the one carried over from the
     * previous iteration (or the start vector) and the sample at angle i + 1,
     * each put through the transform.
     */
    static method CircleSegmentPoints(c: Circle, trig: Trig, i: nat, carried: Vec4) returns (seg: CircleSegment)
      requires i < c.segments
      requires carried == CarriedEdge(CircleStart(c), CircleSegments(c, trig), i)
      ensures seg == CircleSegments(c, trig)[i]
    {
      var edge2 := CircleSample(c, trig, i + 1);
      seg := CircleSegment(MulVec(c.transform, carried), MulVec(c.transform, edge2));
      CircleSegmentFromCarried(c, trig, i);
    }

    /** The body of addCircle's loop for segment i, once its edge vectors `seg` are computed. */
    method EmitCircleSegment(center: Vec3, seg: CircleSegment, i: nat, filled: bool, colour: Vec4, vertexData: array?<Vec3>,
                             ghost segs: seq<CircleSegment>, ghost lineStart: seq<GizmoLine>, ghost triStart: seq<GizmoTri>)
      requires i < |segs| && segs[i] == seg
      requires Valid() && Lines() == Admit(lineStart, LineCapacity(), CircleOutline(center, segs[..i], filled, colour))
      requires Tris() == Admit(triStart, TriCapacity(), CircleFill(center, segs[..i], filled, colour))
      requires vertexData != null ==> vertexData !in Repr() && vertexData.Length == 3 * |segs|
      requires vertexData != null && filled ==> vertexData[..3 * i] == CircleVertices(center, segs[..i])
      modifies Repr(), vertexData
      ensures Valid() && singleton == old(singleton)
      ensures Lines() == Admit(lineStart, LineCapacity(), CircleOutline(center, segs[..i + 1], filled, colour))
      ensures Tris() == Admit(triStart, TriCapacity(), CircleFill(center, segs[..i + 1], filled, colour))
      ensures vertexData != null && filled ==> vertexData[..3 * (i + 1)] == CircleVertices(center, segs[..i + 1])
    {
      ghost var done := segs[..i];
      TakeSnoc(segs, i);
      CircleOutputStep(center, done, seg, filled, colour);
      if filled {
        ghost var run := EmitCircleTris(center, seg, colour, triStart, CircleFill(center, done, filled, colour));
        if vertexData != null {
          WriteCircleVertices(vertexData, center, seg, i, segs);
        }
      } else {
        ghost var run := EmitLine(Add(center, Xyz(seg.edge1)), Add(center, Xyz(seg.edge2)), colour, colour,
                                  lineStart, CircleOutline(center, done, filled, colour));
      }
    }

    /** The two addTri calls of one filled circle segment. */
    method EmitCircleTris(center: Vec3, seg: CircleSegment, colour: Vec4, ghost start: seq<GizmoTri>, ghost run: seq<GizmoTri>)
      returns (ghost run': seq<GizmoTri>)
      requires Valid() && Tris() == Admit(start, TriCapacity(), run)
      modifies TriFrame()
      ensures Valid() && singleton == old(singleton) && Lines() == old(Lines())
      ensures run' == run + CircleSegmentTris(center, seg, colour)
      ensures Tris() == Admit(start, TriCapacity(), run')
    {
      var e1, e2 := Xyz(seg.edge1), Xyz(seg.edge2);
      run' := EmitTri(center, e1, Add(center, e2), colour, start, run);
      run' := EmitTri(Add(center, e2), Add(center, e1), center, colour, start, run');
      CircleSegmentInOrder(run, center, seg, colour);
    }

    /**
     * addSphere: the grid of latitude/longitude points, then for each face a
     * white line up its first column and, away from the seam of a partial
     * longitude range, the white top edge and two triangles in the fill
     * colour. The reported vertices are a copy of the grid. An empty shape
     * stores nothing and reports no vertices.
     */
    method AddSphere(s: SphereArgs, trig: Trig, fill: Vec4, wantVertices: bool) returns (vertexData: array?<Vec3>)
      requires Valid() && (WellShaped(s) || EmptyShape(s))
      modifies Repr()
      ensures Valid() && singleton == old(singleton)
      ensures WellShaped(s) ==>
        Lines() == Admit(old(Lines()), LineCapacity(),
                         SphereLines(SphereGrid(s, trig), s.rows, s.columns, PartialRange(s), s.rows * s.columns))
      ensures WellShaped(s) ==>
        Tris() == Admit(old(Tris()), TriCapacity(),
                        SphereTris(SphereGrid(s, trig), s.rows, s.columns, PartialRange(s), fill, s.rows * s.columns))
      ensures EmptyShape(s) ==> Lines() == old(Lines()) && Tris() == old(Tris())
      ensures wantVertices <==> vertexData != null
      ensures vertexData != null ==> fresh(vertexData)
      ensures vertexData != null && WellShaped(s) ==> vertexData[..] == SphereGrid(s, trig)
      ensures vertexData != null && EmptyShape(s) ==> vertexData.Length == 0
    {
      if EmptyShape(s) {
        EmptyShapeSizes(s);
        if wantVertices {
          vertexData := new Vec3[s.rows * s.columns + s.columns];
        } else {
          vertexData := null;
        }
        return;
      }
      var grid := FillSphereGrid(s, trig);
      // The copy for the caller and the face walk touch disjoint state; the
      // walk goes first here so that the new array needs no framing.
      ghost var lineRun, triRun := WalkSphereFaces(grid, s.rows, s.columns, PartialRange(s), fill);
      if wantVertices {
        vertexData := CopyGrid(grid);
      } else {
        vertexData := null;
      }
    }

    /** The caller's copy of the sphere's vertices: a new array holding the grid in order. */
    static method CopyGrid(grid: seq<Vec3>) returns (vertexData: array<Vec3>)
      ensures fresh(vertexData) && vertexData[..] == grid
    {
      vertexData := new Vec3[|grid|](i requires 0 <= i < |grid| => grid[i]);
    }

    /** addSphere's face loop over the filled grid: faces 0 .. rows * columns - 1 in order. */
    method WalkSphereFaces(grid: seq<Vec3>, rows: int, columns: int, partialRange: bool, fill: Vec4)
      returns (ghost lineRun: seq<GizmoLine>, ghost triRun: seq<GizmoTri>)
      requires Valid() && columns > 0 && rows >= 0 && |grid| == rows * columns + columns
      modifies Repr()
      ensures Valid() && singleton == old(singleton)
      ensures lineRun == SphereLines(grid, rows, columns, partialRange, rows * columns)
      ensures triRun == SphereTris(grid, rows, columns, partialRange, fill, rows * columns)
      ensures Lines() == Admit(old(Lines()), LineCapacity(), lineRun)
      ensures Tris() == Admit(old(Tris()), TriCapacity(), triRun)
    {
      assert 0 <= rows * columns by { MulMonotone(0, rows, columns); }
      ghost var lineStart, triStart := Lines(), Tris();
      for face := 0 to rows * columns
        invariant Valid() && singleton == old(singleton)
        invariant Lines() == Admit(lineStart, LineCapacity(), SphereLines(grid, rows, columns, partialRange, face))
        invariant Tris() == Admit(triStart, TriCapacity(), SphereTris(grid, rows, columns, partialRange, fill, face))
      {
        SphereStep(grid, rows, columns, partialRange, fill, face);
        ghost var lines, tris := EmitSphereFace(grid, rows, columns, partialRange, fill, face,
                       lineStart, SphereLines(grid, rows, columns, partialRange, face),
                       triStart, SphereTris(grid, rows, columns, partialRange, fill, face));
      }
      lineRun := SphereLines(grid, rows, columns, partialRange, rows * columns);
      triRun := SphereTris(grid, rows, columns, partialRange, fill, rows * columns);
    }

    /** iNextFace as the face loop computes it: face + 1, moved back a row when that starts a new row. */
    static method NextFaceIndex(face: int, rows: int, columns: int) returns (next: int)
      requires columns > 0 && 0 <= face < rows * columns
      ensures next == NextFace(face, rows, columns)
    {
      next := face + 1;
      if next % columns == 0 {
        next := next - columns;
      }
    }

    /** The body of addSphere's face loop for face `face`; returning early stands for the loop's `continue`. */
    method EmitSphereFace(grid: seq<Vec3>, rows: int, columns: int, partialRange: bool, fill: Vec4, face: int,
                          ghost lineStart: seq<GizmoLine>, ghost lineRun: seq<GizmoLine>,
                          ghost triStart: seq<GizmoTri>, ghost triRun: seq<GizmoTri>)
      returns (ghost lineRun': seq<GizmoLine>, ghost triRun': seq<GizmoTri>)
      requires columns > 0 && 0 <= face < rows * columns && |grid| == rows * columns + columns
      requires Valid() && Lines() == Admit(lineStart, LineCapacity(), lineRun)
      requires Tris() == Admit(triStart, TriCapacity(), triRun)
      modifies Repr()
      ensures Valid() && singleton == old(singleton)
      ensures lineRun' == lineRun + FaceLines(grid, rows, columns, partialRange, face)
      ensures triRun' == triRun + FaceTris(grid, rows, columns, partialRange, fill, face)
      ensures Lines() == Admit(lineStart, LineCapacity(), lineRun')
      ensures Tris() == Admit(triStart, TriCapacity(), triRun')
    {
      FaceInOrder(lineRun, triRun, grid, rows, columns, partialRange, fill, face);
      FaceReadsInBounds(face, rows, columns);
      var next := NextFaceIndex(face, rows, columns);
      lineRun' := EmitLine(grid[face], grid[face + columns], White, White, lineStart, lineRun);
      triRun' := triRun;
      if face % columns == 0 && partialRange {
        return;
      }
      lineRun', triRun' := EmitFaceTop(grid[next + columns], grid[face + columns], grid[face], grid[next], fill,
                                       lineStart, lineRun', triStart, triRun);
    }

    /** The rest of a face away from the seam: the white top edge a to b, then triangles a c d and a b c. */
    method EmitFaceTop(a: Vec3, b: Vec3, c: Vec3, d: Vec3, fill: Vec4,
                       ghost lineStart: seq<GizmoLine>, ghost lineRun: seq<GizmoLine>,
                       ghost triStart: seq<GizmoTri>, ghost triRun: seq<GizmoTri>)
      returns (ghost lineRun': seq<GizmoLine>, ghost triRun': seq<GizmoTri>)
      requires Valid() && Lines() == Admit(lineStart, LineCapacity(), lineRun)
      requires Tris() == Admit(triStart, TriCapacity(), triRun)
      modifies Repr()
      ensures Valid() && singleton == old(singleton)
      ensures lineRun' == lineRun + [LineOf(a, b, White, White)]
      ensures triRun' == triRun + [TriOf(a, c, d, fill)] + [TriOf(a, b, c, fill)]
      ensures Lines() == Admit(lineStart, LineCapacity(), lineRun')
      ensures Tris() == Admit(triStart, TriCapacity(), triRun')
    {
      lineRun' := EmitLine(a, b, White, White, lineStart, lineRun);
      triRun' := EmitTri(a, c, d, fill, triStart, triRun);
      triRun' := EmitTri(a, b, c, fill, triStart, triRun');
    }

    /**
     * draw: nothing is submitted while no instance exists or both buffers
     * are empty; otherwise the ProjectionView matrix, the vertices of the
     * stored lines (when there are any) and those of the stored triangles
     * (when there are any), each in slot order.
     */
    function Draw(projectionView: Mat4): (r: Option<Submission>)
      requires Valid()
      reads this, Repr()
      ensures r.None? <==> Lines() == [] && Tris() == []
      ensures r.Some? ==> r.value.projectionView == projectionView
      ensures r.Some? ==> r.value.lineVertices == LineVertices(Lines()) && r.value.triVertices == TriVertices(Tris())
    {
      if singleton != null && (singleton.lineCount > 0 || singleton.triCount > 0) then
        var lineVertices := if singleton.lineCount > 0 then LineVertices(singleton.lines[..singleton.lineCount]) else [];
        var triVertices := if singleton.triCount > 0 then TriVertices(singleton.tris[..singleton.triCount]) else [];
        Some(Submission(projectionView, lineVertices, triVertices))
      else
        None
    }
  }
}
