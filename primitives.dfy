/**
 * The records the batch stores, and the capacity policy of its two buffers.
 *
 * A line or triangle is appended when its buffer has room and silently
 * dropped otherwise. `Admit` states that policy for a whole run of appends,
 * one primitive at a time; `AdmitClosedForm` gives the same result in one
 * step, as the longest prefix of `buf + xs` that fits.
 */
module Primitives {
  import opened Geometry

  /** GizmoVertex: a homogeneous position and an RGBA colour. */
  datatype GizmoVertex = GizmoVertex(position: Vec4, colour: Vec4)

  /** GizmoLine: the two ends of a segment. */
  datatype GizmoLine = GizmoLine(v0: GizmoVertex, v1: GizmoVertex)

  /** GizmoTri: the three corners of a triangle. */
  datatype GizmoTri = GizmoTri(v0: GizmoVertex, v1: GizmoVertex, v2: GizmoVertex)

  /** The record addLine writes: both ends at w = 1, each with its own colour. */
  function LineOf(p0: Vec3, p1: Vec3, colour0: Vec4, colour1: Vec4): GizmoLine {
    GizmoLine(GizmoVertex(Position(p0), colour0), GizmoVertex(Position(p1), colour1))
  }

  /** The record addTri writes: all three corners at w = 1 and in the same colour. */
  function TriOf(p0: Vec3, p1: Vec3, p2: Vec3, colour: Vec4): GizmoTri {
    GizmoTri(GizmoVertex(Position(p0), colour), GizmoVertex(Position(p1), colour),
             GizmoVertex(Position(p2), colour))
  }

  /** The xyz of every corner of `tris`, triangle by triangle, in the order v0, v1, v2. */
  function Corners(tris: seq<GizmoTri>): (r: seq<Vec3>)
    ensures |r| == 3 * |tris|
  {
    if tris == [] then []
    else
      var t := tris[|tris| - 1];
      Corners(tris[..|tris| - 1]) + [Xyz(t.v0.position), Xyz(t.v1.position), Xyz(t.v2.position)]
  }

  lemma CornersOne(t: GizmoTri)
    ensures Corners([t]) == [Xyz(t.v0.position), Xyz(t.v1.position), Xyz(t.v2.position)]
  {
    assert [t][..0] == [];
  }

  lemma {:induction false} CornersAppend(a: seq<GizmoTri>, b: seq<GizmoTri>)
    ensures Corners(a + b) == Corners(a) + Corners(b)
    decreases |b|
  {
    if b == [] {
      assert a + b == a;
    } else {
      var b' := b[..|b| - 1];
      assert (a + b)[..|a + b| - 1] == a + b';
      CornersAppend(a, b');
    }
  }

  /** A prefix one longer is the prefix followed by the next element. */
  lemma TakeSnoc<T>(s: seq<T>, i: nat)
    requires i < |s|
    ensures s[..i + 1] == s[..i] + [s[i]]
  {
  }

  /** One append under the capacity check: kept when the buffer has room, dropped otherwise. */
  function AdmitOne<T>(buf: seq<T>, cap: nat, x: T): seq<T> {
    if |buf| < cap then buf + [x] else buf
  }

  /** The buffer after appending `xs` one at a time, each under the capacity check. */
  function Admit<T>(buf: seq<T>, cap: nat, xs: seq<T>): seq<T>
    decreases |xs|
  {
    if xs == [] then buf
    else AdmitOne(Admit(buf, cap, xs[..|xs| - 1]), cap, xs[|xs| - 1])
  }

  /** One more append extends a run by one step of the policy. */
  lemma AdmitSnoc<T>(buf: seq<T>, cap: nat, xs: seq<T>, x: T)
    ensures Admit(buf, cap, xs + [x]) == AdmitOne(Admit(buf, cap, xs), cap, x)
  {
    assert (xs + [x])[..|xs|] == xs;
  }

  function Min(a: int, b: int): int {
    if a <= b then a else b
  }

  /**
   * A run of appends keeps the longest prefix of `buf + xs` that fits: the
   * earlier contents stay in place, the new primitives follow in order, and
   * the buffer never grows past its capacity.
   */
  lemma {:induction false} AdmitClosedForm<T>(buf: seq<T>, cap: nat, xs: seq<T>)
    requires |buf| <= cap
    ensures Admit(buf, cap, xs) == (buf + xs)[..Min(cap, |buf| + |xs|)]
    decreases |xs|
  {
    if xs == [] {
      assert buf + xs == buf;
    } else {
      var init := xs[..|xs| - 1];
      var last := xs[|xs| - 1];
      AdmitClosedForm(buf, cap, init);
      var before := Admit(buf, cap, init);
      assert before == (buf + init)[..Min(cap, |buf| + |init|)];
      assert buf + xs == (buf + init) + [last] by {
        assert xs == init + [last];
      }
      if |buf| + |init| < cap {
        assert before == buf + init;
      } else {
        assert |before| == cap;
      }
    }
  }

  /** With room for all of them, every primitive of the run is stored after the old contents. */
  lemma AdmitFits<T>(buf: seq<T>, cap: nat, xs: seq<T>)
    requires |buf| + |xs| <= cap
    ensures Admit(buf, cap, xs) == buf + xs
  {
    AdmitClosedForm(buf, cap, xs);
    assert (buf + xs)[..|buf| + |xs|] == buf + xs;
  }

  /** Once a buffer is full, a run of appends leaves it as it is. */
  lemma AdmitWhenFull<T>(buf: seq<T>, cap: nat, xs: seq<T>)
    requires |buf| == cap
    ensures Admit(buf, cap, xs) == buf
  {
    AdmitClosedForm(buf, cap, xs);
  }

  /**
   * The count after a run of appends is the old count plus the run's length,
   * capped at the capacity; the old contents are a prefix of the new ones.
   */
  lemma AdmitBounds<T>(buf: seq<T>, cap: nat, xs: seq<T>)
    requires |buf| <= cap
    ensures |Admit(buf, cap, xs)| == Min(cap, |buf| + |xs|)
    ensures Admit(buf, cap, xs)[..|buf|] == buf
  {
    AdmitClosedForm(buf, cap, xs);
  }

  /** Two runs of appends in a row act as one run of their concatenation. */
  lemma {:induction false} AdmitConcat<T>(buf: seq<T>, cap: nat, xs: seq<T>, ys: seq<T>)
    ensures Admit(Admit(buf, cap, xs), cap, ys) == Admit(buf, cap, xs + ys)
    decreases |ys|
  {
    if ys == [] {
      assert xs + ys == xs;
    } else {
      var init := ys[..|ys| - 1];
      AdmitConcat(buf, cap, xs, init);
      assert (xs + ys)[..|xs + ys| - 1] == xs + init;
      assert (xs + ys)[|xs + ys| - 1] == ys[|ys| - 1];
    }
  }
}
