/**
 * The mesh entities a refinement policy reads: vertices (integer ids instead of
 * pointers), the segment being split, and the simplices incident to it with
 * their tracer payload and neighborhood.
 */
module Mesh {
  import opened Geometry
  import Arith

  /** Stands for a vertex address; compared for identity only. */
  type VertexId = nat

  datatype Vertex = Vertex(id: VertexId, coords: Coords)

  /** The segment to split, given by its two endpoints (seg->getVertex(0), seg->getVertex(1)). */
  datatype Segment = Segment(v0: Vertex, v1: Vertex)

  datatype Option<T> = None | Some(value: T)

  /** Neighbor j of a simplex: its simplex tracer and its vertex opposite to the shared face. */
  datatype Neighbor = Neighbor(tracer: Coords, opposite: Vertex)

  /**
   * A simplex: its vertices, its simplex tracer, its segment tracers (W values
   * per segment, segment si at si*W) and its neighborhood (null neighbors are None).
   */
  datatype Simplex = Simplex(
    vertices: seq<Vertex>,
    tracer: Coords,
    segTracers: Coords,
    neighbors: seq<Option<Neighbor>>)

  /**
   * The compile-time shape of the simplex type: ambient dimension W, vertices
   * per simplex (NDIM+1) and, for every segment index, its two local vertex
   * indices (getSegmentVerticesIndex).
   */
  datatype Shape = Shape(w: nat, nvert: nat, segVerts: seq<(nat, nat)>) {
    predicate Valid() {
      && w >= 1 && nvert >= 2
      && forall si :: 0 <= si < |segVerts| ==>
           segVerts[si].0 < nvert && segVerts[si].1 < nvert && segVerts[si].0 != segVerts[si].1
    }

    /** Intrinsic dimension NDIM. */
    function Dim(): nat
      requires Valid()
    {
      nvert - 1
    }
  }

  /** Every vertex of s has w coordinates. */
  ghost predicate VerticesOfDim(s: Simplex, w: nat)
  {
    forall j :: 0 <= j < |s.vertices| ==> |s.vertices[j].coords| == w
  }

  ghost predicate WellFormed(sh: Shape, s: Simplex)
  {
    && |s.vertices| == sh.nvert
    && VerticesOfDim(s, sh.w)
    && (forall j, j' :: 0 <= j < j' < |s.vertices| ==> VertexIds(s)[j] != VertexIds(s)[j'])
    && |s.tracer| == sh.w
    && |s.segTracers| == Arith.Blocks(|sh.segVerts|, sh.w)
    && |s.neighbors| == sh.nvert
    && (forall j :: 0 <= j < |s.neighbors| && s.neighbors[j].Some? ==>
          |s.neighbors[j].value.tracer| == sh.w && |s.neighbors[j].value.opposite.coords| == sh.w)
  }

  /** Segment si of simplex s joins the two endpoints of seg, in either order. */
  predicate SegmentAt(sh: Shape, s: Simplex, si: nat, seg: Segment)
  {
    && si < |sh.segVerts|
    && var (a, b) := sh.segVerts[si];
    && a < |s.vertices| && b < |s.vertices|
    && ((s.vertices[a].id == seg.v0.id && s.vertices[b].id == seg.v1.id) ||
        (s.vertices[a].id == seg.v1.id && s.vertices[b].id == seg.v0.id))
  }

  /** s is one of the simplices sharing seg. */
  ghost predicate Incident(sh: Shape, s: Simplex, seg: Segment)
  {
    exists si :: SegmentAt(sh, s, si, seg)
  }

  /** What every refine demands of its inputs. */
  ghost predicate RefineInputs(sh: Shape, seg: Segment, simplices: seq<Simplex>)
  {
    && sh.Valid()
    && |simplices| >= 1
    && forall i :: 0 <= i < |simplices| ==> WellFormed(sh, simplices[i]) && Incident(sh, simplices[i], seg)
  }

  /** findSegmentIndex: the index of seg among the segments of s. */
  function FindSegmentIndex(sh: Shape, s: Simplex, seg: Segment): (si: nat)
    requires Incident(sh, s, seg)
    ensures SegmentAt(sh, s, si, seg)
  {
    FindSegmentFrom(sh, s, seg, 0)
  }

  function FindSegmentFrom(sh: Shape, s: Simplex, seg: Segment, from: nat): (si: nat)
    requires exists si :: from <= si && SegmentAt(sh, s, si, seg)
    ensures from <= si && SegmentAt(sh, s, si, seg)
    decreases |sh.segVerts| - from
  {
    if SegmentAt(sh, s, from, seg) then from else FindSegmentFrom(sh, s, seg, from + 1)
  }

  /** The W segment-tracer values stored for segment si. */
  function SegTracer(sh: Shape, s: Simplex, si: nat): (t: Coords)
    requires WellFormed(sh, s) && si < |sh.segVerts|
    ensures |t| == sh.w
  {
    Arith.BlockBelow(sh.w, si, |sh.segVerts|);
    s.segTracers[Arith.Blocks(si, sh.w) .. Arith.Blocks(si, sh.w) + sh.w]
  }

  function VertexCoords(s: Simplex): (ps: seq<Coords>)
    ensures |ps| == |s.vertices| && forall j :: 0 <= j < |ps| ==> ps[j] == s.vertices[j].coords
  {
    seq(|s.vertices|, j requires 0 <= j < |s.vertices| => s.vertices[j].coords)
  }

  function VertexIds(s: Simplex): (ids: seq<VertexId>)
    ensures |ids| == |s.vertices| && forall j :: 0 <= j < |ids| ==> ids[j] == s.vertices[j].id
  {
    seq(|s.vertices|, j requires 0 <= j < |s.vertices| => s.vertices[j].id)
  }

  // ---------------------------------------------------------------------------
  // The two sub-simplices produced by splitting seg inside s

  /**
   * p[n]: the vertices of the half of s that keeps endpoint n of seg; the other
   * endpoint is replaced by the new vertex at `newCoords`.
   */
  function SubSimplex(s: Simplex, seg: Segment, newCoords: Coords, n: nat): (p: seq<Coords>)
    requires n < 2
    ensures |p| == |s.vertices|
    ensures forall j :: 0 <= j < |p| ==> p[j] == s.vertices[j].coords || p[j] == newCoords
  {
    seq(|s.vertices|, j requires 0 <= j < |s.vertices| =>
      var v := s.vertices[j];
      if v.id == seg.v0.id then (if n == 0 then v.coords else newCoords)
      else if v.id == seg.v1.id then (if n == 1 then v.coords else newCoords)
      else v.coords)
  }

  /** The loop filling p[0][] and p[1][] with the vertices of both halves. */
  method SplitVertices(s: Simplex, seg: Segment, newCoords: Coords) returns (p0: seq<Coords>, p1: seq<Coords>)
    ensures p0 == SubSimplex(s, seg, newCoords, 0)
    ensures p1 == SubSimplex(s, seg, newCoords, 1)
  {
    p0, p1 := [], [];
    for j := 0 to |s.vertices|
      invariant |p0| == |p1| == j
      invariant p0 == SubSimplex(s, seg, newCoords, 0)[..j]
      invariant p1 == SubSimplex(s, seg, newCoords, 1)[..j]
    {
      var v := s.vertices[j];
      if v.id == seg.v0.id {
        p0, p1 := p0 + [v.coords], p1 + [newCoords];
      } else if v.id == seg.v1.id {
        p0, p1 := p0 + [newCoords], p1 + [v.coords];
      } else {
        p0, p1 := p0 + [v.coords], p1 + [v.coords];
      }
    }
  }

  /**
   * Splitting at segment si = (a, b): each half keeps its own endpoint, holds
   * the new vertex where the other endpoint was, and agrees with s elsewhere.
   */
  lemma SubSimplicesAtSegment(sh: Shape, s: Simplex, seg: Segment, newCoords: Coords)
    requires sh.Valid() && WellFormed(sh, s) && Incident(sh, s, seg)
    ensures var (a, b) := sh.segVerts[FindSegmentIndex(sh, s, seg)];
            var e0 := if s.vertices[a].id == seg.v0.id then a else b;
            var e1 := if s.vertices[a].id == seg.v0.id then b else a;
            var p0 := SubSimplex(s, seg, newCoords, 0);
            var p1 := SubSimplex(s, seg, newCoords, 1);
            && |p0| == |p1| == sh.nvert && e0 != e1
            && p0[e0] == s.vertices[e0].coords && p0[e1] == newCoords
            && p1[e0] == newCoords && p1[e1] == s.vertices[e1].coords
            && forall j :: 0 <= j < sh.nvert && j != a && j != b ==>
                 p0[j] == p1[j] == s.vertices[j].coords
  {
    var si := FindSegmentIndex(sh, s, seg);
    var (a, b) := sh.segVerts[si];
    var ids := VertexIds(s);
    assert s.vertices[a].id != s.vertices[b].id by {
      if a < b { assert ids[a] != ids[b]; } else { assert ids[b] != ids[a]; }
    }
    forall j | 0 <= j < sh.nvert && j != a && j != b
      ensures s.vertices[j].id != seg.v0.id && s.vertices[j].id != seg.v1.id
    {
      if j < a { assert ids[j] != ids[a]; } else { assert ids[a] != ids[j]; }
      if j < b { assert ids[j] != ids[b]; } else { assert ids[b] != ids[j]; }
    }
  }
}
