/**
 * The points QuadraticRegressionWithTracer hands its surface fitter for one
 * simplex: the simplex tracer, the vertices, the tracers of the non-null
 * neighbours and the vertices opposite to them, each vertex once, in the
 * order of the std::set that collects them.
 */
module FitPoints {
  import opened Geometry
  import opened Mesh

  // ---------------------------------------------------------------------------
  // The set of opposite vertices (a std::set keyed by vertex address)

  /** The identities of the vertices of vs. */
  function IdSet(vs: seq<Vertex>): set<VertexId>
  {
    if vs == [] then {} else {vs[0].id} + IdSet(vs[1..])
  }

  /**
   * The order the set iterates in: strictly increasing identity, identities
   * standing for addresses.
   */
  ghost predicate Ascending(vs: seq<Vertex>)
  {
    forall a, b :: 0 <= a < b < |vs| ==> vs[a].id < vs[b].id
  }

  lemma {:induction false} IdSetAbove(vs: seq<Vertex>, x: VertexId)
    requires forall a :: 0 <= a < |vs| ==> x < vs[a].id
    ensures x !in IdSet(vs)
  {
    if vs != [] {
      IdSetAbove(vs[1..], x);
    }
  }

  /**
   * std::set::insert: v takes its place in the order, unless a vertex with its
   * identity is in already, in which case nothing changes.
   */
  function Insert(vs: seq<Vertex>, v: Vertex): seq<Vertex>
  {
    if vs == [] then [v]
    else if v.id < vs[0].id then [v] + vs
    else if v.id == vs[0].id then vs
    else [vs[0]] + Insert(vs[1..], v)
  }

  /** Every vertex after an insertion lies above a bound both the set and v lie above. */
  lemma {:induction false} InsertAbove(vs: seq<Vertex>, v: Vertex, x: int)
    requires forall a :: 0 <= a < |vs| ==> x < vs[a].id
    requires x < v.id
    ensures forall a :: 0 <= a < |Insert(vs, v)| ==> x < Insert(vs, v)[a].id
  {
    if vs != [] && v.id > vs[0].id {
      InsertAbove(vs[1..], v, x);
    }
  }

  /** Insertion keeps the set in order. */
  lemma {:induction false} InsertAscending(vs: seq<Vertex>, v: Vertex)
    requires Ascending(vs)
    ensures Ascending(Insert(vs, v))
  {
    if vs != [] && v.id > vs[0].id {
      var rest := Insert(vs[1..], v);
      InsertAscending(vs[1..], v);
      InsertAbove(vs[1..], v, vs[0].id);
      var r := [vs[0]] + rest;
      forall a, b | 0 <= a < b < |r| ensures r[a].id < r[b].id {
        if a > 0 {
          assert r[a] == rest[a - 1] && r[b] == rest[b - 1];
        } else {
          assert r[b] == rest[b - 1];
        }
      }
    }
  }

  /** After the insertion the set holds the identities it held, and v's. */
  lemma {:induction false} InsertIds(vs: seq<Vertex>, v: Vertex)
    ensures IdSet(Insert(vs, v)) == IdSet(vs) + {v.id}
  {
    if vs == [] {
      assert [v][1..] == [];
    } else if v.id < vs[0].id {
      assert ([v] + vs)[1..] == vs;
    } else if v.id > vs[0].id {
      InsertIds(vs[1..], v);
      assert ([vs[0]] + Insert(vs[1..], v))[1..] == Insert(vs[1..], v);
    }
  }

  /** Inserting a vertex of dimension w into a set of such vertices keeps them all of dimension w. */
  lemma {:induction false} InsertOfDim(vs: seq<Vertex>, v: Vertex, w: nat)
    requires forall a :: 0 <= a < |vs| ==> |vs[a].coords| == w
    requires |v.coords| == w
    ensures forall a :: 0 <= a < |Insert(vs, v)| ==> |Insert(vs, v)[a].coords| == w
  {
    if vs != [] && v.id > vs[0].id {
      InsertOfDim(vs[1..], v, w);
    }
  }

  /** As many identities as vertices: the set holds each vertex once. */
  lemma {:induction false} AscendingCount(vs: seq<Vertex>)
    requires Ascending(vs)
    ensures |IdSet(vs)| == |vs|
  {
    if vs != [] {
      AscendingCount(vs[1..]);
      IdSetAbove(vs[1..], vs[0].id);
    }
  }

  // ---------------------------------------------------------------------------
  // The neighbourhood

  /** The non-null neighbours (nb.neiS[j] != NULL), in order. */
  function Present(nbs: seq<Option<Neighbor>>): (r: seq<Neighbor>)
  {
    if nbs == [] then []
    else Present(nbs[..|nbs| - 1]) + (if nbs[|nbs| - 1].Some? then [nbs[|nbs| - 1].value] else [])
  }

  /** The positions of the non-null neighbours. */
  function NonNull(nbs: seq<Option<Neighbor>>): set<nat>
  {
    set j | 0 <= j < |nbs| && nbs[j].Some?
  }

  /** One present neighbour per non-null position. */
  lemma {:induction false} PresentCount(nbs: seq<Option<Neighbor>>)
    ensures |Present(nbs)| == |NonNull(nbs)|
  {
    if nbs != [] {
      var n := |nbs| - 1;
      PresentCount(nbs[..n]);
      if nbs[n].Some? {
        assert NonNull(nbs) == NonNull(nbs[..n]) + {n};
      } else {
        assert NonNull(nbs) == NonNull(nbs[..n]);
      }
    }
  }

  /** The set after the neighbours nbs: every non-null one inserts its opposite vertex. */
  function Opposites(nbs: seq<Option<Neighbor>>): (r: seq<Vertex>)
    ensures Ascending(r)
  {
    if nbs == [] then []
    else
      var before := Opposites(nbs[..|nbs| - 1]);
      if nbs[|nbs| - 1].Some? then
        InsertAscending(before, nbs[|nbs| - 1].value.opposite);
        Insert(before, nbs[|nbs| - 1].value.opposite)
      else before
  }

  /** The identities of the vertices opposite to the non-null neighbours. */
  function OppositeIds(nbs: seq<Option<Neighbor>>): set<VertexId>
  {
    set j | 0 <= j < |nbs| && nbs[j].Some? :: nbs[j].value.opposite.id
  }

  lemma OppositeIdsStep(nbs: seq<Option<Neighbor>>)
    requires nbs != []
    ensures var n := |nbs| - 1;
      OppositeIds(nbs) == OppositeIds(nbs[..n]) + (if nbs[n].Some? then {nbs[n].value.opposite.id} else {})
  {
    var n := |nbs| - 1;
    forall x | x in OppositeIds(nbs) ensures x in OppositeIds(nbs[..n]) || (nbs[n].Some? && x == nbs[n].value.opposite.id) {
      var j :| 0 <= j < |nbs| && nbs[j].Some? && x == nbs[j].value.opposite.id;
      if j < n {
        assert nbs[..n][j] == nbs[j];
      }
    }
    forall x | x in OppositeIds(nbs[..n]) ensures x in OppositeIds(nbs) {
      var j :| 0 <= j < n && nbs[..n][j].Some? && x == nbs[..n][j].value.opposite.id;
      assert nbs[j] == nbs[..n][j];
    }
  }

  /** The set holds exactly the opposite vertices, each once. */
  lemma {:induction false} OppositesHoldIds(nbs: seq<Option<Neighbor>>)
    ensures IdSet(Opposites(nbs)) == OppositeIds(nbs)
    ensures |Opposites(nbs)| == |OppositeIds(nbs)|
  {
    if nbs != [] {
      var n := |nbs| - 1;
      OppositesHoldIds(nbs[..n]);
      OppositeIdsStep(nbs);
      if nbs[n].Some? {
        InsertIds(Opposites(nbs[..n]), nbs[n].value.opposite);
      }
    }
    AscendingCount(Opposites(nbs));
  }

  /** Every non-null neighbour has a tracer and an opposite vertex of dimension w. */
  ghost predicate NeighborsOfDim(nbs: seq<Option<Neighbor>>, w: nat)
  {
    forall j :: 0 <= j < |nbs| && nbs[j].Some? ==> |nbs[j].value.tracer| == w && |nbs[j].value.opposite.coords| == w
  }

  lemma {:induction false} PresentOfDim(nbs: seq<Option<Neighbor>>, w: nat)
    requires NeighborsOfDim(nbs, w)
    ensures forall a :: 0 <= a < |Present(nbs)| ==> |Present(nbs)[a].tracer| == w && |Present(nbs)[a].opposite.coords| == w
  {
    if nbs != [] {
      PresentOfDim(nbs[..|nbs| - 1], w);
    }
  }

  lemma {:induction false} OppositesOfDim(nbs: seq<Option<Neighbor>>, w: nat)
    requires NeighborsOfDim(nbs, w)
    ensures forall a :: 0 <= a < |Opposites(nbs)| ==> |Opposites(nbs)[a].coords| == w
  {
    if nbs != [] {
      var n := |nbs| - 1;
      OppositesOfDim(nbs[..n], w);
      if nbs[n].Some? {
        InsertOfDim(Opposites(nbs[..n]), nbs[n].value.opposite, w);
      }
    }
  }

  // ---------------------------------------------------------------------------
  // The points

  /** getCoordinates for every point of xs: each expressed relative to the origin o. */
  function Relatives(g: Geometry, o: Coords, xs: seq<Coords>): (r: seq<Coords>)
    requires AllOfDim(xs, |o|)
    ensures |r| == |xs| && forall a :: 0 <= a < |xs| ==> r[a] == Relative(g, o, xs[a])
  {
    seq(|xs|, a requires 0 <= a < |xs| && AllOfDim(xs, |o|) => Relative(g, o, xs[a]))
  }

  lemma RelativesAppend(g: Geometry, o: Coords, xs: seq<Coords>, ys: seq<Coords>)
    requires AllOfDim(xs, |o|) && AllOfDim(ys, |o|)
    ensures AllOfDim(xs + ys, |o|) && Relatives(g, o, xs + ys) == Relatives(g, o, xs) + Relatives(g, o, ys)
  {
    assert AllOfDim(xs + ys, |o|) by {
      forall a | 0 <= a < |xs + ys| ensures |(xs + ys)[a]| == |o| {
        if a >= |xs| {
          assert (xs + ys)[a] == ys[a - |xs|];
        }
      }
    }
  }

  function NeighborTracers(ns: seq<Neighbor>): (r: seq<Coords>)
    ensures |r| == |ns| && forall a :: 0 <= a < |ns| ==> r[a] == ns[a].tracer
  {
    seq(|ns|, a requires 0 <= a < |ns| => ns[a].tracer)
  }

  function CoordsOf(vs: seq<Vertex>): (r: seq<Coords>)
    ensures |r| == |vs| && forall a :: 0 <= a < |vs| ==> r[a] == vs[a].coords
  {
    seq(|vs|, a requires 0 <= a < |vs| => vs[a].coords)
  }

  /** Every point a simplex contributes has dimension W. */
  lemma PointsOfDim(sh: Shape, s: Simplex)
    requires WellFormed(sh, s)
    ensures |s.tracer| == sh.w && AllOfDim(VertexCoords(s), sh.w)
    ensures AllOfDim(NeighborTracers(Present(s.neighbors)), sh.w)
    ensures AllOfDim(CoordsOf(Opposites(s.neighbors)), sh.w)
  {
    PresentOfDim(s.neighbors, sh.w);
    OppositesOfDim(s.neighbors, sh.w);
  }

  /**
   * The points one fit of s receives, relative to the origin o: the simplex
   * tracer, then `extra`, then the vertices of s, the tracers of its non-null
   * neighbours and the vertices of the opposite set in the set's order.
   */
  function Points(g: Geometry, sh: Shape, s: Simplex, o: Coords, extra: seq<Coords>): (ps: seq<Coords>)
    requires WellFormed(sh, s) && |o| == sh.w
  {
    PointsOfDim(sh, s);
    [Relative(g, o, s.tracer)] + extra + Relatives(g, o, VertexCoords(s))
      + Relatives(g, o, NeighborTracers(Present(s.neighbors))) + Relatives(g, o, CoordsOf(Opposites(s.neighbors)))
  }

  /**
   * sf.getPointsCount(): 1 + |extra| + NVERT + the number of non-null
   * neighbours + the number of distinct vertices opposite to them.
   */
  lemma PointCount(g: Geometry, sh: Shape, s: Simplex, o: Coords, extra: seq<Coords>)
    requires WellFormed(sh, s) && |o| == sh.w
    ensures |Points(g, sh, s, o, extra)| == 1 + |extra| + sh.nvert + |NonNull(s.neighbors)| + |OppositeIds(s.neighbors)|
  {
    PresentCount(s.neighbors);
    OppositesHoldIds(s.neighbors);
  }

  /** A loop adding the points xs, each relative to the origin o, after `points`. */
  method AppendRelatives(g: Geometry, o: Coords, points: seq<Coords>, xs: seq<Coords>) returns (r: seq<Coords>)
    requires AllOfDim(xs, |o|)
    ensures r == points + Relatives(g, o, xs)
  {
    ghost var all := Relatives(g, o, xs);
    r := points;
    for a := 0 to |xs|
      invariant r == points + all[..a]
    {
      r := r + [Relative(g, o, xs[a])];
      assert all[..a + 1] == all[..a] + [all[a]];
    }
    assert all[..|xs|] == all;
  }

  /** What one more neighbour adds to the points and to the set. */
  lemma NeighborStep(g: Geometry, o: Coords, nbs: seq<Option<Neighbor>>, j: nat)
    requires NeighborsOfDim(nbs, |o|) && j < |nbs|
    ensures AllOfDim(NeighborTracers(Present(nbs[..j])), |o|)
    ensures AllOfDim(NeighborTracers(Present(nbs[..j + 1])), |o|)
    ensures Relatives(g, o, NeighborTracers(Present(nbs[..j + 1])))
      == Relatives(g, o, NeighborTracers(Present(nbs[..j]))) + (if nbs[j].Some? then [Relative(g, o, nbs[j].value.tracer)] else [])
    ensures Opposites(nbs[..j + 1]) == if nbs[j].Some? then Insert(Opposites(nbs[..j]), nbs[j].value.opposite) else Opposites(nbs[..j])
  {
    assert nbs[..j + 1][..j] == nbs[..j];
    PresentOfDim(nbs[..j], |o|);
    PresentOfDim(nbs[..j + 1], |o|);
    var step := if nbs[j].Some? then [nbs[j].value] else [];
    assert Present(nbs[..j + 1]) == Present(nbs[..j]) + step;
    assert NeighborTracers(Present(nbs[..j + 1])) == NeighborTracers(Present(nbs[..j])) + NeighborTracers(step);
    RelativesAppend(g, o, NeighborTracers(Present(nbs[..j])), NeighborTracers(step));
  }

  /**
   * The loop over the neighbours: the tracer of each non-null one becomes a
   * point, and its opposite vertex goes into the set.
   */
  method VisitNeighbors(g: Geometry, o: Coords, nbs: seq<Option<Neighbor>>) returns (tracers: seq<Coords>, vertices: seq<Vertex>)
    requires NeighborsOfDim(nbs, |o|)
    ensures AllOfDim(NeighborTracers(Present(nbs)), |o|)
    ensures tracers == Relatives(g, o, NeighborTracers(Present(nbs))) && vertices == Opposites(nbs)
  {
    tracers, vertices := [], [];
    assert nbs[..0] == [];
    for j := 0 to |nbs|
      invariant AllOfDim(NeighborTracers(Present(nbs[..j])), |o|)
      invariant tracers == Relatives(g, o, NeighborTracers(Present(nbs[..j])))
      invariant vertices == Opposites(nbs[..j])
    {
      NeighborStep(g, o, nbs, j);
      if nbs[j].Some? {
        vertices := Insert(vertices, nbs[j].value.opposite);
        tracers := tracers + [Relative(g, o, nbs[j].value.tracer)];
      }
    }
    assert nbs[..|nbs|] == nbs;
  }

  /**
   * The loops of refine that feed the fitter: the tracer, `extra`, the
   * vertices; then the non-null neighbours, whose tracers are added while
   * their opposite vertices go into the set; then the set, in its order.
   */
  method GatherPoints(g: Geometry, sh: Shape, s: Simplex, o: Coords, extra: seq<Coords>) returns (points: seq<Coords>)
    requires WellFormed(sh, s) && |o| == sh.w
    ensures points == Points(g, sh, s, o, extra)
  {
    PointsOfDim(sh, s);
    points := AppendRelatives(g, o, [Relative(g, o, s.tracer)] + extra, VertexCoords(s));
    var tracers, vertices := VisitNeighbors(g, o, s.neighbors);
    points := points + tracers;
    points := AppendRelatives(g, o, points, CoordsOf(vertices));
  }
}
