/**
 * QuadraticRegressionWithTracers: the new vertex is the stored segment tracer
 * of the split segment, as for the linear policy. The new tracers are read off
 * the quadratic simplex each incident simplex defines with its vertices and
 * segment tracers. A new segment tracer is shared by every simplex holding
 * its vertex, so its fits are first gathered in the contribution map,
 * averaged, and only then stored.
 */
module QuadraticPolicy {
  import opened Geometry
  import opened Mesh
  import opened Layout
  import opened Arith
  import opened QuadraticWeights
  import opened ContributionMap
  import LinearPolicy

  /**
   * The quadratic-simplex collaborator (QuadraticSimplexT, built from a
   * simplex, its segment tracers and the geometry): axis k of
   * barycentricToPosition(bc).
   */
  datatype QuadraticSimplex = QuadraticSimplex(position: (Simplex, seq<real>, nat) -> real)

  /** barycentricToPosition(bc): axis k of the result is the collaborator's axis k. */
  function Position(q: QuadraticSimplex, s: Simplex, bc: seq<real>, w: nat): (r: Coords)
    ensures |r| == w
  {
    if w == 0 then [] else Position(q, s, bc, w - 1) + [q.position(s, bc, w - 1)]
  }

  lemma {:induction false} PositionAt(q: QuadraticSimplex, s: Simplex, bc: seq<real>, w: nat, k: nat)
    requires k < w
    ensures Position(q, s, bc, w)[k] == q.position(s, bc, k)
  {
    if k < w - 1 {
      PositionAt(q, s, bc, w - 1, k);
    }
  }

  /** The local indices (first, second) of the split segment in s (getSegmentVerticesIndex). */
  function SplitEnds(sh: Shape, s: Simplex, seg: Segment): (ab: (nat, nat))
    requires sh.Valid() && Incident(sh, s, seg)
    ensures ab.0 < sh.nvert && ab.1 < sh.nvert && ab.0 != ab.1
  {
    sh.segVerts[FindSegmentIndex(sh, s, seg)]
  }

  /** New simplex tracer n of s: the quadratic simplex at TracerWeights, wrapped. */
  function QuadraticTracer(g: Geometry, q: QuadraticSimplex, sh: Shape, s: Simplex, seg: Segment, n: nat): (r: Coords)
    requires sh.Valid() && Incident(sh, s, seg) && n < 2
    ensures |r| == sh.w
  {
    var (a, b) := SplitEnds(sh, s, seg);
    CheckBoundary(g, Position(q, s, TracerWeights(sh.nvert, a, b, n), sh.w))
  }

  /** The tags of a region: vertex j of s, then the split endpoint tracer 0 is biased towards. */
  function QuadraticTags(sh: Shape, s: Simplex, seg: Segment): (tags: seq<VertexId>)
    requires sh.Valid() && WellFormed(sh, s) && Incident(sh, s, seg)
    ensures |tags| == sh.nvert + 1
  {
    VertexIds(s) + [s.vertices[SplitEnds(sh, s, seg).0].id]
  }

  /** Segment tracer j of s as fitted, when the split segment joins local vertices ab: the quadratic simplex at SegWeights(j), keyed by vertex j. */
  function SegmentFit(q: QuadraticSimplex, sh: Shape, s: Simplex, ab: (nat, nat), j: nat): (c: Contribution)
    requires ab.0 < sh.nvert && ab.1 < sh.nvert && j < sh.nvert == |s.vertices|
    ensures c.vertex == s.vertices[j].id && |c.coords| == sh.w
  {
    Contribution(s.vertices[j].id, Position(q, s, SegWeights(sh.nvert, ab.0, ab.1, j), sh.w))
  }

  /** The fits of vertices 0 .. n-1 of s, in order. */
  function FitsUpTo(q: QuadraticSimplex, sh: Shape, s: Simplex, ab: (nat, nat), n: nat): (cs: seq<Contribution>)
    requires ab.0 < sh.nvert && ab.1 < sh.nvert && n <= sh.nvert == |s.vertices|
    ensures |cs| == n && FitsOfDim(cs, sh.w)
  {
    if n == 0 then [] else FitsUpTo(q, sh, s, ab, n - 1) + [SegmentFit(q, sh, s, ab, n - 1)]
  }

  lemma {:induction false} FitsUpToAt(q: QuadraticSimplex, sh: Shape, s: Simplex, ab: (nat, nat), n: nat, j: nat)
    requires ab.0 < sh.nvert && ab.1 < sh.nvert && j < n <= sh.nvert == |s.vertices|
    ensures FitsUpTo(q, sh, s, ab, n)[j] == SegmentFit(q, sh, s, ab, j)
  {
    if j < n - 1 {
      FitsUpToAt(q, sh, s, ab, n - 1, j);
    }
  }

  /** The fits of s, one per vertex. */
  function SimplexFits(q: QuadraticSimplex, sh: Shape, s: Simplex, seg: Segment): (cs: seq<Contribution>)
    requires sh.Valid() && WellFormed(sh, s) && Incident(sh, s, seg)
    ensures |cs| == sh.nvert && FitsOfDim(cs, sh.w)
  {
    FitsUpTo(q, sh, s, SplitEnds(sh, s, seg), sh.nvert)
  }

  /** Fit j of s is segment tracer j as fitted. */
  lemma SimplexFitAt(q: QuadraticSimplex, sh: Shape, s: Simplex, seg: Segment, j: nat)
    requires sh.Valid() && WellFormed(sh, s) && Incident(sh, s, seg) && j < sh.nvert
    ensures SimplexFits(q, sh, s, seg)[j] == SegmentFit(q, sh, s, SplitEnds(sh, s, seg), j)
    ensures SimplexFits(q, sh, s, seg)[j].vertex == s.vertices[j].id
  {
    FitsUpToAt(q, sh, s, SplitEnds(sh, s, seg), sh.nvert, j);
  }

  /** Every simplex is well formed and holds the split segment. */
  ghost predicate AllIncident(sh: Shape, seg: Segment, simplices: seq<Simplex>)
  {
    sh.Valid() && forall i :: 0 <= i < |simplices| ==> WellFormed(sh, simplices[i]) && Incident(sh, simplices[i], seg)
  }

  /** The fits of every simplex, one sequence per simplex, in refine's order. */
  function AllFits(q: QuadraticSimplex, sh: Shape, seg: Segment, simplices: seq<Simplex>): (css: seq<seq<Contribution>>)
    requires AllIncident(sh, seg, simplices)
    ensures |css| == |simplices|
  {
    seq(|simplices|, i requires 0 <= i < |simplices| && sh.Valid() && WellFormed(sh, simplices[i]) && Incident(sh, simplices[i], seg) =>
      SimplexFits(q, sh, simplices[i], seg))
  }

  /** Every fit in every part has dimension w. */
  ghost predicate EachOfDim(css: seq<seq<Contribution>>, w: nat)
  {
    forall i :: 0 <= i < |css| ==> FitsOfDim(css[i], w)
  }

  lemma AllFitsOfDim(q: QuadraticSimplex, sh: Shape, seg: Segment, simplices: seq<Simplex>)
    requires AllIncident(sh, seg, simplices)
    ensures EachOfDim(AllFits(q, sh, seg, simplices), sh.w)
  {
  }

  lemma {:induction false} JoinedOfDim(css: seq<seq<Contribution>>, w: nat)
    requires EachOfDim(css, w)
    ensures FitsOfDim(Concat(css), w)
  {
    if css != [] {
      JoinedOfDim(css[..|css| - 1], w);
    }
  }

  /** The contribution map once the fits of the first i parts have been recorded. */
  function MapAfter(g: Geometry, css: seq<seq<Contribution>>, newv: Coords, i: nat): (t: Contributions)
    requires EachOfDim(css, |newv|) && i <= |css|
    ensures Valid(t, |newv|)
  {
    JoinedOfDim(css[..i], |newv|);
    Tabulate(g, Concat(css[..i]), newv)
  }

  /** The contribution map once every simplex has been visited. */
  function FinalMap(g: Geometry, q: QuadraticSimplex, sh: Shape, seg: Segment, simplices: seq<Simplex>, newv: Coords): (t: Contributions)
    requires AllIncident(sh, seg, simplices) && |newv| == sh.w
    ensures Valid(t, sh.w)
  {
    AllFitsOfDim(q, sh, seg, simplices);
    MapAfter(g, AllFits(q, sh, seg, simplices), newv, |simplices|)
  }

  /** Every vertex of s has an entry in t. */
  ghost predicate HasVertices(t: Contributions, s: Simplex)
  {
    forall j :: 0 <= j < |s.vertices| ==> s.vertices[j].id in t.vertexMap
  }

  /** Every vertex of every simplex has an entry in t. */
  ghost predicate Covers(t: Contributions, simplices: seq<Simplex>)
  {
    forall i :: 0 <= i < |simplices| ==> HasVertices(t, simplices[i])
  }

  /** The entry index of every vertex of s. */
  function Indices(t: Contributions, s: Simplex): (idxs: seq<nat>)
    requires HasVertices(t, s)
    ensures |idxs| == |s.vertices|
  {
    seq(|s.vertices|, j requires 0 <= j < |s.vertices| && HasVertices(t, s) => t.vertexMap[s.vertices[j].id])
  }

  /**
   * The region refine leaves for s when t is the final map: the two new
   * simplex tracers, for each vertex the averaged entry of that vertex, and
   * the tags.
   */
  function QuadraticRegion(g: Geometry, q: QuadraticSimplex, sh: Shape, seg: Segment, s: Simplex, t: Contributions): (r: seq<Slot>)
    requires sh.Valid() && WellFormed(sh, s) && Incident(sh, s, seg) && Valid(t, sh.w) && HasVertices(t, s)
  {
    Region(QuadraticTracer(g, q, sh, s, seg, 0), QuadraticTracer(g, q, sh, s, seg, 1),
           Pick(Averages(g, t, sh.w), Indices(t, s)), QuadraticTags(sh, s, seg))
  }

  /** The regions of all simplices when t is the final map. */
  function RegionsWith(g: Geometry, q: QuadraticSimplex, sh: Shape, seg: Segment, simplices: seq<Simplex>, t: Contributions): (rs: seq<seq<Slot>>)
    requires AllIncident(sh, seg, simplices) && Valid(t, sh.w) && Covers(t, simplices)
    ensures |rs| == |simplices|
  {
    seq(|simplices|, i requires 0 <= i < |simplices| && sh.Valid() && WellFormed(sh, simplices[i]) && Incident(sh, simplices[i], seg)
                               && Valid(t, sh.w) && HasVertices(t, simplices[i]) =>
      QuadraticRegion(g, q, sh, seg, simplices[i], t))
  }

  /** The regions refine leaves, one per simplex. */
  function QuadraticRegions(g: Geometry, q: QuadraticSimplex, sh: Shape, seg: Segment, simplices: seq<Simplex>, newv: Coords): (rs: seq<seq<Slot>>)
    requires AllIncident(sh, seg, simplices) && |newv| == sh.w
    ensures |rs| == |simplices|
  {
    FinalCovers(g, q, sh, seg, simplices, newv);
    RegionsWith(g, q, sh, seg, simplices, FinalMap(g, q, sh, seg, simplices, newv))
  }

  // ---------------------------------------------------------------------------
  // The fits and the map

  /** The vertex of every fit of part i has an entry once all parts are recorded. */
  lemma PartHasEntries(g: Geometry, css: seq<seq<Contribution>>, ref: Coords, i: nat, k: nat)
    requires EachOfDim(css, |ref|) && i < |css| && k < |css[i]|
    ensures css[i][k].vertex in MapAfter(g, css, ref, |css|).vertexMap
  {
    assert css[..|css|] == css;
    JoinedOfDim(css, |ref|);
    ConcatAt(css, i, k);
    var m := |Concat(css[..i])| + k;
    TabulateHas(g, Concat(css), ref, m);
    assert Concat(css)[m].vertex == css[i][k].vertex;
    assert MapAfter(g, css, ref, |css|) == Tabulate(g, Concat(css), ref);
  }

  /** Fit k of part i is among the fits recorded for its vertex once all parts are joined. */
  lemma PartFitAmong(css: seq<seq<Contribution>>, i: nat, k: nat)
    requires i < |css| && k < |css[i]|
    ensures css[i][k].coords in FitsOf(Concat(css), css[i][k].vertex)
  {
    ConcatAt(css, i, k);
    FitIsAmong(Concat(css), |Concat(css[..i])| + k, css[i][k].vertex);
  }

  /** Once part i is recorded, later parts leave the indices of its vertices alone. */
  lemma PartIndexStable(g: Geometry, css: seq<seq<Contribution>>, ref: Coords, i: nat, v: VertexId)
    requires EachOfDim(css, |ref|) && i < |css| && v in MapAfter(g, css, ref, i + 1).vertexMap
    ensures v in MapAfter(g, css, ref, |css|).vertexMap
    ensures MapAfter(g, css, ref, |css|).vertexMap[v] == MapAfter(g, css, ref, i + 1).vertexMap[v]
  {
    ConcatPrefixOf(css, i + 1, |css|);
    JoinedOfDim(css[..i + 1], |ref|);
    JoinedOfDim(css[..|css|], |ref|);
    TabulateStable(g, Concat(css[..i + 1]), Concat(css[..|css|]), ref, v);
  }

  /**
   * The indices recorded for the vertices of s once part i is in the map are
   * their indices in the final map.
   */
  lemma IndicesSettled(g: Geometry, css: seq<seq<Contribution>>, ref: Coords, i: nat, s: Simplex, idxs: seq<nat>)
    requires EachOfDim(css, |ref|) && i < |css|
    requires IndexedUpTo(MapAfter(g, css, ref, i + 1), s, idxs, |s.vertices|)
    ensures HasVertices(MapAfter(g, css, ref, |css|), s)
    ensures idxs == Indices(MapAfter(g, css, ref, |css|), s)
  {
    forall j | 0 <= j < |s.vertices|
      ensures s.vertices[j].id in MapAfter(g, css, ref, |css|).vertexMap
      ensures idxs[j] == MapAfter(g, css, ref, |css|).vertexMap[s.vertices[j].id]
    {
      PartIndexStable(g, css, ref, i, s.vertices[j].id);
    }
  }

  /** Every vertex of an incident simplex has an entry in the final map. */
  lemma FinalHasVertices(g: Geometry, q: QuadraticSimplex, sh: Shape, seg: Segment, simplices: seq<Simplex>, newv: Coords, i: nat)
    requires AllIncident(sh, seg, simplices) && |newv| == sh.w && i < |simplices|
    ensures HasVertices(FinalMap(g, q, sh, seg, simplices, newv), simplices[i])
  {
    var css := AllFits(q, sh, seg, simplices);
    AllFitsOfDim(q, sh, seg, simplices);
    forall j | 0 <= j < |simplices[i].vertices|
      ensures simplices[i].vertices[j].id in MapAfter(g, css, newv, |css|).vertexMap
    {
      SimplexFitAt(q, sh, simplices[i], seg, j);
      PartHasEntries(g, css, newv, i, j);
    }
  }

  lemma FinalCovers(g: Geometry, q: QuadraticSimplex, sh: Shape, seg: Segment, simplices: seq<Simplex>, newv: Coords)
    requires AllIncident(sh, seg, simplices) && |newv| == sh.w
    ensures Covers(FinalMap(g, q, sh, seg, simplices, newv), simplices)
  {
    forall i | 0 <= i < |simplices| ensures HasVertices(FinalMap(g, q, sh, seg, simplices, newv), simplices[i]) {
      FinalHasVertices(g, q, sh, seg, simplices, newv, i);
    }
  }

  /** One more fit of s after the first j. */
  lemma AppendOne(before: seq<Contribution>, fits: seq<Contribution>, j: nat)
    requires j < |fits|
    ensures before + fits[..j + 1] == (before + fits[..j]) + [fits[j]]
  {
    assert fits[..j + 1] == fits[..j] + [fits[j]];
  }

  // ---------------------------------------------------------------------------
  // Continuity of the new segment tracers

  /**
   * In the region of s, segment tracer j holds the averaged entry of vertex j
   * of s, and tag j is that vertex.
   */
  lemma RegionEntries(g: Geometry, q: QuadraticSimplex, sh: Shape, seg: Segment, s: Simplex, t: Contributions, j: nat, k: nat)
    requires sh.Valid() && WellFormed(sh, s) && Incident(sh, s, seg) && Valid(t, sh.w) && HasVertices(t, s)
    requires j < sh.nvert && k < sh.w
    ensures |QuadraticRegion(g, q, sh, seg, s, t)| == WithTracersLayout(sh).Stride()
    ensures WithTracersLayout(sh).SegTracerSlot(j, k) < WithTracersLayout(sh).TagSlot(j) < WithTracersLayout(sh).Stride()
    ensures QuadraticRegion(g, q, sh, seg, s, t)[WithTracersLayout(sh).SegTracerSlot(j, k)]
         == Value(Average(g, t, t.vertexMap[s.vertices[j].id])[k])
    ensures QuadraticRegion(g, q, sh, seg, s, t)[WithTracersLayout(sh).TagSlot(j)] == Tag(s.vertices[j].id)
  {
    var L := WithTracersLayout(sh);
    var table := Averages(g, t, sh.w);
    var idxs := Indices(t, s);
    PickDims(table, idxs, sh.w);
    RegionSlots(L, QuadraticTracer(g, q, sh, s, seg, 0), QuadraticTracer(g, q, sh, s, seg, 1),
                Pick(table, idxs), QuadraticTags(sh, s, seg));
    assert QuadraticTags(sh, s, seg)[j] == VertexIds(s)[j];
  }

  /** Every region has the stride of the layout. */
  lemma RegionsStride(g: Geometry, q: QuadraticSimplex, sh: Shape, seg: Segment, simplices: seq<Simplex>, t: Contributions)
    requires AllIncident(sh, seg, simplices) && Valid(t, sh.w) && Covers(t, simplices)
    ensures forall r :: 0 <= r < |simplices| ==> |RegionsWith(g, q, sh, seg, simplices, t)[r]| == WithTracersLayout(sh).Stride()
  {
    var rs := RegionsWith(g, q, sh, seg, simplices, t);
    forall r | 0 <= r < |simplices| ensures |rs[r]| == WithTracersLayout(sh).Stride() {
      RegionEntries(g, q, sh, seg, simplices[r], t, 0, 0);
    }
  }

  /** Region-level agreement of tag j and segment tracer j carries over to the buffer. */
  lemma BufferAgreement(rs: seq<seq<Slot>>, sh: Shape, i: nat, j: nat, i': nat, j': nat, k: nat)
    requires forall r :: 0 <= r < |rs| ==> |rs[r]| == WithTracersLayout(sh).Stride()
    requires i < |rs| && i' < |rs| && j < sh.nvert && j' < sh.nvert && k < sh.w
    requires var L := WithTracersLayout(sh);
      && L.SegTracerSlot(j, k) < L.TagSlot(j) < L.Stride() && L.SegTracerSlot(j', k) < L.TagSlot(j') < L.Stride()
      && (rs[i][L.TagSlot(j)] == rs[i'][L.TagSlot(j')] ==> rs[i][L.SegTracerSlot(j, k)] == rs[i'][L.SegTracerSlot(j', k)])
    ensures var L := WithTracersLayout(sh);
            var b := Concat(rs);
            && Blocks(i, L.Stride()) + L.TagSlot(j) < |b| && Blocks(i', L.Stride()) + L.TagSlot(j') < |b|
            && Blocks(i, L.Stride()) + L.SegTracerSlot(j, k) < |b| && Blocks(i', L.Stride()) + L.SegTracerSlot(j', k) < |b|
            && (b[Blocks(i, L.Stride()) + L.TagSlot(j)] == b[Blocks(i', L.Stride()) + L.TagSlot(j')] ==>
                  b[Blocks(i, L.Stride()) + L.SegTracerSlot(j, k)] == b[Blocks(i', L.Stride()) + L.SegTracerSlot(j', k)])
  {
    var L := WithTracersLayout(sh);
    ConcatSlotsAgree(rs, L.Stride(), i, i', L.TagSlot(j), L.TagSlot(j'), L.SegTracerSlot(j, k), L.SegTracerSlot(j', k));
  }

  /**
   * For any map covering the simplices: wherever two regions carry the same
   * vertex tag, their segment tracers towards that vertex hold the same values.
   */
  lemma ContinuityWith(g: Geometry, q: QuadraticSimplex, sh: Shape, seg: Segment, simplices: seq<Simplex>, t: Contributions,
                       i: nat, j: nat, i': nat, j': nat, k: nat)
    requires AllIncident(sh, seg, simplices) && Valid(t, sh.w) && Covers(t, simplices)
    requires i < |simplices| && i' < |simplices| && j < sh.nvert && j' < sh.nvert && k < sh.w
    ensures var L := WithTracersLayout(sh);
            var b := Concat(RegionsWith(g, q, sh, seg, simplices, t));
            && Blocks(i, L.Stride()) + L.TagSlot(j) < |b| && Blocks(i', L.Stride()) + L.TagSlot(j') < |b|
            && Blocks(i, L.Stride()) + L.SegTracerSlot(j, k) < |b| && Blocks(i', L.Stride()) + L.SegTracerSlot(j', k) < |b|
            && (b[Blocks(i, L.Stride()) + L.TagSlot(j)] == b[Blocks(i', L.Stride()) + L.TagSlot(j')] ==>
                  b[Blocks(i, L.Stride()) + L.SegTracerSlot(j, k)] == b[Blocks(i', L.Stride()) + L.SegTracerSlot(j', k)])
  {
    var L := WithTracersLayout(sh);
    var rs := RegionsWith(g, q, sh, seg, simplices, t);
    RegionsStride(g, q, sh, seg, simplices, t);
    RegionEntries(g, q, sh, seg, simplices[i], t, j, k);
    RegionEntries(g, q, sh, seg, simplices[i'], t, j', k);
    var ri, ri' := QuadraticRegion(g, q, sh, seg, simplices[i], t), QuadraticRegion(g, q, sh, seg, simplices[i'], t);
    assert rs[i] == ri && rs[i'] == ri';
    assert ri[L.TagSlot(j)] == ri'[L.TagSlot(j')] ==> ri[L.SegTracerSlot(j, k)] == ri'[L.SegTracerSlot(j', k)] by {
      if ri[L.TagSlot(j)] == ri'[L.TagSlot(j')] {
        assert simplices[i].vertices[j].id == simplices[i'].vertices[j'].id;
      }
    }
    BufferAgreement(rs, sh, i, j, i', j', k);
  }

  /**
   * In the buffer refine leaves, wherever two regions carry the same vertex
   * tag, their new segment tracers towards that vertex hold the same values:
   * the mesh stays continuous across the new simplices.
   */
  lemma SharedVertexContinuity(g: Geometry, q: QuadraticSimplex, sh: Shape, seg: Segment, simplices: seq<Simplex>, newv: Coords,
                               i: nat, j: nat, i': nat, j': nat, k: nat)
    requires AllIncident(sh, seg, simplices) && |newv| == sh.w
    requires i < |simplices| && i' < |simplices| && j < sh.nvert && j' < sh.nvert && k < sh.w
    ensures var L := WithTracersLayout(sh);
            var b := Concat(QuadraticRegions(g, q, sh, seg, simplices, newv));
            && Blocks(i, L.Stride()) + L.TagSlot(j) < |b| && Blocks(i', L.Stride()) + L.TagSlot(j') < |b|
            && Blocks(i, L.Stride()) + L.SegTracerSlot(j, k) < |b| && Blocks(i', L.Stride()) + L.SegTracerSlot(j', k) < |b|
            && (b[Blocks(i, L.Stride()) + L.TagSlot(j)] == b[Blocks(i', L.Stride()) + L.TagSlot(j')] ==>
                  b[Blocks(i, L.Stride()) + L.SegTracerSlot(j, k)] == b[Blocks(i', L.Stride()) + L.SegTracerSlot(j', k)])
  {
    FinalCovers(g, q, sh, seg, simplices, newv);
    ContinuityWith(g, q, sh, seg, simplices, FinalMap(g, q, sh, seg, simplices, newv), i, j, i', j', k);
  }

  /**
   * For any map t built from the fits without periodic boundaries: segment
   * tracer j of region i is the mean of every fit recorded for its vertex.
   */
  lemma MeanWith(q: QuadraticSimplex, sh: Shape, seg: Segment, simplices: seq<Simplex>, cs: seq<Contribution>, newv: Coords,
                 i: nat, j: nat, k: nat)
    requires AllIncident(sh, seg, simplices) && |newv| == sh.w && FitsOfDim(cs, sh.w)
    requires Covers(Tabulate(NonPeriodic, cs, newv), simplices)
    requires i < |simplices| && j < sh.nvert && k < sh.w
    ensures var L := WithTracersLayout(sh);
            var b := Concat(RegionsWith(NonPeriodic, q, sh, seg, simplices, Tabulate(NonPeriodic, cs, newv)));
            var fits := FitsOf(cs, simplices[i].vertices[j].id);
            && |fits| > 0 && AllOfDim(fits, sh.w)
            && Blocks(i, L.Stride()) + L.SegTracerSlot(j, k) < |b|
            && b[Blocks(i, L.Stride()) + L.SegTracerSlot(j, k)] == Value(Scale(VectorSum(fits, sh.w), 1.0 / (|fits| as real))[k])
  {
    var L := WithTracersLayout(sh);
    var t := Tabulate(NonPeriodic, cs, newv);
    var rs := RegionsWith(NonPeriodic, q, sh, seg, simplices, t);
    RegionsStride(NonPeriodic, q, sh, seg, simplices, t);
    RegionEntries(NonPeriodic, q, sh, seg, simplices[i], t, j, k);
    ConcatSlot(rs, L.Stride(), i, L.SegTracerSlot(j, k));
    AverageIsMean(cs, newv, simplices[i].vertices[j].id);
  }

  /**
   * Without periodic boundaries, segment tracer j of region i of the buffer
   * refine leaves is the mean of every fit made for vertex j of simplices[i]
   * by the simplices around the split segment, its own fit among them.
   */
  lemma SegTracerIsMean(q: QuadraticSimplex, sh: Shape, seg: Segment, simplices: seq<Simplex>, newv: Coords, i: nat, j: nat, k: nat)
    requires AllIncident(sh, seg, simplices) && |newv| == sh.w && i < |simplices| && j < sh.nvert && k < sh.w
    ensures var L := WithTracersLayout(sh);
            var b := Concat(QuadraticRegions(NonPeriodic, q, sh, seg, simplices, newv));
            var fits := FitsOf(Concat(AllFits(q, sh, seg, simplices)), simplices[i].vertices[j].id);
            && SimplexFits(q, sh, simplices[i], seg)[j].coords in fits
            && |fits| > 0 && AllOfDim(fits, sh.w)
            && Blocks(i, L.Stride()) + L.SegTracerSlot(j, k) < |b|
            && b[Blocks(i, L.Stride()) + L.SegTracerSlot(j, k)] == Value(Scale(VectorSum(fits, sh.w), 1.0 / (|fits| as real))[k])
  {
    var css := AllFits(q, sh, seg, simplices);
    AllFitsOfDim(q, sh, seg, simplices);
    JoinedOfDim(css, sh.w);
    FinalCovers(NonPeriodic, q, sh, seg, simplices, newv);
    assert css[..|css|] == css;
    MeanWith(q, sh, seg, simplices, Concat(css), newv, i, j, k);
    OwnFitAmong(q, sh, seg, simplices, i, j);
  }

  /** The fit simplices[i] makes for its vertex j is among the fits recorded for that vertex. */
  lemma OwnFitAmong(q: QuadraticSimplex, sh: Shape, seg: Segment, simplices: seq<Simplex>, i: nat, j: nat)
    requires AllIncident(sh, seg, simplices) && i < |simplices| && j < sh.nvert
    ensures SimplexFits(q, sh, simplices[i], seg)[j].coords in FitsOf(Concat(AllFits(q, sh, seg, simplices)), simplices[i].vertices[j].id)
  {
    var css := AllFits(q, sh, seg, simplices);
    assert css[i] == SimplexFits(q, sh, simplices[i], seg);
    SimplexFitAt(q, sh, simplices[i], seg, j);
    PartFitAmong(css, i, j);
  }

  // ---------------------------------------------------------------------------
  // The two passes, region by region

  /** What the first pass stores for s when t is the final map. */
  function ParkedAt(g: Geometry, q: QuadraticSimplex, sh: Shape, seg: Segment, s: Simplex, t: Contributions): (p: Parked)
    requires sh.Valid() && WellFormed(sh, s) && Incident(sh, s, seg) && HasVertices(t, s)
    ensures ParkedFits(WithTracersLayout(sh), p)
  {
    Parked(QuadraticTracer(g, q, sh, s, seg, 0), QuadraticTracer(g, q, sh, s, seg, 1), Indices(t, s), QuadraticTags(sh, s, seg))
  }

  /** What the first pass stores for every simplex. */
  function ParkedAll(g: Geometry, q: QuadraticSimplex, sh: Shape, seg: Segment, simplices: seq<Simplex>, t: Contributions): (ps: seq<Parked>)
    requires AllIncident(sh, seg, simplices) && Covers(t, simplices)
    ensures |ps| == |simplices| && forall i :: 0 <= i < |ps| ==> ParkedFits(WithTracersLayout(sh), ps[i])
  {
    seq(|simplices|, i requires 0 <= i < |simplices| && sh.Valid() && WellFormed(sh, simplices[i]) && Incident(sh, simplices[i], seg)
                               && HasVertices(t, simplices[i]) =>
      ParkedAt(g, q, sh, seg, simplices[i], t))
  }

  /**
   * The last pass over what the first pass stored gives the regions refine
   * promises, and every stored index names an averaged entry.
   */
  lemma ResolvedAreQuadratic(g: Geometry, q: QuadraticSimplex, sh: Shape, seg: Segment, simplices: seq<Simplex>, t: Contributions)
    requires AllIncident(sh, seg, simplices) && Valid(t, sh.w) && Covers(t, simplices)
    ensures forall i :: 0 <= i < |simplices| ==> IndicesBelow(ParkedAll(g, q, sh, seg, simplices, t)[i], |Averages(g, t, sh.w)|)
    ensures ResolvedRegions(WithTracersLayout(sh), ParkedAll(g, q, sh, seg, simplices, t), Averages(g, t, sh.w))
         == RegionsWith(g, q, sh, seg, simplices, t)
  {
    var ps := ParkedAll(g, q, sh, seg, simplices, t);
    var table := Averages(g, t, sh.w);
    forall i | 0 <= i < |simplices| ensures IndicesBelow(ps[i], |table|) {
      assert ps[i].idxs == Indices(t, simplices[i]);
    }
    var R := ResolvedRegions(WithTracersLayout(sh), ps, table);
    var F := RegionsWith(g, q, sh, seg, simplices, t);
    forall i | 0 <= i < |simplices| ensures R[i] == F[i] {
      assert ps[i] == ParkedAt(g, q, sh, seg, simplices[i], t);
    }
  }

  // ---------------------------------------------------------------------------
  // refine

  /** The loop over n computing both new simplex tracers of s. */
  method ComputeQuadraticTracers(g: Geometry, q: QuadraticSimplex, sh: Shape, s: Simplex, seg: Segment) returns (t0: Coords, t1: Coords)
    requires sh.Valid() && WellFormed(sh, s) && Incident(sh, s, seg)
    ensures t0 == QuadraticTracer(g, q, sh, s, seg, 0) && t1 == QuadraticTracer(g, q, sh, s, seg, 1)
  {
    var segmentIndex := FindSegmentIndex(sh, s, seg);
    var (a, b) := sh.segVerts[segmentIndex];
    t0, t1 := [], [];
    for n := 0 to 2
      invariant n > 0 ==> t0 == QuadraticTracer(g, q, sh, s, seg, 0)
      invariant n > 1 ==> t1 == QuadraticTracer(g, q, sh, s, seg, 1)
    {
      var bC := ComputeTracerWeights(sh.nvert, a, b, n);
      var cE := Position(q, s, bC, sh.w);
      cE := CheckBoundary(g, cE);
      if n == 0 {
        t0 := cE;
      } else {
        t1 := cE;
      }
    }
  }

  /** The vertices 0 .. j-1 of s have entries in t and idxs holds their indices. */
  ghost predicate IndexedUpTo(t: Contributions, s: Simplex, idxs: seq<nat>, j: nat)
  {
    && j <= |s.vertices| && |idxs| == j
    && forall j' :: 0 <= j' < j ==> s.vertices[j'].id in t.vertexMap && idxs[j'] == t.vertexMap[s.vertices[j'].id]
  }

  /**
   * The loop over the vertices of s: fit segment tracer j, add it to the
   * contribution map and keep the index of its entry.
   */
  method RecordSimplexFits(g: Geometry, q: QuadraticSimplex, sh: Shape, s: Simplex, seg: Segment, newv: Coords,
                           t: Contributions, ghost before: seq<Contribution>) returns (idxs: seq<nat>, t': Contributions)
    requires sh.Valid() && WellFormed(sh, s) && Incident(sh, s, seg) && |newv| == sh.w
    requires FitsOfDim(before, sh.w) && t == Tabulate(g, before, newv)
    ensures FitsOfDim(before + SimplexFits(q, sh, s, seg), sh.w)
    ensures t' == Tabulate(g, before + SimplexFits(q, sh, s, seg), newv)
    ensures IndexedUpTo(t', s, idxs, sh.nvert)
  {
    ghost var fits := SimplexFits(q, sh, s, seg);
    var segmentIndex := FindSegmentIndex(sh, s, seg);
    var (a, b) := sh.segVerts[segmentIndex];
    idxs, t' := [], t;
    assert before + fits[..0] == before;
    for j := 0 to sh.nvert
      invariant FitsOfDim(before + fits[..j], sh.w)
      invariant t' == Tabulate(g, before + fits[..j], newv)
      invariant IndexedUpTo(t', s, idxs, j)
    {
      idxs, t' := RecordFit(g, q, sh, s, seg, newv, a, b, j, idxs, t', before);
    }
    assert fits[..sh.nvert] == fits;
  }

  /** One iteration of the loop over the vertices of s. */
  method RecordFit(g: Geometry, q: QuadraticSimplex, sh: Shape, s: Simplex, seg: Segment, newv: Coords, a: nat, b: nat, j: nat,
                   idxs: seq<nat>, t: Contributions, ghost before: seq<Contribution>) returns (idxs': seq<nat>, t': Contributions)
    requires sh.Valid() && WellFormed(sh, s) && Incident(sh, s, seg) && |newv| == sh.w && j < sh.nvert
    requires (a, b) == SplitEnds(sh, s, seg)
    requires FitsOfDim(before + SimplexFits(q, sh, s, seg)[..j], sh.w)
    requires t == Tabulate(g, before + SimplexFits(q, sh, s, seg)[..j], newv)
    requires IndexedUpTo(t, s, idxs, j)
    ensures FitsOfDim(before + SimplexFits(q, sh, s, seg)[..j + 1], sh.w)
    ensures t' == Tabulate(g, before + SimplexFits(q, sh, s, seg)[..j + 1], newv)
    ensures IndexedUpTo(t', s, idxs', j + 1)
  {
    ghost var fits := SimplexFits(q, sh, s, seg);
    var vertex := s.vertices[j];
    var bC := ComputeSegWeights(sh.nvert, a, b, j);
    var cE := Position(q, s, bC, sh.w);
    SimplexFitAt(q, sh, s, seg, j);
    assert fits[j] == Contribution(vertex.id, cE);
    AppendOne(before, fits, j);
    var index;
    index, t' := AddContribution(g, t, vertex.id, cE, newv);
    TabulateAppend(g, before + fits[..j], fits[j], newv);
    idxs' := idxs + [index];
    forall j' | 0 <= j' <= j ensures s.vertices[j'].id in t'.vertexMap && idxs'[j'] == t'.vertexMap[s.vertices[j'].id] {
      if j' < j {
        assert s.vertices[j'].id in t.vertexMap && idxs'[j'] == idxs[j'];
      }
    }
  }

  /**
   * What refine's first loop computes for simplex i: its two new simplex
   * tracers, the entry indices of its vertices (which the later simplices do
   * not change) and its tags, while the fits of simplex i go into the map.
   */
  method VisitSimplex(g: Geometry, q: QuadraticSimplex, sh: Shape, seg: Segment, simplices: seq<Simplex>, newv: Coords,
                      i: nat, t: Contributions, ghost css: seq<seq<Contribution>>, ghost final: Contributions)
    returns (p: Parked, t': Contributions)
    requires AllIncident(sh, seg, simplices) && |newv| == sh.w && i < |simplices|
    requires css == AllFits(q, sh, seg, simplices) && EachOfDim(css, sh.w)
    requires final == MapAfter(g, css, newv, |css|) && HasVertices(final, simplices[i])
    requires t == MapAfter(g, css, newv, i)
    ensures p == ParkedAt(g, q, sh, seg, simplices[i], final)
    ensures t' == MapAfter(g, css, newv, i + 1)
  {
    var s := simplices[i];
    var t0, t1 := ComputeQuadraticTracers(g, q, sh, s, seg);
    JoinedOfDim(css[..i], sh.w);
    var idxs;
    idxs, t' := RecordSimplexFits(g, q, sh, s, seg, newv, t, Concat(css[..i]));
    ConcatStep(css, i);
    IndicesSettled(g, css, newv, i, s, idxs);
    var tags := VertexIds(s) + [s.vertices[SplitEnds(sh, s, seg).0].id];
    p := Parked(t0, t1, idxs, tags);
  }

  /** One iteration of refine's first loop: visit simplex i and park what it computed in region i. */
  method PassOneStep(g: Geometry, q: QuadraticSimplex, sh: Shape, seg: Segment, simplices: seq<Simplex>, newv: Coords,
                     buffer: array<Slot>, i: nat, at: nat, t: Contributions,
                     ghost css: seq<seq<Contribution>>, ghost final: Contributions, ghost P1: seq<seq<Slot>>, ghost b0: seq<Slot>)
    returns (next: nat, t': Contributions)
    requires AllIncident(sh, seg, simplices) && |newv| == sh.w && i < |simplices|
    requires css == AllFits(q, sh, seg, simplices) && EachOfDim(css, sh.w)
    requires final == MapAfter(g, css, newv, |css|) && Covers(final, simplices)
    requires t == MapAfter(g, css, newv, i)
    requires |b0| == buffer.Length == Blocks(|simplices|, WithTracersLayout(sh).Stride())
    requires P1 == PassOneRegions(b0, WithTracersLayout(sh), ParkedAll(g, q, sh, seg, simplices, final))
    requires at == Blocks(i, WithTracersLayout(sh).Stride()) && at + WithTracersLayout(sh).Stride() <= buffer.Length
    requires buffer[..at] == Concat(P1[..i]) && buffer[at..] == b0[at..]
    modifies buffer
    ensures next == Blocks(i + 1, WithTracersLayout(sh).Stride()) && next <= buffer.Length
    ensures buffer[..next] == Concat(P1[..i + 1]) && buffer[next..] == b0[next..]
    ensures t' == MapAfter(g, css, newv, i + 1)
  {
    var L := WithTracersLayout(sh);
    var p;
    p, t' := VisitSimplex(g, q, sh, seg, simplices, newv, i, t, css, final);
    next := PassOneAt(buffer, L, at, i, p.t0, p.t1, p.idxs, p.tags, P1, b0);
  }

  /** refine's first loop over the simplices, with the regions it writes fixed in advance as P1. */
  method PassOneLoop(g: Geometry, q: QuadraticSimplex, sh: Shape, seg: Segment, simplices: seq<Simplex>, newv: Coords,
                     buffer: array<Slot>, ghost css: seq<seq<Contribution>>, ghost final: Contributions, ghost P1: seq<seq<Slot>>)
    returns (t: Contributions)
    requires AllIncident(sh, seg, simplices) && |newv| == sh.w
    requires css == AllFits(q, sh, seg, simplices) && EachOfDim(css, sh.w)
    requires final == MapAfter(g, css, newv, |css|) && Covers(final, simplices)
    requires buffer.Length == Blocks(|simplices|, WithTracersLayout(sh).Stride())
    requires P1 == PassOneRegions(buffer[..], WithTracersLayout(sh), ParkedAll(g, q, sh, seg, simplices, final))
    modifies buffer
    ensures t == final && buffer[..] == Concat(P1)
  {
    ghost var b0 := buffer[..];
    t := Empty;
    var at: nat := 0;
    assert P1[..0] == [];
    assert css[..0] == [];
    for i := 0 to |simplices|
      invariant at == Blocks(i, WithTracersLayout(sh).Stride()) && at <= buffer.Length
      invariant buffer[..at] == Concat(P1[..i]) && buffer[at..] == b0[at..]
      invariant t == MapAfter(g, css, newv, i)
    {
      BlockBelow(WithTracersLayout(sh).Stride(), i, |simplices|);
      at, t := PassOneStep(g, q, sh, seg, simplices, newv, buffer, i, at, t, css, final, P1, b0);
    }
    ConcatLength(P1, WithTracersLayout(sh).Stride());
    FullPrefix(buffer[..], P1, at);
  }

  /** refine's first loop over the simplices. */
  method PassOne(g: Geometry, q: QuadraticSimplex, sh: Shape, seg: Segment, simplices: seq<Simplex>, newv: Coords, buffer: array<Slot>)
    returns (t: Contributions)
    requires AllIncident(sh, seg, simplices) && |newv| == sh.w
    requires buffer.Length == Blocks(|simplices|, WithTracersLayout(sh).Stride())
    modifies buffer
    ensures t == FinalMap(g, q, sh, seg, simplices, newv) && Covers(t, simplices)
    ensures buffer[..] == Concat(PassOneRegions(old(buffer[..]), WithTracersLayout(sh), ParkedAll(g, q, sh, seg, simplices, t)))
  {
    ghost var css := AllFits(q, sh, seg, simplices);
    AllFitsOfDim(q, sh, seg, simplices);
    ghost var final := FinalMap(g, q, sh, seg, simplices, newv);
    FinalCovers(g, q, sh, seg, simplices, newv);
    ghost var P1 := PassOneRegions(buffer[..], WithTracersLayout(sh), ParkedAll(g, q, sh, seg, simplices, final));
    t := PassOneLoop(g, q, sh, seg, simplices, newv, buffer, css, final, P1);
  }

  /**
   * QuadraticRegressionWithTracers::refine: the new vertex goes to `result`,
   * and region i of the buffer ends up with the two new simplex tracers of
   * simplices[i], the averaged fits of its new segment tracers and its tags.
   */
  method RefineQuadratic(g: Geometry, q: QuadraticSimplex, sh: Shape, seg: Segment, simplices: seq<Simplex>,
                         result: array<real>, buffer: array<Slot>)
    requires RefineInputs(sh, seg, simplices) && result.Length == sh.w
    requires buffer.Length == Blocks(|simplices|, WithTracersLayout(sh).Stride())
    modifies result, buffer
    ensures result[..] == LinearPolicy.NewVertex(g, sh, seg, simplices)
    ensures buffer[..] == Concat(QuadraticRegions(g, q, sh, seg, simplices, result[..]))
  {
    LinearPolicy.SetNewVertex(g, sh, seg, simplices, result);
    var newv := result[..];
    ghost var b0 := buffer[..];
    var t := PassOne(g, q, sh, seg, simplices, newv, buffer);
    var contribCoord := AverageContributions(g, t, sh.w);
    ResolvedAreQuadratic(g, q, sh, seg, simplices, t);
    ResolveAll(buffer, WithTracersLayout(sh), |simplices|, contribCoord, ParkedAll(g, q, sh, seg, simplices, t), b0);
  }
}
