/**
 * LinearRegressionWithTracers: the new vertex is the stored segment tracer of
 * the split segment; the new simplex tracers are the barycenters of the two
 * halves and the new segment tracers the midpoints between the new vertex and
 * every vertex of the simplex.
 */
module LinearPolicy {
  import opened Geometry
  import opened Mesh
  import opened Layout
  import Arith

  /**
   * The new vertex of both "WithTracers" policies: the W values of the split
   * segment's tracer, read from the first incident simplex, boundary-wrapped.
   */
  function NewVertex(g: Geometry, sh: Shape, seg: Segment, simplices: seq<Simplex>): (r: Coords)
    requires RefineInputs(sh, seg, simplices)
    ensures |r| == sh.w
  {
    CheckBoundary(g, SegTracer(sh, simplices[0], FindSegmentIndex(sh, simplices[0], seg)))
  }

  /** The opening of refine: copy the segment tracer into result, then wrap it in place. */
  method SetNewVertex(g: Geometry, sh: Shape, seg: Segment, simplices: seq<Simplex>, result: array<real>)
    requires RefineInputs(sh, seg, simplices) && result.Length == sh.w
    modifies result
    ensures result[..] == NewVertex(g, sh, seg, simplices)
  {
    var si := FindSegmentIndex(sh, simplices[0], seg);
    var stored := SegTracer(sh, simplices[0], si);
    for k := 0 to sh.w
      invariant forall k' :: 0 <= k' < k ==> result[k'] == stored[k']
    {
      result[k] := stored[k];
    }
    assert result[..] == stored;
    var wrapped := CheckBoundary(g, result[..]);
    for k := 0 to sh.w
      invariant forall k' :: 0 <= k' < k ==> result[k'] == wrapped[k']
    {
      result[k] := wrapped[k];
    }
  }

  /** Halves of a well-formed simplex hold points of dimension W. */
  lemma SubSimplexDims(sh: Shape, s: Simplex, seg: Segment, newv: Coords, n: nat)
    requires WellFormed(sh, s) && |newv| == sh.w && n < 2
    ensures |SubSimplex(s, seg, newv, n)| == sh.nvert && AllOfDim(SubSimplex(s, seg, newv, n), sh.w)
  {
  }

  /** New simplex tracer n: the barycenter of half n taken next to the new vertex, wrapped. */
  function LinearTracer(g: Geometry, sh: Shape, s: Simplex, seg: Segment, newv: Coords, n: nat): (r: Coords)
    requires sh.Valid() && WellFormed(sh, s) && |newv| == sh.w && n < 2
    ensures |r| == sh.w
  {
    SubSimplexDims(sh, s, seg, newv, n);
    CheckBoundary(g, Barycenter(g, SubSimplex(s, seg, newv, n), newv))
  }

  /** New segment tracer towards x: half way from the new vertex to x moved next to it, wrapped. */
  function LinearSegTracer(g: Geometry, newv: Coords, x: Coords): (r: Coords)
    requires |x| == |newv|
    ensures |r| == |newv|
  {
    CheckBoundary(g, seq(|newv|, k requires 0 <= k < |newv| => (newv[k] + g.consistency(x[k], newv[k], k)) * 0.5))
  }

  function LinearSegTracers(g: Geometry, s: Simplex, newv: Coords): (r: seq<Coords>)
    requires VerticesOfDim(s, |newv|)
    ensures |r| == |s.vertices| && AllOfDim(r, |newv|)
    ensures forall j :: 0 <= j < |r| ==> r[j] == LinearSegTracer(g, newv, s.vertices[j].coords)
  {
    seq(|s.vertices|, j requires 0 <= j < |s.vertices| => LinearSegTracer(g, newv, s.vertices[j].coords))
  }

  /** Tags of a "WithTracers" region: vertex j of the simplex, then segment vertex 0. */
  function RegionTags(s: Simplex, seg: Segment): (tags: seq<VertexId>)
  {
    VertexIds(s) + [seg.v0.id]
  }

  /** The region refine writes for simplex s. */
  function LinearRegion(g: Geometry, sh: Shape, s: Simplex, seg: Segment, newv: Coords): (r: seq<Slot>)
    requires sh.Valid() && WellFormed(sh, s) && |newv| == sh.w
    ensures |r| == WithTracersLayout(sh).Stride()
  {
    LinearRegionFits(g, sh, s, seg, newv);
    Region(LinearTracer(g, sh, s, seg, newv, 0), LinearTracer(g, sh, s, seg, newv, 1),
           LinearSegTracers(g, s, newv), RegionTags(s, seg))
  }

  /** The regions of all incident simplices, region i for simplices[i]. */
  function LinearRegions(g: Geometry, sh: Shape, seg: Segment, simplices: seq<Simplex>, newv: Coords): (rs: seq<seq<Slot>>)
    requires RefineInputs(sh, seg, simplices) && |newv| == sh.w
    ensures |rs| == |simplices|
    ensures forall i :: 0 <= i < |rs| ==> rs[i] == LinearRegion(g, sh, simplices[i], seg, newv)
  {
    seq(|simplices|, i requires 0 <= i < |simplices| => LinearRegion(g, sh, simplices[i], seg, newv))
  }

  /** The pieces of a linear region fit the "WithTracers" layout. */
  lemma LinearRegionFits(g: Geometry, sh: Shape, s: Simplex, seg: Segment, newv: Coords)
    requires sh.Valid() && WellFormed(sh, s) && |newv| == sh.w
    ensures Fits(WithTracersLayout(sh), LinearTracer(g, sh, s, seg, newv, 0), LinearTracer(g, sh, s, seg, newv, 1),
                 LinearSegTracers(g, s, newv), RegionTags(s, seg))
    ensures |Region(LinearTracer(g, sh, s, seg, newv, 0), LinearTracer(g, sh, s, seg, newv, 1),
                    LinearSegTracers(g, s, newv), RegionTags(s, seg))| == WithTracersLayout(sh).Stride()
  {
    RegionSlots(WithTracersLayout(sh), LinearTracer(g, sh, s, seg, newv, 0), LinearTracer(g, sh, s, seg, newv, 1),
                LinearSegTracers(g, s, newv), RegionTags(s, seg));
  }

  /** Without periodic boundaries, new simplex tracer n is the arithmetic mean of the vertices of half n. */
  lemma LinearTracerIsMean(sh: Shape, s: Simplex, seg: Segment, newv: Coords, n: nat)
    requires sh.Valid() && WellFormed(sh, s) && |newv| == sh.w && n < 2
    ensures LinearTracer(NonPeriodic, sh, s, seg, newv, n)
            == Scale(VectorSum(SubSimplex(s, seg, newv, n), sh.w), 1.0 / (sh.nvert as real))
  {
    SubSimplexDims(sh, s, seg, newv, n);
    var p := SubSimplex(s, seg, newv, n);
    NonPeriodicBarycenter(p, newv);
    NonPeriodicBoundary(Barycenter(NonPeriodic, p, newv));
  }

  /** Without periodic boundaries, the segment tracer towards x is the midpoint of the new vertex and x. */
  lemma LinearSegTracerIsMidPoint(newv: Coords, x: Coords)
    requires |x| == |newv|
    ensures LinearSegTracer(NonPeriodic, newv, x) == MidPointCoords(NonPeriodic, newv, x)
  {
    var lhs := LinearSegTracer(NonPeriodic, newv, x);
    var rhs := MidPointCoords(NonPeriodic, newv, x);
    NonPeriodicBoundary(seq(|newv|, k requires 0 <= k < |newv| => (newv[k] + NonPeriodic.consistency(x[k], newv[k], k)) * 0.5));
    forall k | 0 <= k < |newv| ensures lhs[k] == rhs[k] {
      assert lhs[k] == (newv[k] + x[k]) * 0.5;
    }
    assert lhs == rhs;
  }

  /**
   * The body of refine's loop over the simplices for simplex s: the two new
   * simplex tracers, the segment tracers towards every vertex and the tags.
   */
  method ComputeLinearRegion(g: Geometry, sh: Shape, s: Simplex, seg: Segment, newv: Coords) returns (region: seq<Slot>)
    requires sh.Valid() && WellFormed(sh, s) && |newv| == sh.w
    ensures region == LinearRegion(g, sh, s, seg, newv)
  {
    var p0, p1 := SplitVertices(s, seg, newv);
    var tracers: seq<Coords> := [];
    for n := 0 to 2
      invariant |tracers| == n
      invariant forall m :: 0 <= m < n ==> tracers[m] == LinearTracer(g, sh, s, seg, newv, m)
    {
      var pn := if n == 0 then p0 else p1;
      SubSimplexDims(sh, s, seg, newv, n);
      var point := ConsistentMean(g, pn, newv);
      point := CheckBoundary(g, point);
      tracers := tracers + [point];
    }
    var segTs: seq<Coords> := [];
    var tags: seq<VertexId> := [];
    for j := 0 to sh.nvert
      invariant |segTs| == |tags| == j
      invariant forall j' :: 0 <= j' < j ==> segTs[j'] == LinearSegTracer(g, newv, s.vertices[j'].coords)
      invariant forall j' :: 0 <= j' < j ==> tags[j'] == s.vertices[j'].id
    {
      var vertex := s.vertices[j];
      var point := LinearSegTracer(g, newv, vertex.coords);
      segTs := segTs + [point];
      tags := tags + [vertex.id];
    }
    assert segTs == LinearSegTracers(g, s, newv);
    tags := tags + [seg.v0.id];
    assert tags == RegionTags(s, seg);
    region := Region(tracers[0], tracers[1], segTs, tags);
  }

  /**
   * LinearRegressionWithTracers::refine: the new vertex goes to `result`, and
   * the buffer then holds the regions of all incident simplices, in order,
   * region i at SIMPLEX_BUFFER_SIZE*i.
   */
  method RefineLinear(g: Geometry, sh: Shape, seg: Segment, simplices: seq<Simplex>, result: array<real>, buffer: array<Slot>)
    requires RefineInputs(sh, seg, simplices) && result.Length == sh.w
    requires buffer.Length == Arith.Blocks(|simplices|, WithTracersLayout(sh).Stride())
    modifies result, buffer
    ensures result[..] == NewVertex(g, sh, seg, simplices)
    ensures buffer[..] == Concat(LinearRegions(g, sh, seg, simplices, result[..]))
  {
    SetNewVertex(g, sh, seg, simplices, result);
    LinearRegionsHeld(g, sh, seg, simplices, result[..]);
    WriteLinearRegions(g, sh, seg, simplices, result[..], buffer, LinearRegions(g, sh, seg, simplices, result[..]));
  }

  /**
   * rs holds the region of every simplex, rs[i] for simplices[i]; the
   * quantifier is only instantiated where the region of a simplex is named.
   */
  ghost predicate HoldsLinearRegions(g: Geometry, sh: Shape, seg: Segment, simplices: seq<Simplex>, newv: Coords,
                                     rs: seq<seq<Slot>>)
    requires RefineInputs(sh, seg, simplices) && |newv| == sh.w
  {
    && |rs| == |simplices|
    && forall i {:trigger LinearRegion(g, sh, simplices[i], seg, newv)} :: 0 <= i < |simplices| ==>
         rs[i] == LinearRegion(g, sh, simplices[i], seg, newv)
  }

  /** The regions fill SIMPLEX_BUFFER_SIZE slots each. */
  lemma LinearRegionsHeld(g: Geometry, sh: Shape, seg: Segment, simplices: seq<Simplex>, newv: Coords)
    requires RefineInputs(sh, seg, simplices) && |newv| == sh.w
    ensures HoldsLinearRegions(g, sh, seg, simplices, newv, LinearRegions(g, sh, seg, simplices, newv))
    ensures |Concat(LinearRegions(g, sh, seg, simplices, newv))| == Arith.Blocks(|simplices|, WithTracersLayout(sh).Stride())
  {
    ConcatLength(LinearRegions(g, sh, seg, simplices, newv), WithTracersLayout(sh).Stride());
  }

  /** Refine's loop over the incident simplices: region i receives the region of simplices[i]. */
  method WriteLinearRegions(g: Geometry, sh: Shape, seg: Segment, simplices: seq<Simplex>, newv: Coords, buffer: array<Slot>,
                            ghost rs: seq<seq<Slot>>)
    requires RefineInputs(sh, seg, simplices) && |newv| == sh.w
    requires HoldsLinearRegions(g, sh, seg, simplices, newv, rs) && buffer.Length == |Concat(rs)|
    modifies buffer
    ensures buffer[..] == Concat(rs)
  {
    assert rs[..0] == [];
    var at: nat := 0;
    for i := 0 to |simplices|
      invariant at <= buffer.Length && buffer[..at] == Concat(rs[..i])
    {
      at := AppendLinearRegion(g, sh, simplices[i], seg, newv, buffer, at, rs, i);
    }
    assert rs[..|simplices|] == rs;
    assert buffer[..] == buffer[..at];
  }

  /** One iteration of refine's loop: region i is computed and stored right after regions 0 .. i-1. */
  method AppendLinearRegion(g: Geometry, sh: Shape, s: Simplex, seg: Segment, newv: Coords, buffer: array<Slot>,
                            at: nat, ghost rs: seq<seq<Slot>>, ghost i: nat) returns (next: nat)
    requires sh.Valid() && WellFormed(sh, s) && |newv| == sh.w
    requires i < |rs| && rs[i] == LinearRegion(g, sh, s, seg, newv)
    requires at <= buffer.Length && buffer[..at] == Concat(rs[..i]) && |Concat(rs)| <= buffer.Length
    modifies buffer
    ensures next <= buffer.Length && buffer[..next] == Concat(rs[..i + 1])
  {
    ConcatPrefix(rs, i);
    var region := ComputeLinearRegion(g, sh, s, seg, newv);
    AppendRegion(buffer, at, region, rs, i);
    next := at + |region|;
  }
}
