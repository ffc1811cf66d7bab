/**
 * QuadraticRegressionWithTracer: the new vertex is the mean, over the incident
 * simplices, of the segment midpoint projected onto a quadratic surface fitted
 * through the points around each simplex; each half of a split simplex then
 * receives a tracer projected onto a second fit made in that half's frame.
 */
module FitPolicy {
  import opened Geometry
  import opened Mesh
  import opened Layout
  import opened FitPoints
  import Arith

  /**
   * The collaborators refine calls and that are not part of this model: the
   * surface fitter (nCoefs is its number of coefficients; `project` gives
   * coordinate k of the projection of x onto the quadratic surface fitted
   * through `points` with tangent base `base`) and the mesh's own base vectors
   * of a simplex (`meshBase` gives coordinate k of base vector d).
   */
  datatype Fitter = Fitter(
    nCoefs: nat,
    project: (seq<Coords>, seq<Coords>, Coords, nat) -> real,
    meshBase: (Simplex, nat, nat) -> real)

  /** fit.projectToSurface(x): the projection of x, one value per coordinate. */
  function Project(f: Fitter, points: seq<Coords>, base: seq<Coords>, x: Coords): (r: Coords)
    ensures |r| == |x| && forall k :: 0 <= k < |x| ==> r[k] == f.project(points, base, x, k)
  {
    seq(|x|, k requires 0 <= k < |x| => f.project(points, base, x, k))
  }

  /** mesh->getBaseVectors(s): NDIM vectors of W coordinates. */
  function MeshBase(f: Fitter, sh: Shape, s: Simplex): (r: seq<Coords>)
    requires sh.Valid()
    ensures |r| == sh.Dim() && AllOfDim(r, sh.w)
  {
    seq(sh.Dim(), d requires 0 <= d < sh.Dim() => seq(sh.w, k requires 0 <= k < sh.w => f.meshBase(s, d, k)))
  }

  /** What this refine demands: the general inputs, and a first segment vertex of dimension W. */
  ghost predicate FitInputs(sh: Shape, seg: Segment, simplices: seq<Simplex>)
  {
    RefineInputs(sh, seg, simplices) && |seg.v0.coords| == sh.w
  }

  /** midPoint: the midpoint of the split segment, as the geometry defines it. */
  function SplitMidPoint(g: Geometry, sh: Shape, seg: Segment): (r: Coords)
    requires |seg.v0.coords| == sh.w
    ensures |r| == sh.w
  {
    MidPointCoords(g, seg.v0.coords, seg.v1.coords)
  }

  // ---------------------------------------------------------------------------
  // The first pass: one fit per incident simplex

  /** origin[i]: the barycenter of the vertices of s, each taken next to the midpoint. */
  function Origin(g: Geometry, sh: Shape, s: Simplex, mid: Coords): (r: Coords)
    requires sh.Valid() && WellFormed(sh, s) && |mid| == sh.w
    ensures |r| == sh.w
  {
    Barycenter(g, VertexCoords(s), mid)
  }

  /** The points of the first fit of s, relative to its origin. */
  function FirstPoints(g: Geometry, sh: Shape, s: Simplex, mid: Coords): seq<Coords>
    requires sh.Valid() && WellFormed(sh, s) && |mid| == sh.w
  {
    Points(g, sh, s, Origin(g, sh, s, mid), [])
  }

  /**
   * The first fit of s would be under-determined: the tracer, the NVERT
   * vertices, the non-null neighbours and the distinct vertices opposite to
   * them are fewer than the fitter's coefficients.
   */
  ghost predicate TooFewPoints(f: Fitter, sh: Shape, s: Simplex)
  {
    1 + sh.nvert + |NonNull(s.neighbors)| + |OppositeIds(s.neighbors)| < f.nCoefs
  }

  /**
   * pSplitPoint + origin[i]: the midpoint, relative to the origin, projected
   * onto the surface fitted in the mesh's base of s, and moved back.
   */
  function SplitProjection(g: Geometry, f: Fitter, sh: Shape, s: Simplex, mid: Coords): (r: Coords)
    requires sh.Valid() && WellFormed(sh, s) && |mid| == sh.w
    ensures |r| == sh.w
  {
    var o := Origin(g, sh, s, mid);
    Plus(Project(f, FirstPoints(g, sh, s, mid), MeshBase(f, sh, s), Relative(g, o, mid)), o)
  }

  function SplitProjections(g: Geometry, f: Fitter, sh: Shape, simplices: seq<Simplex>, mid: Coords): (r: seq<Coords>)
    requires sh.Valid() && |mid| == sh.w && forall i :: 0 <= i < |simplices| ==> WellFormed(sh, simplices[i])
    ensures |r| == |simplices| && AllOfDim(r, sh.w)
    ensures forall i :: 0 <= i < |simplices| ==> r[i] == SplitProjection(g, f, sh, simplices[i], mid)
  {
    seq(|simplices|, i requires 0 <= i < |simplices| && sh.Valid() && |mid| == sh.w && WellFormed(sh, simplices[i]) =>
      SplitProjection(g, f, sh, simplices[i], mid))
  }

  /** The new vertex before it is wrapped: the mean of the projections of all simplices. */
  function RawVertex(g: Geometry, f: Fitter, sh: Shape, seg: Segment, simplices: seq<Simplex>): (r: Coords)
    requires FitInputs(sh, seg, simplices)
    ensures |r| == sh.w
  {
    Scale(VectorSum(SplitProjections(g, f, sh, simplices, SplitMidPoint(g, sh, seg)), sh.w), 1.0 / (|simplices| as real))
  }

  /** The new vertex refine leaves in `result`: the mean projection, boundary-wrapped. */
  function FitVertex(g: Geometry, f: Fitter, sh: Shape, seg: Segment, simplices: seq<Simplex>): (r: Coords)
    requires FitInputs(sh, seg, simplices)
    ensures |r| == sh.w
  {
    CheckBoundary(g, RawVertex(g, f, sh, seg, simplices))
  }

  // ---------------------------------------------------------------------------
  // The second pass: one fit per half of every simplex

  /** Halves of a well-formed simplex hold NVERT points of dimension W. */
  lemma HalfDims(sh: Shape, s: Simplex, seg: Segment, raw: Coords, n: nat)
    requires WellFormed(sh, s) && |raw| == sh.w && n < 2
    ensures |SubSimplex(s, seg, raw, n)| == sh.nvert && AllOfDim(SubSimplex(s, seg, raw, n), sh.w)
  {
  }

  /** org: the barycenter of half n, its points taken next to the midpoint. */
  function HalfOrigin(g: Geometry, sh: Shape, s: Simplex, seg: Segment, raw: Coords, mid: Coords, n: nat): (r: Coords)
    requires sh.Valid() && WellFormed(sh, s) && |raw| == sh.w && |mid| == sh.w && n < 2
    ensures |r| == sh.w
  {
    HalfDims(sh, s, seg, raw, n);
    Barycenter(g, SubSimplex(s, seg, raw, n), mid)
  }

  /**
   * The points of the fit for half n, relative to its origin: those of the
   * first fit, with the unwrapped new vertex right after the simplex tracer.
   */
  function HalfPoints(g: Geometry, sh: Shape, s: Simplex, seg: Segment, raw: Coords, mid: Coords, n: nat): seq<Coords>
    requires sh.Valid() && WellFormed(sh, s) && |raw| == sh.w && |mid| == sh.w && n < 2
  {
    var org := HalfOrigin(g, sh, s, seg, raw, mid, n);
    Points(g, sh, s, org, [Relative(g, org, raw)])
  }

  /**
   * tBuffer[n*W .. n*W+W-1]: the origin of the half, projected onto the surface
   * fitted in the base of the half, and moved back.
   */
  function HalfTracer(g: Geometry, f: Fitter, sh: Shape, s: Simplex, seg: Segment, raw: Coords, mid: Coords, n: nat): (r: Coords)
    requires sh.Valid() && WellFormed(sh, s) && |raw| == sh.w && |mid| == sh.w && n < 2
    ensures |r| == sh.w
  {
    var org := HalfOrigin(g, sh, s, seg, raw, mid, n);
    var base := BaseVectors(g, SubSimplex(s, seg, raw, n), sh.Dim(), sh.w);
    Plus(Project(f, HalfPoints(g, sh, s, seg, raw, mid, n), base, Zero(sh.w)), org)
  }

  /** The region refine writes for s: both half tracers, then segment vertex 0. */
  function FitRegion(g: Geometry, f: Fitter, sh: Shape, s: Simplex, seg: Segment, raw: Coords, mid: Coords): seq<Slot>
    requires sh.Valid() && WellFormed(sh, s) && |raw| == sh.w && |mid| == sh.w
  {
    Region(HalfTracer(g, f, sh, s, seg, raw, mid, 0), HalfTracer(g, f, sh, s, seg, raw, mid, 1), [], [seg.v0.id])
  }

  /** The regions of all incident simplices, region i for simplices[i]. */
  function FitRegions(g: Geometry, f: Fitter, sh: Shape, seg: Segment, simplices: seq<Simplex>, raw: Coords, mid: Coords)
    : (rs: seq<seq<Slot>>)
    requires RefineInputs(sh, seg, simplices) && |raw| == sh.w && |mid| == sh.w
    ensures |rs| == |simplices|
    ensures forall i :: 0 <= i < |rs| ==> rs[i] == FitRegion(g, f, sh, simplices[i], seg, raw, mid)
  {
    seq(|simplices|, i requires 0 <= i < |simplices| && RefineInputs(sh, seg, simplices) && |raw| == sh.w && |mid| == sh.w =>
      FitRegion(g, f, sh, simplices[i], seg, raw, mid))
  }

  // ---------------------------------------------------------------------------
  // Properties

  /**
   * sf.getPointsCount() of the first fit: the tracer, NVERT vertices, the
   * non-null neighbours and the distinct vertices opposite to them; the fit is
   * refused exactly when that count is below the number of coefficients.
   */
  lemma FirstPointCount(g: Geometry, f: Fitter, sh: Shape, s: Simplex, mid: Coords)
    requires sh.Valid() && WellFormed(sh, s) && |mid| == sh.w
    ensures |FirstPoints(g, sh, s, mid)| == 1 + sh.nvert + |NonNull(s.neighbors)| + |OppositeIds(s.neighbors)|
    ensures TooFewPoints(f, sh, s) <==> |FirstPoints(g, sh, s, mid)| < f.nCoefs
  {
    PointCount(g, sh, s, Origin(g, sh, s, mid), []);
  }

  /**
   * Each second fit has one point more than the first fit of its simplex, so a
   * simplex the first pass accepts never gives an under-determined second fit.
   */
  lemma HalfPointCount(g: Geometry, f: Fitter, sh: Shape, s: Simplex, seg: Segment, raw: Coords, mid: Coords, n: nat)
    requires sh.Valid() && WellFormed(sh, s) && |raw| == sh.w && |mid| == sh.w && n < 2
    ensures |HalfPoints(g, sh, s, seg, raw, mid, n)| == |FirstPoints(g, sh, s, mid)| + 1
    ensures !TooFewPoints(f, sh, s) ==> |HalfPoints(g, sh, s, seg, raw, mid, n)| > f.nCoefs
  {
    var org := HalfOrigin(g, sh, s, seg, raw, mid, n);
    PointCount(g, sh, s, org, [Relative(g, org, raw)]);
    PointCount(g, sh, s, Origin(g, sh, s, mid), []);
  }

  /** A region of the "WithTracer" layout: two tracers of W values, then one tag. */
  lemma TracerRegionSlots(w: nat, t0: Coords, t1: Coords, tag: VertexId)
    requires |t0| == w && |t1| == w
    ensures var L := RegionLayout(w, 0, 1); var r := Region(t0, t1, [], [tag]);
      && |r| == L.Stride() == 2 * w + 1
      && (forall k :: 0 <= k < w ==> L.TracerSlot(0, k) == k && r[k] == Value(t0[k]))
      && (forall k :: 0 <= k < w ==> L.TracerSlot(1, k) == w + k && r[w + k] == Value(t1[k]))
      && L.TagSlot(0) == 2 * w && r[2 * w] == Tag(tag)
  {
    var L := RegionLayout(w, 0, 1);
    RegionSlots(L, t0, t1, [], [tag]);
  }

  /**
   * The region of s has SIMPLEX_BUFFER_SIZE slots: the tracer of half n at
   * n*W .. n*W+W-1, and segment vertex 0 as the tag that follows them.
   */
  lemma FitRegionLayout(g: Geometry, f: Fitter, sh: Shape, s: Simplex, seg: Segment, raw: Coords, mid: Coords)
    requires sh.Valid() && WellFormed(sh, s) && |raw| == sh.w && |mid| == sh.w
    ensures var L := WithTracerLayout(sh); var r := FitRegion(g, f, sh, s, seg, raw, mid);
      var t0 := HalfTracer(g, f, sh, s, seg, raw, mid, 0); var t1 := HalfTracer(g, f, sh, s, seg, raw, mid, 1);
      && |r| == L.Stride() == 2 * sh.w + 1
      && (forall k :: 0 <= k < sh.w ==> L.TracerSlot(0, k) == k && r[k] == Value(t0[k]))
      && (forall k :: 0 <= k < sh.w ==> L.TracerSlot(1, k) == sh.w + k && r[sh.w + k] == Value(t1[k]))
      && L.TagSlot(0) == 2 * sh.w && r[2 * sh.w] == Tag(seg.v0.id)
  {
    TracerRegionSlots(sh.w, HalfTracer(g, f, sh, s, seg, raw, mid, 0), HalfTracer(g, f, sh, s, seg, raw, mid, 1), seg.v0.id);
  }

  /** F applied to every element of xs. */
  function Image<T>(F: T -> Coords, xs: seq<T>): (r: seq<Coords>)
    ensures |r| == |xs| && forall i :: 0 <= i < |xs| ==> r[i] == F(xs[i])
  {
    seq(|xs|, i requires 0 <= i < |xs| => F(xs[i]))
  }

  /** The images of two orderings of the same elements are orderings of the same vectors. */
  lemma {:induction false} ImagePermutation<T>(F: T -> Coords, a: seq<T>, b: seq<T>)
    requires multiset(a) == multiset(b)
    ensures multiset(Image(F, a)) == multiset(Image(F, b))
  {
    if a == [] {
      assert |b| == |multiset(b)| == 0;
    } else {
      var n := |a| - 1;
      assert a[n] in multiset(b);
      var m :| 0 <= m < |b| && b[m] == a[n];
      RemoveLast(a, b, m);
      ImagePermutation(F, a[..n], b[..m] + b[m + 1..]);
      assert Image(F, a) == Image(F, a[..n]) + [F(a[n])];
      assert Image(F, b) == Image(F, b[..m]) + [F(b[m])] + Image(F, b[m + 1..]);
      assert Image(F, b[..m] + b[m + 1..]) == Image(F, b[..m]) + Image(F, b[m + 1..]);
    }
  }

  /** The projection of a simplex, as a function of the simplex alone (zero for a malformed one). */
  ghost function ProjectionOf(g: Geometry, f: Fitter, sh: Shape, mid: Coords): Simplex -> Coords
  {
    s => if sh.Valid() && WellFormed(sh, s) && |mid| == sh.w then SplitProjection(g, f, sh, s, mid) else Zero(sh.w)
  }

  lemma ProjectionsAreImage(g: Geometry, f: Fitter, sh: Shape, simplices: seq<Simplex>, mid: Coords)
    requires sh.Valid() && |mid| == sh.w && forall i :: 0 <= i < |simplices| ==> WellFormed(sh, simplices[i])
    ensures SplitProjections(g, f, sh, simplices, mid) == Image(ProjectionOf(g, f, sh, mid), simplices)
  {
  }

  /** Every reordering of acceptable inputs is acceptable. */
  lemma FitInputsPermute(sh: Shape, seg: Segment, a: seq<Simplex>, b: seq<Simplex>)
    requires FitInputs(sh, seg, a) && multiset(a) == multiset(b)
    ensures FitInputs(sh, seg, b) && |a| == |b|
  {
    forall i | 0 <= i < |b| ensures WellFormed(sh, b[i]) && Incident(sh, b[i], seg) {
      assert b[i] in multiset(a);
    }
    assert |a| == |multiset(a)| == |b|;
  }

  /** The projections of a reordering of the simplices are a reordering of the projections. */
  lemma ProjectionsPermute(g: Geometry, f: Fitter, sh: Shape, a: seq<Simplex>, b: seq<Simplex>, mid: Coords)
    requires sh.Valid() && |mid| == sh.w && multiset(a) == multiset(b)
    requires forall i :: 0 <= i < |a| ==> WellFormed(sh, a[i])
    requires forall i :: 0 <= i < |b| ==> WellFormed(sh, b[i])
    ensures multiset(SplitProjections(g, f, sh, a, mid)) == multiset(SplitProjections(g, f, sh, b, mid))
  {
    ProjectionsAreImage(g, f, sh, a, mid);
    ProjectionsAreImage(g, f, sh, b, mid);
    ImagePermutation(ProjectionOf(g, f, sh, mid), a, b);
  }

  /**
   * The new vertex does not depend on the order in which the incident
   * simplices are visited.
   */
  lemma FitVertexOrderIndependent(g: Geometry, f: Fitter, sh: Shape, seg: Segment, a: seq<Simplex>, b: seq<Simplex>)
    requires FitInputs(sh, seg, a) && multiset(a) == multiset(b)
    ensures FitInputs(sh, seg, b)
    ensures RawVertex(g, f, sh, seg, a) == RawVertex(g, f, sh, seg, b)
    ensures FitVertex(g, f, sh, seg, a) == FitVertex(g, f, sh, seg, b)
  {
    FitInputsPermute(sh, seg, a, b);
    var mid := SplitMidPoint(g, sh, seg);
    ProjectionsPermute(g, f, sh, a, b, mid);
    VectorSumPermutation(SplitProjections(g, f, sh, a, mid), SplitProjections(g, f, sh, b, mid), sh.w);
  }

  /** The fitted surface passes through every point it is asked to project. */
  ghost predicate ReproducesPoints(f: Fitter)
  {
    forall points, base, x, k: nat :: k < |x| ==> f.project(points, base, x, k) == x[k]
  }

  /** Such a surface gives back the midpoint as the projection of s, once the origin is added back. */
  lemma ExactProjection(f: Fitter, sh: Shape, s: Simplex, mid: Coords)
    requires sh.Valid() && WellFormed(sh, s) && |mid| == sh.w && ReproducesPoints(f)
    ensures SplitProjection(NonPeriodic, f, sh, s, mid) == mid
  {
    var o := Origin(NonPeriodic, sh, s, mid);
    var rel := Relative(NonPeriodic, o, mid);
    var pr := Project(f, FirstPoints(NonPeriodic, sh, s, mid), MeshBase(f, sh, s), rel);
    assert pr == rel;
    RelativeRoundTrip(o, mid);
  }

  /** The mean of vectors that are all equal to c is c. */
  lemma MeanOfEqual(ps: seq<Coords>, c: Coords)
    requires |ps| >= 1 && forall i :: 0 <= i < |ps| ==> ps[i] == c
    ensures AllOfDim(ps, |c|) && Scale(VectorSum(ps, |c|), 1.0 / (|ps| as real)) == c
  {
    var m := Scale(VectorSum(ps, |c|), 1.0 / (|ps| as real));
    forall k | 0 <= k < |c| ensures m[k] == c[k] {
      ColumnSumConstant(ps, c, k);
      CancelFactor(|ps| as real, c[k]);
    }
  }

  /**
   * Without periodic boundaries, and with surfaces that pass through the
   * midpoint, every simplex projects the midpoint onto itself, so the new
   * vertex is the midpoint of the split segment.
   */
  lemma FitVertexOfExactSurface(f: Fitter, sh: Shape, seg: Segment, simplices: seq<Simplex>)
    requires FitInputs(sh, seg, simplices) && ReproducesPoints(f)
    ensures FitVertex(NonPeriodic, f, sh, seg, simplices) == SplitMidPoint(NonPeriodic, sh, seg)
  {
    var mid := SplitMidPoint(NonPeriodic, sh, seg);
    var ps := SplitProjections(NonPeriodic, f, sh, simplices, mid);
    forall i | 0 <= i < |ps| ensures ps[i] == mid {
      ExactProjection(f, sh, simplices[i], mid);
    }
    MeanOfEqual(ps, mid);
    var raw := RawVertex(NonPeriodic, f, sh, seg, simplices);
    NonPeriodicBoundary(raw);
  }

  // ---------------------------------------------------------------------------
  // Refine

  /** How refine ends: with the new vertex, or with exit(-1) at an under-determined simplex. */
  datatype Outcome = Refined | UnderDetermined(simplex: nat)

  /** The outcome names the first simplex whose first fit has too few points, and only such a one. */
  ghost predicate Reports(g: Geometry, f: Fitter, sh: Shape, simplices: seq<Simplex>, mid: Coords, outcome: Outcome)
    requires sh.Valid() && |mid| == sh.w && forall i :: 0 <= i < |simplices| ==> WellFormed(sh, simplices[i])
  {
    match outcome
    case Refined =>
      forall i :: 0 <= i < |simplices| ==> !TooFewPoints(f, sh, simplices[i])
    case UnderDetermined(i) =>
      && i < |simplices| && TooFewPoints(f, sh, simplices[i])
      && forall i' :: 0 <= i' < i ==> !TooFewPoints(f, sh, simplices[i'])
  }

  /** The inputs decide the outcome: at most one outcome reports them. */
  lemma ReportsUnique(g: Geometry, f: Fitter, sh: Shape, simplices: seq<Simplex>, mid: Coords, o1: Outcome, o2: Outcome)
    requires sh.Valid() && |mid| == sh.w && forall i :: 0 <= i < |simplices| ==> WellFormed(sh, simplices[i])
    requires Reports(g, f, sh, simplices, mid, o1) && Reports(g, f, sh, simplices, mid, o2)
    ensures o1 == o2
  {
  }

  /** result[j] += p[j] + o[j], axis by axis. */
  method AddInPlace(acc: array<real>, p: Coords, o: Coords)
    requires acc.Length == |p| == |o|
    modifies acc
    ensures acc[..] == Plus(old(acc[..]), Plus(p, o))
  {
    ghost var before := acc[..];
    for k := 0 to acc.Length
      invariant forall k' :: 0 <= k' < k ==> acc[k'] == before[k'] + (p[k'] + o[k'])
      invariant forall k' :: k <= k' < acc.Length ==> acc[k'] == before[k']
    {
      acc[k] := acc[k] + (p[k] + o[k]);
    }
  }

  /** result[i] *= fac, axis by axis. */
  method ScaleInPlace(acc: array<real>, fac: real)
    modifies acc
    ensures acc[..] == Scale(old(acc[..]), fac)
  {
    ghost var before := acc[..];
    for k := 0 to acc.Length
      invariant forall k' :: 0 <= k' < k ==> acc[k'] == before[k'] * fac
      invariant forall k' :: k <= k' < acc.Length ==> acc[k'] == before[k']
    {
      acc[k] := acc[k] * fac;
    }
    forall k | 0 <= k < acc.Length ensures acc[..][k] == Scale(before, fac)[k] {
      assert acc[..][k] == acc[k];
    }
    assert acc[..] == Scale(before, fac);
  }

  /** checkBoundary(result): the point is wrapped in place. */
  method WrapInPlace(g: Geometry, acc: array<real>)
    modifies acc
    ensures acc[..] == CheckBoundary(g, old(acc[..]))
  {
    var wrapped := CheckBoundary(g, acc[..]);
    for k := 0 to acc.Length
      invariant forall k' :: 0 <= k' < k ==> acc[k'] == wrapped[k']
    {
      acc[k] := wrapped[k];
    }
  }

  /** The loop computing origin[i] for every incident simplex. */
  method ComputeOrigins(g: Geometry, sh: Shape, simplices: seq<Simplex>, mid: Coords) returns (origins: seq<Coords>)
    requires sh.Valid() && |mid| == sh.w && forall i :: 0 <= i < |simplices| ==> WellFormed(sh, simplices[i])
    ensures |origins| == |simplices|
    ensures forall i :: 0 <= i < |simplices| ==> origins[i] == Origin(g, sh, simplices[i], mid)
  {
    origins := [];
    for i := 0 to |simplices|
      invariant |origins| == i
      invariant forall i' :: 0 <= i' < i ==> origins[i'] == Origin(g, sh, simplices[i'], mid)
    {
      var o := ConsistentMean(g, VertexCoords(simplices[i]), mid);
      origins := origins + [o];
    }
  }

  /**
   * projs holds the projection of every simplex, projs[i] for simplices[i]; the
   * quantifier is only instantiated where the projection of a simplex is named.
   */
  ghost predicate HoldsProjections(g: Geometry, f: Fitter, sh: Shape, simplices: seq<Simplex>, mid: Coords, projs: seq<Coords>)
    requires sh.Valid() && |mid| == sh.w && forall i :: 0 <= i < |simplices| ==> WellFormed(sh, simplices[i])
  {
    && |projs| == |simplices| && AllOfDim(projs, sh.w)
    && forall i {:trigger SplitProjection(g, f, sh, simplices[i], mid)} :: 0 <= i < |simplices| ==>
         projs[i] == SplitProjection(g, f, sh, simplices[i], mid)
  }

  lemma ProjectionsHeld(g: Geometry, f: Fitter, sh: Shape, simplices: seq<Simplex>, mid: Coords)
    requires sh.Valid() && |mid| == sh.w && forall i :: 0 <= i < |simplices| ==> WellFormed(sh, simplices[i])
    ensures HoldsProjections(g, f, sh, simplices, mid, SplitProjections(g, f, sh, simplices, mid))
  {
  }

  /**
   * One iteration of the first loop, for simplex i: the points are gathered
   * and, unless they are too few, the projection of the midpoint onto their
   * fit, moved back by the origin, is added to `result`.
   */
  method FitStep(g: Geometry, f: Fitter, sh: Shape, seg: Segment, simplices: seq<Simplex>, mid: Coords, origins: seq<Coords>,
                 result: array<real>, ghost projs: seq<Coords>, i: nat) returns (tooFew: bool)
    requires FitInputs(sh, seg, simplices) && |mid| == sh.w && result.Length == sh.w && i < |simplices| && |origins| == |simplices|
    requires origins[i] == Origin(g, sh, simplices[i], mid)
    requires HoldsProjections(g, f, sh, simplices, mid, projs)
    requires result[..] == VectorSum(projs[..i], sh.w)
    modifies result
    ensures tooFew == TooFewPoints(f, sh, simplices[i])
    ensures !tooFew ==> result[..] == VectorSum(projs[..i + 1], sh.w)
  {
    var s := simplices[i];
    var points := GatherPoints(g, sh, s, origins[i], []);
    FirstPointCount(g, f, sh, s, mid);
    tooFew := |points| < f.nCoefs;
    if !tooFew {
      var base := MeshBase(f, sh, s);
      var pSplit := Project(f, points, base, Relative(g, origins[i], mid));
      AddInPlace(result, pSplit, origins[i]);
      assert projs[i] == SplitProjection(g, f, sh, s, mid);
      VectorSumStep(projs, i, sh.w);
    }
  }

  /**
   * The first pass: every simplex in turn is fitted, and `result` finally
   * holds the mean of the projections, unless some simplex has too few points.
   */
  method FitNewVertex(g: Geometry, f: Fitter, sh: Shape, seg: Segment, simplices: seq<Simplex>, mid: Coords,
                      origins: seq<Coords>, result: array<real>, ghost projs: seq<Coords>) returns (outcome: Outcome)
    requires FitInputs(sh, seg, simplices) && |mid| == sh.w && result.Length == sh.w
    requires |origins| == |simplices|
    requires forall i :: 0 <= i < |simplices| ==> origins[i] == Origin(g, sh, simplices[i], mid)
    requires HoldsProjections(g, f, sh, simplices, mid, projs)
    modifies result
    ensures Reports(g, f, sh, simplices, mid, outcome)
    ensures outcome.Refined? ==> result[..] == Scale(VectorSum(projs, sh.w), 1.0 / (|simplices| as real))
  {
    for k := 0 to sh.w
      invariant forall k' :: 0 <= k' < k ==> result[k'] == 0.0
    {
      result[k] := 0.0;
    }
    assert projs[..0] == [];
    VectorSumEmpty(sh.w);
    for i := 0 to |simplices|
      invariant forall i' :: 0 <= i' < i ==> !TooFewPoints(f, sh, simplices[i'])
      invariant result[..] == VectorSum(projs[..i], sh.w)
    {
      var tooFew := FitStep(g, f, sh, seg, simplices, mid, origins, result, projs, i);
      if tooFew {
        return UnderDetermined(i);
      }
    }
    assert projs[..|simplices|] == projs;
    ScaleInPlace(result, 1.0 / (|simplices| as real));
    outcome := Refined;
  }

  /** Tracer n of the half p of s: the body of the loop over both halves. */
  method ComputeHalfTracer(g: Geometry, f: Fitter, sh: Shape, s: Simplex, seg: Segment, raw: Coords, mid: Coords,
                           p: seq<Coords>, n: nat) returns (t: Coords)
    requires sh.Valid() && WellFormed(sh, s) && |raw| == sh.w && |mid| == sh.w && n < 2
    requires p == SubSimplex(s, seg, raw, n)
    ensures t == HalfTracer(g, f, sh, s, seg, raw, mid, n)
  {
    HalfDims(sh, s, seg, raw, n);
    var base := BaseVectors(g, p, sh.Dim(), sh.w);
    var org := ConsistentMean(g, p, mid);
    var points := GatherPoints(g, sh, s, org, [Relative(g, org, raw)]);
    t := Project(f, points, base, Zero(sh.w));
    t := Plus(t, org);
  }

  /** The body of the second loop for simplex s: a fit for each half, then the tag. */
  method ComputeFitRegion(g: Geometry, f: Fitter, sh: Shape, s: Simplex, seg: Segment, raw: Coords, mid: Coords)
    returns (region: seq<Slot>)
    requires sh.Valid() && WellFormed(sh, s) && |raw| == sh.w && |mid| == sh.w
    ensures region == FitRegion(g, f, sh, s, seg, raw, mid)
  {
    var p0, p1 := SplitVertices(s, seg, raw);
    var t0 := ComputeHalfTracer(g, f, sh, s, seg, raw, mid, p0, 0);
    var t1 := ComputeHalfTracer(g, f, sh, s, seg, raw, mid, p1, 1);
    region := Region(t0, t1, [], [seg.v0.id]);
  }

  /**
   * rs holds the region of every simplex, rs[i] for simplices[i]; the
   * quantifier is only instantiated where the region of a simplex is named.
   */
  ghost predicate HoldsFitRegions(g: Geometry, f: Fitter, sh: Shape, seg: Segment, simplices: seq<Simplex>, raw: Coords,
                                  mid: Coords, rs: seq<seq<Slot>>)
    requires RefineInputs(sh, seg, simplices) && |raw| == sh.w && |mid| == sh.w
  {
    && |rs| == |simplices|
    && forall i {:trigger FitRegion(g, f, sh, simplices[i], seg, raw, mid)} :: 0 <= i < |simplices| ==>
         rs[i] == FitRegion(g, f, sh, simplices[i], seg, raw, mid)
  }

  /** The regions fill SIMPLEX_BUFFER_SIZE slots each. */
  lemma FitRegionsHeld(g: Geometry, f: Fitter, sh: Shape, seg: Segment, simplices: seq<Simplex>, raw: Coords, mid: Coords)
    requires RefineInputs(sh, seg, simplices) && |raw| == sh.w && |mid| == sh.w
    ensures HoldsFitRegions(g, f, sh, seg, simplices, raw, mid, FitRegions(g, f, sh, seg, simplices, raw, mid))
    ensures |Concat(FitRegions(g, f, sh, seg, simplices, raw, mid))| == Arith.Blocks(|simplices|, WithTracerLayout(sh).Stride())
  {
    var rs := FitRegions(g, f, sh, seg, simplices, raw, mid);
    forall i | 0 <= i < |rs| ensures |rs[i]| == WithTracerLayout(sh).Stride() {
      FitRegionLayout(g, f, sh, simplices[i], seg, raw, mid);
    }
    ConcatLength(rs, WithTracerLayout(sh).Stride());
  }

  /** Region i, computed for simplices[i]. */
  method ComputeFitRegionAt(g: Geometry, f: Fitter, sh: Shape, seg: Segment, simplices: seq<Simplex>, raw: Coords, mid: Coords,
                            ghost rs: seq<seq<Slot>>, i: nat) returns (region: seq<Slot>)
    requires RefineInputs(sh, seg, simplices) && |raw| == sh.w && |mid| == sh.w
    requires HoldsFitRegions(g, f, sh, seg, simplices, raw, mid, rs) && i < |simplices|
    ensures region == rs[i]
  {
    region := ComputeFitRegion(g, f, sh, simplices[i], seg, raw, mid);
  }

  /** The second loop: region i, at SIMPLEX_BUFFER_SIZE*i, receives the region of simplices[i]. */
  method WriteFitRegions(g: Geometry, f: Fitter, sh: Shape, seg: Segment, simplices: seq<Simplex>, raw: Coords, mid: Coords,
                         buffer: array<Slot>, ghost rs: seq<seq<Slot>>)
    requires RefineInputs(sh, seg, simplices) && |raw| == sh.w && |mid| == sh.w
    requires HoldsFitRegions(g, f, sh, seg, simplices, raw, mid, rs) && buffer.Length == |Concat(rs)|
    modifies buffer
    ensures buffer[..] == Concat(rs)
  {
    assert rs[..0] == [];
    var at: nat := 0;
    for i := 0 to |simplices|
      invariant at <= buffer.Length && buffer[..at] == Concat(rs[..i])
    {
      var region := ComputeFitRegionAt(g, f, sh, seg, simplices, raw, mid, rs, i);
      ConcatPrefix(rs, i);
      AppendRegion(buffer, at, region, rs, i);
      at := at + |region|;
    }
    assert rs[..|simplices|] == rs;
    assert buffer[..] == buffer[..at];
  }

  /**
   * QuadraticRegressionWithTracer::refine: either the first under-determined
   * simplex is reported and the buffer is left alone, or `result` holds the
   * wrapped new vertex and region i of the buffer, at SIMPLEX_BUFFER_SIZE*i,
   * the tracers of both halves of simplices[i] and segment vertex 0.
   */
  method RefineFit(g: Geometry, f: Fitter, sh: Shape, seg: Segment, simplices: seq<Simplex>,
                   result: array<real>, buffer: array<Slot>) returns (outcome: Outcome)
    requires FitInputs(sh, seg, simplices) && result.Length == sh.w
    requires buffer.Length == Arith.Blocks(|simplices|, WithTracerLayout(sh).Stride())
    modifies result, buffer
    ensures Reports(g, f, sh, simplices, SplitMidPoint(g, sh, seg), outcome)
    ensures outcome.UnderDetermined? ==> buffer[..] == old(buffer[..])
    ensures outcome.Refined? ==> result[..] == FitVertex(g, f, sh, seg, simplices)
    ensures outcome.Refined? ==> buffer[..] == Concat(FitRegions(g, f, sh, seg, simplices,
                                   RawVertex(g, f, sh, seg, simplices), SplitMidPoint(g, sh, seg)))
  {
    var mid := SplitMidPoint(g, sh, seg);
    var origins := ComputeOrigins(g, sh, simplices, mid);
    ghost var projs := SplitProjections(g, f, sh, simplices, mid);
    ProjectionsHeld(g, f, sh, simplices, mid);
    outcome := FitNewVertex(g, f, sh, seg, simplices, mid, origins, result, projs);
    if outcome.UnderDetermined? {
      return;
    }
    var raw := result[..];
    assert raw == RawVertex(g, f, sh, seg, simplices);
    ghost var rs := FitRegions(g, f, sh, seg, simplices, raw, mid);
    FitRegionsHeld(g, f, sh, seg, simplices, raw, mid);
    WriteFitRegions(g, f, sh, seg, simplices, raw, mid, buffer, rs);
    WrapInPlace(g, result);
  }
}
