/**
 * The three policies that need no refinement buffer (SIMPLEX_BUFFER_SIZE = 0):
 * Dummy, MidPoint and TracersBarycenter.
 */
module BasicPolicies {
  import opened Geometry
  import opened Mesh
  import opened Layout

  /** Dummy::refine does nothing: neither the new vertex nor the buffer is written. */
  method DummyRefine(result: array<real>, buffer: array<Slot>)
    ensures unchanged(result) && unchanged(buffer)
  {
  }

  /** MidPoint::refine: the new vertex is the periodic-aware midpoint of the segment. */
  method MidPointRefine(g: Geometry, sh: Shape, seg: Segment, result: array<real>)
    requires result.Length == sh.w && |seg.v0.coords| == sh.w
    modifies result
    ensures result[..] == MidPointCoords(g, seg.v0.coords, seg.v1.coords)
  {
    var m := MidPointCoords(g, seg.v0.coords, seg.v1.coords);
    for k := 0 to sh.w
      invariant forall k' :: 0 <= k' < k ==> result[k'] == m[k']
    {
      result[k] := m[k];
    }
  }

  function SimplexTracers(simplices: seq<Simplex>): (ts: seq<Coords>)
    ensures |ts| == |simplices| && forall i :: 0 <= i < |ts| ==> ts[i] == simplices[i].tracer
  {
    seq(|simplices|, i requires 0 <= i < |simplices| => simplices[i].tracer)
  }

  /**
   * The new vertex TracersBarycenter places: the first simplex tracer plus every
   * other one moved next to it, times 1/nSimplices, wrapped into the domain.
   */
  function TracersBarycenterOf(g: Geometry, ts: seq<Coords>, w: nat): (r: Coords)
    requires |ts| >= 1 && AllOfDim(ts, w)
    ensures |r| == w
  {
    CheckBoundary(g, UnwrappedBarycenter(g, ts, w))
  }

  /** The barycenter before wrapping: the first tracer plus the others moved next to it, times 1/nSimplices. */
  function UnwrappedBarycenter(g: Geometry, ts: seq<Coords>, w: nat): (r: Coords)
    requires |ts| >= 1 && AllOfDim(ts, w)
    ensures |r| == w
  {
    seq(w, j requires 0 <= j < w => (ts[0][j] + ConsistentSum(g, ts[1..], ts[0], j)) * (1.0 / (|ts| as real)))
  }

  /** TracersBarycenter::refine */
  method TracersBarycenterRefine(g: Geometry, sh: Shape, seg: Segment, simplices: seq<Simplex>, result: array<real>)
    requires RefineInputs(sh, seg, simplices) && result.Length == sh.w
    modifies result
    ensures result[..] == TracersBarycenterOf(g, SimplexTracers(simplices), sh.w)
  {
    var ts := SimplexTracers(simplices);
    assert AllOfDim(ts, sh.w) by {
      forall i | 0 <= i < |ts| ensures |ts[i]| == sh.w {
        assert WellFormed(sh, simplices[i]);
      }
    }
    var wrapped := TracersMean(g, ts, sh.w);
    for k := 0 to sh.w
      invariant forall k' :: 0 <= k' < k ==> result[k'] == wrapped[k']
    {
      result[k] := wrapped[k];
    }
  }

  /**
   * The accumulation loop of TracersBarycenter::refine: start from the first
   * tracer, add every other one moved next to it, scale by 1/n, wrap.
   */
  method TracersMean(g: Geometry, ts: seq<Coords>, w: nat) returns (wrapped: Coords)
    requires |ts| >= 1 && AllOfDim(ts, w)
    ensures wrapped == TracersBarycenterOf(g, ts, w)
  {
    var factor := 1.0 / (|ts| as real);
    var refCoords := ts[0];
    var others := ts[1..];
    var coords := refCoords;
    for i := 0 to |others|
      invariant |coords| == w
      invariant forall k :: 0 <= k < w ==> coords[k] == refCoords[k] + ConsistentSum(g, others[..i], refCoords, k)
    {
      ConsistentSumStep(g, others, i, refCoords);
      coords := AddMoved(g, coords, others[i], refCoords);
    }
    assert others[..|others|] == others;
    coords := ScaleBy(coords, factor);
    ghost var unwrapped := UnwrappedBarycenter(g, ts, w);
    forall j | 0 <= j < w ensures coords[j] == unwrapped[j] {
      assert coords[j] == (refCoords[j] + ConsistentSum(g, others, refCoords, j)) * factor;
    }
    assert coords == unwrapped;
    wrapped := CheckBoundary(g, coords);
  }

  /** Without periodic boundaries TracersBarycenter is the arithmetic mean of the simplex tracers. */
  lemma TracersBarycenterIsMean(ts: seq<Coords>, w: nat)
    requires |ts| >= 1 && AllOfDim(ts, w)
    ensures TracersBarycenterOf(NonPeriodic, ts, w) == Scale(VectorSum(ts, w), 1.0 / (|ts| as real))
  {
    var lhs := TracersBarycenterOf(NonPeriodic, ts, w);
    var rhs := Scale(VectorSum(ts, w), 1.0 / (|ts| as real));
    forall j | 0 <= j < w ensures lhs[j] == rhs[j] {
      NonPeriodicSum(ts[1..], ts[0], j);
      assert ts == [ts[0]] + ts[1..];
      ColumnSumAppend([ts[0]], ts[1..], j);
      assert [ts[0]][..0] == [];
    }
    NonPeriodicBoundary(UnwrappedBarycenter(NonPeriodic, ts, w));
    assert lhs == rhs;
  }

  /** Without periodic boundaries the new vertex does not depend on the order of the simplices. */
  lemma TracersBarycenterOrderIndependent(ts: seq<Coords>, us: seq<Coords>, w: nat)
    requires |ts| >= 1 && AllOfDim(ts, w) && multiset(ts) == multiset(us)
    ensures |us| >= 1 && AllOfDim(us, w)
    ensures TracersBarycenterOf(NonPeriodic, ts, w) == TracersBarycenterOf(NonPeriodic, us, w)
  {
    assert |us| == |multiset(us)| == |multiset(ts)| == |ts|;
    forall i | 0 <= i < |us| ensures |us[i]| == w {
      assert us[i] in multiset(ts);
    }
    TracersBarycenterIsMean(ts, w);
    TracersBarycenterIsMean(us, w);
    forall j | 0 <= j < w ensures VectorSum(ts, w)[j] == VectorSum(us, w)[j] {
      ColumnSumPermutation(ts, us, j);
    }
    assert VectorSum(ts, w) == VectorSum(us, w);
  }

  /** When every simplex carries the same tracer t, the new vertex is t (without periodic boundaries). */
  lemma TracersBarycenterOfEqualTracers(ts: seq<Coords>, t: Coords)
    requires |ts| >= 1 && forall i :: 0 <= i < |ts| ==> ts[i] == t
    ensures TracersBarycenterOf(NonPeriodic, ts, |t|) == t
  {
    var w := |t|;
    var n := |ts| as real;
    assert AllOfDim(ts, w);
    TracersBarycenterIsMean(ts, w);
    var mean := Scale(VectorSum(ts, w), 1.0 / n);
    forall j | 0 <= j < w ensures mean[j] == t[j] {
      ColumnSumConstant(ts, t, j);
      CancelFactor(n, t[j]);
    }
    assert mean == t;
  }
}
