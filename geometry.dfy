/**
 * Coordinates, vector arithmetic and the periodic-geometry collaborator used by
 * every vertex refinement policy.
 *
 * The geometry is not part of this model: each of its operations is a field of
 * `Geometry` holding an arbitrary total function. Operations that return a
 * vector are given one component at a time (axis `k` of the result), so every
 * result has the length of its input by construction and nothing else is
 * assumed about them.
 */
module Geometry {

  /** A position (or displacement) in the ambient space of dimension W. */
  type Coords = seq<real>

  /** The periodic-geometry collaborator. */
  datatype Geometry = Geometry(
    // checkCoordConsistency(x, ref, k): the periodic image of x closest to ref along axis k
    consistency: (real, real, nat) -> real,
    // axis k of checkBoundary(p): p wrapped back into the periodic domain
    boundary: (Coords, nat) -> real,
    // axis k of midPointCoords(a, b)
    midPoint: (Coords, Coords, nat) -> real,
    // correctCoordsDiff(d, k): the shortest periodic representative of a difference
    correctDiff: (real, nat) -> real,
    // component k of tangent vector d of getBaseVectors(vertex coordinates)
    baseVectors: (seq<Coords>, nat, nat) -> real
  )

  /** checkBoundary applied to a whole point. */
  function CheckBoundary(g: Geometry, p: Coords): (r: Coords)
    ensures |r| == |p|
    ensures forall k :: 0 <= k < |p| ==> r[k] == g.boundary(p, k)
  {
    seq(|p|, k requires 0 <= k < |p| => g.boundary(p, k))
  }

  /** midPointCoords(a, b). */
  function MidPointCoords(g: Geometry, a: Coords, b: Coords): (r: Coords)
    ensures |r| == |a|
    ensures forall k :: 0 <= k < |a| ==> r[k] == g.midPoint(a, b, k)
  {
    seq(|a|, k requires 0 <= k < |a| => g.midPoint(a, b, k))
  }

  /** checkCoordConsistency applied axis by axis: x moved next to ref. */
  function ConsistentWith(g: Geometry, x: Coords, ref: Coords): (r: Coords)
    requires |x| == |ref|
    ensures |r| == |ref|
    ensures forall k :: 0 <= k < |ref| ==> r[k] == g.consistency(x[k], ref[k], k)
  {
    seq(|ref|, k requires 0 <= k < |ref| => g.consistency(x[k], ref[k], k))
  }

  /** getCoordinates: x expressed relative to the origin ref, periodically corrected. */
  function Relative(g: Geometry, ref: Coords, x: Coords): (r: Coords)
    requires |x| == |ref|
    ensures |r| == |ref|
  {
    seq(|ref|, k requires 0 <= k < |ref| => g.correctDiff(x[k] - ref[k], k))
  }

  /** getBaseVectors: `ndim` tangent vectors of dimension `w` built from a simplex's vertices. */
  function BaseVectors(g: Geometry, ps: seq<Coords>, ndim: nat, w: nat): (r: seq<Coords>)
    ensures |r| == ndim
    ensures forall d :: 0 <= d < ndim ==> |r[d]| == w
  {
    seq(ndim, d requires 0 <= d < ndim => seq(w, k requires 0 <= k < w => g.baseVectors(ps, d, k)))
  }

  // ---------------------------------------------------------------------------
  // Vector arithmetic

  function Zero(w: nat): (r: Coords)
    ensures |r| == w && forall k :: 0 <= k < w ==> r[k] == 0.0
  {
    seq(w, k => 0.0)
  }

  function Plus(a: Coords, b: Coords): (r: Coords)
    requires |a| == |b|
    ensures |r| == |a| && forall k :: 0 <= k < |a| ==> r[k] == a[k] + b[k]
  {
    seq(|a|, k requires 0 <= k < |a| => a[k] + b[k])
  }

  function Scale(a: Coords, f: real): (r: Coords)
    ensures |r| == |a| && forall k :: 0 <= k < |a| ==> r[k] == a[k] * f
  {
    seq(|a|, k requires 0 <= k < |a| => a[k] * f)
  }

  /** All vectors of `vs` have dimension w. */
  ghost predicate AllOfDim(vs: seq<Coords>, w: nat)
  {
    forall i :: 0 <= i < |vs| ==> |vs[i]| == w
  }

  /** Sum of the k-th components of `vs`, accumulated from the first vector on. */
  function ColumnSum(vs: seq<Coords>, k: nat): real
    requires forall i :: 0 <= i < |vs| ==> k < |vs[i]|
  {
    if vs == [] then 0.0 else ColumnSum(vs[..|vs| - 1], k) + vs[|vs| - 1][k]
  }

  /** The vector sum of `vs`, accumulated in order starting from zero. */
  function VectorSum(vs: seq<Coords>, w: nat): (r: Coords)
    requires AllOfDim(vs, w)
    ensures |r| == w
  {
    seq(w, k requires 0 <= k < w => ColumnSum(vs, k))
  }

  /** Adding one more vector to a running sum adds it axis by axis. */
  lemma VectorSumStep(vs: seq<Coords>, i: nat, w: nat)
    requires AllOfDim(vs, w) && i < |vs|
    ensures AllOfDim(vs[..i], w) && AllOfDim(vs[..i + 1], w)
    ensures VectorSum(vs[..i + 1], w) == Plus(VectorSum(vs[..i], w), vs[i])
  {
    assert vs[..i + 1][..i] == vs[..i];
  }

  /** A sum of no vectors is zero. */
  lemma VectorSumEmpty(w: nat)
    ensures VectorSum([], w) == Zero(w)
  {
  }

  /**
   * The accumulation every policy performs on its k-th axis: the sum of the
   * points of `ps`, each first moved next to `ref` by checkCoordConsistency.
   */
  function ConsistentSum(g: Geometry, ps: seq<Coords>, ref: Coords, k: nat): real
    requires k < |ref| && forall j :: 0 <= j < |ps| ==> k < |ps[j]|
  {
    if ps == [] then 0.0
    else ConsistentSum(g, ps[..|ps| - 1], ref, k) + g.consistency(ps[|ps| - 1][k], ref[k], k)
  }

  /** One more point in the accumulation adds its moved k-th component, on every axis. */
  lemma ConsistentSumStep(g: Geometry, ps: seq<Coords>, i: nat, ref: Coords)
    requires i < |ps| && AllOfDim(ps, |ref|)
    ensures forall k :: 0 <= k < |ref| ==>
      ConsistentSum(g, ps[..i + 1], ref, k) == ConsistentSum(g, ps[..i], ref, k) + g.consistency(ps[i][k], ref[k], k)
  {
    assert ps[..i + 1][..i] == ps[..i];
  }

  /** The periodic-aware barycenter of `ps`, taken next to `ref` (sum, then division by |ps|). */
  function Barycenter(g: Geometry, ps: seq<Coords>, ref: Coords): (r: Coords)
    requires |ps| > 0 && AllOfDim(ps, |ref|)
    ensures |r| == |ref|
  {
    seq(|ref|, k requires 0 <= k < |ref| => ConsistentSum(g, ps, ref, k) / (|ps| as real))
  }

  /** The barycenter computed as the policies do: accumulate axis by axis, then divide. */
  method ConsistentMean(g: Geometry, ps: seq<Coords>, ref: Coords) returns (point: Coords)
    requires |ps| > 0 && AllOfDim(ps, |ref|)
    ensures point == Barycenter(g, ps, ref)
  {
    point := Zero(|ref|);
    for j := 0 to |ps|
      invariant |point| == |ref|
      invariant forall k :: 0 <= k < |ref| ==> point[k] == ConsistentSum(g, ps[..j], ref, k)
    {
      ConsistentSumStep(g, ps, j, ref);
      point := AddMoved(g, point, ps[j], ref);
    }
    assert ps[..|ps|] == ps;
    point := DivideBy(point, |ps| as real);
  }

  /** One accumulation step on every axis: acc[k] += checkCoordConsistency(x[k], ref[k], k). */
  method AddMoved(g: Geometry, acc: Coords, x: Coords, ref: Coords) returns (r: Coords)
    requires |acc| == |x| == |ref|
    ensures |r| == |acc|
    ensures forall k :: 0 <= k < |acc| ==> r[k] == acc[k] + g.consistency(x[k], ref[k], k)
  {
    r := acc;
    for k := 0 to |acc|
      invariant |r| == |acc|
      invariant forall k' :: 0 <= k' < k ==> r[k'] == acc[k'] + g.consistency(x[k'], ref[k'], k')
      invariant forall k' :: k <= k' < |acc| ==> r[k'] == acc[k']
    {
      r := r[k := r[k] + g.consistency(x[k], ref[k], k)];
    }
  }

  /** Every axis multiplied by f, in place. */
  method ScaleBy(acc: Coords, f: real) returns (r: Coords)
    ensures r == Scale(acc, f)
  {
    r := acc;
    for k := 0 to |acc|
      invariant |r| == |acc|
      invariant forall k' :: 0 <= k' < k ==> r[k'] == acc[k'] * f
      invariant forall k' :: k <= k' < |acc| ==> r[k'] == acc[k']
    {
      r := r[k := r[k] * f];
    }
  }

  /** Every axis divided by d, in place. */
  method DivideBy(acc: Coords, d: real) returns (r: Coords)
    requires d != 0.0
    ensures |r| == |acc| && forall k :: 0 <= k < |acc| ==> r[k] == acc[k] / d
  {
    r := acc;
    for k := 0 to |acc|
      invariant |r| == |acc|
      invariant forall k' :: 0 <= k' < k ==> r[k'] == acc[k'] / d
      invariant forall k' :: k <= k' < |acc| ==> r[k'] == acc[k']
    {
      r := r[k := r[k] / d];
    }
  }

  // ---------------------------------------------------------------------------
  // A domain without periodic boundaries: every correction is the identity.

  const NonPeriodic: Geometry := Geometry(
    (x: real, ref: real, k: nat) => x,
    (p: Coords, k: nat) => if k < |p| then p[k] else 0.0,
    (a: Coords, b: Coords, k: nat) => if k < |a| && k < |b| then (a[k] + b[k]) / 2.0 else 0.0,
    (d: real, k: nat) => d,
    (ps: seq<Coords>, d: nat, k: nat) => if d + 1 < |ps| && k < |ps[0]| && k < |ps[d + 1]| then ps[d + 1][k] - ps[0][k] else 0.0
  )

  lemma NonPeriodicBoundary(p: Coords)
    ensures CheckBoundary(NonPeriodic, p) == p
  {
  }

  /** Without periodic boundaries the consistent accumulation is the plain column sum. */
  lemma {:induction false} NonPeriodicSum(ps: seq<Coords>, ref: Coords, k: nat)
    requires k < |ref| && forall j :: 0 <= j < |ps| ==> k < |ps[j]|
    ensures ConsistentSum(NonPeriodic, ps, ref, k) == ColumnSum(ps, k)
  {
    if ps != [] {
      NonPeriodicSum(ps[..|ps| - 1], ref, k);
    }
  }

  /** Without periodic boundaries the barycenter is the arithmetic mean, whatever the reference. */
  lemma NonPeriodicBarycenter(ps: seq<Coords>, ref: Coords)
    requires |ps| > 0 && AllOfDim(ps, |ref|)
    ensures Barycenter(NonPeriodic, ps, ref) == Scale(VectorSum(ps, |ref|), 1.0 / (|ps| as real))
  {
    var w := |ref|;
    var n := |ps| as real;
    var lhs := Barycenter(NonPeriodic, ps, ref);
    var rhs := Scale(VectorSum(ps, w), 1.0 / n);
    forall k | 0 <= k < w
      ensures lhs[k] == rhs[k]
    {
      NonPeriodicSum(ps, ref, k);
      var s := ColumnSum(ps, k);
      assert lhs[k] == s / n;
      assert rhs[k] == s * (1.0 / n);
    }
    assert lhs == rhs;
  }

  /** Without periodic boundaries getCoordinates is the plain difference: adding the origin back gives x. */
  lemma RelativeRoundTrip(ref: Coords, x: Coords)
    requires |x| == |ref|
    ensures Plus(Relative(NonPeriodic, ref, x), ref) == x
  {
    var r := Plus(Relative(NonPeriodic, ref, x), ref);
    forall k | 0 <= k < |x|
      ensures r[k] == x[k]
    {
      assert Relative(NonPeriodic, ref, x)[k] == x[k] - ref[k];
    }
  }

  // ---------------------------------------------------------------------------
  // Facts about ColumnSum used by the averaging lemmas

  /** ColumnSum splits at any point. */
  lemma {:induction false} ColumnSumAppend(a: seq<Coords>, b: seq<Coords>, k: nat)
    requires forall i :: 0 <= i < |a| ==> k < |a[i]|
    requires forall i :: 0 <= i < |b| ==> k < |b[i]|
    ensures ColumnSum(a + b, k) == ColumnSum(a, k) + ColumnSum(b, k)
  {
    if b == [] {
      assert a + b == a;
    } else {
      assert (a + b)[..|a + b| - 1] == a + b[..|b| - 1];
      ColumnSumAppend(a, b[..|b| - 1], k);
    }
  }

  /** ColumnSum does not depend on the order of the vectors. */
  lemma {:induction false} ColumnSumPermutation(a: seq<Coords>, b: seq<Coords>, k: nat)
    requires multiset(a) == multiset(b)
    requires forall i :: 0 <= i < |a| ==> k < |a[i]|
    ensures forall i :: 0 <= i < |b| ==> k < |b[i]|
    ensures ColumnSum(a, k) == ColumnSum(b, k)
  {
    forall i | 0 <= i < |b| ensures k < |b[i]| {
      assert b[i] in multiset(b);
      assert b[i] in multiset(a);
    }
    if a != [] {
      var x := a[|a| - 1];
      assert x in multiset(b);
      var m :| 0 <= m < |b| && b[m] == x;
      var a' := a[..|a| - 1];
      var b' := b[..m] + b[m + 1..];
      RemoveLast(a, b, m);
      ColumnSumPermutation(a', b', k);
      ColumnSumRemove(b, m, k);
    }
  }

  /** Reordering the vectors leaves their sum unchanged. */
  lemma VectorSumPermutation(a: seq<Coords>, b: seq<Coords>, w: nat)
    requires multiset(a) == multiset(b) && AllOfDim(a, w)
    ensures AllOfDim(b, w) && VectorSum(a, w) == VectorSum(b, w)
  {
    forall i | 0 <= i < |b| ensures |b[i]| == w {
      assert b[i] in multiset(a);
    }
    forall k | 0 <= k < w ensures VectorSum(a, w)[k] == VectorSum(b, w)[k] {
      ColumnSumPermutation(a, b, k);
    }
  }

  /** Taking the last element off `a` and the equal element at m off `b` keeps the multisets equal. */
  lemma RemoveLast<T>(a: seq<T>, b: seq<T>, m: nat)
    requires multiset(a) == multiset(b) && a != [] && m < |b| && b[m] == a[|a| - 1]
    ensures multiset(a[..|a| - 1]) == multiset(b[..m] + b[m + 1..])
  {
    var x := a[|a| - 1];
    var a' := a[..|a| - 1];
    var b' := b[..m] + b[m + 1..];
    assert a == a' + [x];
    assert b == b[..m] + [x] + b[m + 1..];
    forall y ensures multiset(a')[y] == multiset(b')[y] {
      assert multiset(a)[y] == multiset(a')[y] + multiset{x}[y];
      assert multiset(b)[y] == multiset(b')[y] + multiset{x}[y];
    }
    assert multiset(a') == multiset(b');
  }

  /** Removing the vector at m from the sum subtracts its k-th component. */
  lemma ColumnSumRemove(b: seq<Coords>, m: nat, k: nat)
    requires m < |b| && forall i :: 0 <= i < |b| ==> k < |b[i]|
    ensures ColumnSum(b, k) == ColumnSum(b[..m] + b[m + 1..], k) + b[m][k]
  {
    assert b == b[..m] + [b[m]] + b[m + 1..];
    ColumnSumAppend(b[..m], [b[m]], k);
    ColumnSumAppend(b[..m] + [b[m]], b[m + 1..], k);
    ColumnSumAppend(b[..m], b[m + 1..], k);
    assert [b[m]][..0] == [];
  }

  /** n equal vectors sum to n times one of them. */
  lemma {:induction false} ColumnSumConstant(vs: seq<Coords>, c: Coords, k: nat)
    requires k < |c| && forall i :: 0 <= i < |vs| ==> vs[i] == c
    ensures ColumnSum(vs, k) == (|vs| as real) * c[k]
  {
    if vs != [] {
      ColumnSumConstant(vs[..|vs| - 1], c, k);
    }
  }

  /** Multiplying by n and then by 1/n gives the value back. */
  lemma CancelFactor(n: real, x: real)
    requires n > 0.0
    ensures n * x * (1.0 / n) == x
  {
    calc {
      n * x * (1.0 / n);
      x * (n * (1.0 / n));
      x * 1.0;
    }
  }
}
