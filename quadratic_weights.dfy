/**
 * The barycentric coordinates QuadraticRegressionWithTracers evaluates its
 * quadratic simplex at: one weight per vertex of the simplex, for the two new
 * simplex tracers and for the new segment tracers.
 */
module QuadraticWeights {

  /** The sum of a weight vector. */
  function Sum(xs: seq<real>): real
  {
    if xs == [] then 0.0 else Sum(xs[..|xs| - 1]) + xs[|xs| - 1]
  }

  /** nvert equal weights c. */
  function Uniform(nvert: nat, c: real): (r: seq<real>)
    ensures |r| == nvert && forall j :: 0 <= j < nvert ==> r[j] == c
  {
    if nvert == 0 then [] else Uniform(nvert - 1, c) + [c]
  }

  /** Every weight halved. */
  function Halved(xs: seq<real>): (ys: seq<real>)
    ensures |ys| == |xs| && forall k :: 0 <= k < |xs| ==> ys[k] == xs[k] / 2.0
  {
    if xs == [] then [] else Halved(xs[..|xs| - 1]) + [xs[|xs| - 1] / 2.0]
  }

  /**
   * The coordinates of new simplex tracer n when the split segment joins local
   * vertices a and b: 1.5/NVERT on the endpoint half n keeps (a for n = 0, b
   * for n = 1), 0.5/NVERT on the other endpoint and 1/NVERT everywhere else.
   */
  function TracerWeights(nvert: nat, a: nat, b: nat, n: nat): (bc: seq<real>)
    requires a < nvert && b < nvert && a != b && n < 2
    ensures |bc| == nvert
  {
    var near := 1.5 / (nvert as real);
    var far := 0.5 / (nvert as real);
    Uniform(nvert, 1.0 / (nvert as real))[a := if n == 0 then near else far][b := if n == 0 then far else near]
  }

  /** The coordinates of the midpoint of the split segment (tBC). */
  function SplitMidWeights(nvert: nat, a: nat, b: nat): (bc: seq<real>)
    requires a < nvert && b < nvert
    ensures |bc| == nvert
  {
    Uniform(nvert, 0.0)[a := 0.5][b := 0.5]
  }

  /** The coordinates of new segment tracer j: half way between tBC and vertex j, (tBC + e_j) / 2. */
  function SegWeights(nvert: nat, a: nat, b: nat, j: nat): (bc: seq<real>)
    requires a < nvert && b < nvert && j < nvert
    ensures |bc| == nvert
  {
    var mid := SplitMidWeights(nvert, a, b);
    Halved(mid[j := mid[j] + 1.0])
  }

  /**
   * Filling bC for simplex tracer n as refine does: the two endpoint weights
   * first, then 1/NVERT on every other vertex.
   */
  method ComputeTracerWeights(nvert: nat, a: nat, b: nat, n: nat) returns (bc: seq<real>)
    requires a < nvert && b < nvert && a != b && n < 2
    ensures bc == TracerWeights(nvert, a, b, n)
  {
    var bC := new real[nvert];
    if n == 0 {
      bC[a] := 1.5 / (nvert as real);
      bC[b] := 0.5 / (nvert as real);
    } else {
      bC[b] := 1.5 / (nvert as real);
      bC[a] := 0.5 / (nvert as real);
    }
    for j := 0 to nvert
      invariant bC[a] == TracerWeights(nvert, a, b, n)[a] && bC[b] == TracerWeights(nvert, a, b, n)[b]
      invariant forall j' :: 0 <= j' < j ==> bC[j'] == TracerWeights(nvert, a, b, n)[j']
    {
      if j != a && j != b {
        bC[j] := 1.0 / (nvert as real);
      }
    }
    bc := bC[..];
  }

  /**
   * Filling bC for segment tracer j as refine does: copy tBC, add 1 on vertex
   * j, then halve every coordinate.
   */
  method ComputeSegWeights(nvert: nat, a: nat, b: nat, j: nat) returns (bc: seq<real>)
    requires a < nvert && b < nvert && j < nvert
    ensures bc == SegWeights(nvert, a, b, j)
  {
    var tBC := new real[nvert](_ => 0.0);
    tBC[a] := 0.5;
    tBC[b] := 0.5;
    assert tBC[..] == SplitMidWeights(nvert, a, b);
    var bC := new real[nvert];
    for k := 0 to nvert
      invariant tBC[..] == SplitMidWeights(nvert, a, b)
      invariant forall k' :: 0 <= k' < k ==> bC[k'] == tBC[k']
    {
      bC[k] := tBC[k];
    }
    bC[j] := bC[j] + 1.0;
    ghost var shifted := bC[..];
    for k := 0 to nvert
      invariant forall k' :: 0 <= k' < k ==> bC[k'] == shifted[k'] / 2.0
      invariant forall k' :: k <= k' < nvert ==> bC[k'] == shifted[k']
    {
      bC[k] := bC[k] / 2.0;
    }
    assert shifted == SplitMidWeights(nvert, a, b)[j := SplitMidWeights(nvert, a, b)[j] + 1.0];
    forall k | 0 <= k < nvert ensures bC[k] == SegWeights(nvert, a, b, j)[k] {
      assert bC[k] == shifted[k] / 2.0;
    }
    bc := bC[..];
  }

  // ---------------------------------------------------------------------------
  // Every coordinate vector sums to 1

  lemma {:induction false} SumUpdate(xs: seq<real>, i: nat, v: real)
    requires i < |xs|
    ensures Sum(xs[i := v]) == Sum(xs) - xs[i] + v
  {
    var n := |xs| - 1;
    var ys := xs[i := v];
    assert ys[..n] == if i == n then xs[..n] else xs[..n][i := v];
    if i < n {
      SumUpdate(xs[..n], i, v);
    }
  }

  lemma {:induction false} SumUniform(nvert: nat, c: real)
    ensures Sum(Uniform(nvert, c)) == (nvert as real) * c
  {
    if nvert > 0 {
      assert Uniform(nvert, c)[..nvert - 1] == Uniform(nvert - 1, c);
      SumUniform(nvert - 1, c);
    }
  }

  lemma {:induction false} SumHalved(xs: seq<real>, ys: seq<real>)
    requires |ys| == |xs| && forall k :: 0 <= k < |xs| ==> ys[k] == xs[k] / 2.0
    ensures Sum(ys) == Sum(xs) / 2.0
  {
    if xs != [] {
      var n := |xs| - 1;
      SumHalved(xs[..n], ys[..n]);
    }
  }

  /** The coordinates of both new simplex tracers sum to 1. */
  lemma TracerWeightsSumToOne(nvert: nat, a: nat, b: nat, n: nat)
    requires a < nvert && b < nvert && a != b && n < 2
    ensures Sum(TracerWeights(nvert, a, b, n)) == 1.0
  {
    var N := nvert as real;
    var c := 1.0 / N;
    var near, far := 1.5 / N, 0.5 / N;
    var x := if n == 0 then near else far;
    var y := if n == 0 then far else near;
    var u := Uniform(nvert, c);
    UniformSumsToOne(nvert);
    SumUpdate(u, a, x);
    SumUpdate(u[a := x], b, y);
    assert u[a := x][b] == c;
    EndpointWeights(N);
    assert TracerWeights(nvert, a, b, n) == u[a := x][b := y];
  }

  /** nvert weights 1/nvert sum to 1. */
  lemma UniformSumsToOne(nvert: nat)
    requires nvert > 0
    ensures Sum(Uniform(nvert, 1.0 / (nvert as real))) == 1.0
  {
    SumUniform(nvert, 1.0 / (nvert as real));
    Reciprocal(nvert as real);
  }

  lemma Reciprocal(N: real)
    requires N > 0.0
    ensures N * (1.0 / N) == 1.0
  {
  }

  /** The two endpoint weights of a tracer add up to two uniform weights. */
  lemma EndpointWeights(N: real)
    requires N > 0.0
    ensures 1.5 / N + 0.5 / N == 2.0 * (1.0 / N)
  {
  }

  /** Tracer n = 1 is tracer n = 0 with the roles of the two endpoints exchanged. */
  lemma TracerWeightsSwapped(nvert: nat, a: nat, b: nat)
    requires a < nvert && b < nvert && a != b
    ensures TracerWeights(nvert, a, b, 1) == TracerWeights(nvert, b, a, 0)
  {
  }

  /** tBC sums to 1. */
  lemma SplitMidWeightsSumToOne(nvert: nat, a: nat, b: nat)
    requires a < nvert && b < nvert && a != b
    ensures Sum(SplitMidWeights(nvert, a, b)) == 1.0
  {
    var z := Uniform(nvert, 0.0);
    assert SplitMidWeights(nvert, a, b) == z[a := 0.5][b := 0.5];
    SumUniform(nvert, 0.0);
    SumUpdate(z, a, 0.5);
    SumUpdate(z[a := 0.5], b, 0.5);
  }

  /** The coordinates of every new segment tracer sum to 1. */
  lemma SegWeightsSumToOne(nvert: nat, a: nat, b: nat, j: nat)
    requires a < nvert && b < nvert && a != b && j < nvert
    ensures Sum(SegWeights(nvert, a, b, j)) == 1.0
  {
    var mid := SplitMidWeights(nvert, a, b);
    var shifted := mid[j := mid[j] + 1.0];
    SplitMidWeightsSumToOne(nvert, a, b);
    SumUpdate(mid, j, mid[j] + 1.0);
    SumHalved(shifted, SegWeights(nvert, a, b, j));
  }

  /**
   * The segment tracers towards the split endpoints sit on the split segment,
   * a quarter of the way from that endpoint: weight 3/4 on it, 1/4 on the
   * other endpoint, 0 elsewhere.
   */
  lemma SegWeightsAtEndpoint(nvert: nat, a: nat, b: nat)
    requires a < nvert && b < nvert && a != b
    ensures SegWeights(nvert, a, b, a)[a] == 0.75 && SegWeights(nvert, a, b, a)[b] == 0.25
    ensures forall k :: 0 <= k < nvert && k != a && k != b ==> SegWeights(nvert, a, b, a)[k] == 0.0
  {
  }
}
