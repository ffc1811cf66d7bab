/**
 * The contribution map QuadraticRegressionWithTracers averages its segment
 * tracer fits with: every fit is keyed by the vertex opposite to the new vertex
 * on the new segment, the first fit of a vertex opens a new entry, later ones
 * add to it, and each entry is finally divided by its number of fits.
 */
module ContributionMap {
  import opened Geometry
  import opened Mesh

  /** One fit: the vertex that identifies the new segment and the fitted coordinates. */
  datatype Contribution = Contribution(vertex: VertexId, coords: Coords)

  /**
   * refine's three containers: vertexMap from vertex to entry index,
   * contribCount[i] the fits of entry i, contribCoord[i] the sum of their
   * coordinates (W values per entry), each moved next to the new vertex.
   */
  datatype Contributions = Contributions(vertexMap: map<VertexId, nat>, contribCount: seq<nat>, contribCoord: seq<Coords>)

  const Empty := Contributions(map[], [], [])

  /**
   * What the map keeps true: one entry per key, indices below the number of
   * entries, every entry counting at least one fit, sums of dimension w.
   */
  ghost predicate Valid(t: Contributions, w: nat)
  {
    && |t.contribCount| == |t.contribCoord| == |t.vertexMap|
    && (forall v :: v in t.vertexMap ==> t.vertexMap[v] < |t.contribCount|)
    && (forall i :: 0 <= i < |t.contribCount| ==> t.contribCount[i] >= 1)
    && AllOfDim(t.contribCoord, w)
  }

  /**
   * One fit added to the map: a vertex seen for the first time gets the next
   * index (the map's size) with count 1 and the fit as its sum; a vertex seen
   * before keeps its index, its count grows by one and the fit is added.
   */
  function Record(g: Geometry, t: Contributions, c: Contribution, ref: Coords): (r: Contributions)
    requires Valid(t, |ref|) && |c.coords| == |ref|
    ensures Valid(r, |ref|)
    ensures c.vertex in r.vertexMap
    ensures c.vertex !in t.vertexMap ==> r.vertexMap[c.vertex] == |t.vertexMap| && |r.vertexMap| == |t.vertexMap| + 1
    ensures c.vertex in t.vertexMap ==> r.vertexMap == t.vertexMap
    ensures forall v :: v in t.vertexMap ==> v in r.vertexMap && r.vertexMap[v] == t.vertexMap[v]
    ensures c.vertex !in t.vertexMap ==>
              r.contribCount[|t.vertexMap|] == 1 && r.contribCoord[|t.vertexMap|] == ConsistentWith(g, c.coords, ref)
    ensures c.vertex in t.vertexMap ==>
              var i := t.vertexMap[c.vertex];
              r.contribCount[i] == t.contribCount[i] + 1 && r.contribCoord[i] == Plus(t.contribCoord[i], ConsistentWith(g, c.coords, ref))
    ensures forall i :: 0 <= i < |t.contribCount| && i != r.vertexMap[c.vertex] ==>
              r.contribCount[i] == t.contribCount[i] && r.contribCoord[i] == t.contribCoord[i]
  {
    var moved := ConsistentWith(g, c.coords, ref);
    if c.vertex in t.vertexMap then
      var i := t.vertexMap[c.vertex];
      Contributions(t.vertexMap, t.contribCount[i := t.contribCount[i] + 1],
                    t.contribCoord[i := Plus(t.contribCoord[i], moved)])
    else
      Contributions(t.vertexMap[c.vertex := |t.vertexMap|], t.contribCount + [1], t.contribCoord + [moved])
  }

  /** Every fit of cs has dimension w. */
  ghost predicate FitsOfDim(cs: seq<Contribution>, w: nat)
  {
    forall m :: 0 <= m < |cs| ==> |cs[m].coords| == w
  }

  /** The map after the fits of cs, in order, starting from the empty map. */
  function Tabulate(g: Geometry, cs: seq<Contribution>, ref: Coords): (t: Contributions)
    requires FitsOfDim(cs, |ref|)
    ensures Valid(t, |ref|)
  {
    if cs == [] then Empty else Record(g, Tabulate(g, cs[..|cs| - 1], ref), cs[|cs| - 1], ref)
  }

  /** One more fit is one more Record. */
  lemma TabulateAppend(g: Geometry, cs: seq<Contribution>, c: Contribution, ref: Coords)
    requires FitsOfDim(cs, |ref|) && |c.coords| == |ref|
    ensures FitsOfDim(cs + [c], |ref|)
    ensures Tabulate(g, cs + [c], ref) == Record(g, Tabulate(g, cs, ref), c, ref)
  {
    assert (cs + [c])[..|cs|] == cs;
  }

  /** Distinct vertices have distinct entries. */
  ghost predicate Distinct(t: Contributions)
  {
    forall v, u :: v in t.vertexMap && u in t.vertexMap && v != u ==> t.vertexMap[v] != t.vertexMap[u]
  }

  /** The map never gives two vertices the same entry. */
  lemma {:induction false} TabulateDistinct(g: Geometry, cs: seq<Contribution>, ref: Coords)
    requires FitsOfDim(cs, |ref|)
    ensures Distinct(Tabulate(g, cs, ref))
  {
    if cs != [] {
      var xs := cs[..|cs| - 1];
      TabulateDistinct(g, xs, ref);
      assert Tabulate(g, cs, ref) == Record(g, Tabulate(g, xs, ref), cs[|cs| - 1], ref);
    }
  }

  /** The coordinates of the fits of vertex v in cs, in order. */
  function FitsOf(cs: seq<Contribution>, v: VertexId): seq<Coords>
  {
    if cs == [] then []
    else if cs[|cs| - 1].vertex == v then FitsOf(cs[..|cs| - 1], v) + [cs[|cs| - 1].coords]
    else FitsOf(cs[..|cs| - 1], v)
  }

  lemma {:induction false} FitsOfDims(cs: seq<Contribution>, v: VertexId, w: nat)
    requires FitsOfDim(cs, w)
    ensures AllOfDim(FitsOf(cs, v), w)
  {
    if cs != [] {
      FitsOfDims(cs[..|cs| - 1], v, w);
    }
  }

  /** Every fit recorded for v is among the fits of v. */
  lemma {:induction false} FitIsAmong(cs: seq<Contribution>, m: nat, v: VertexId)
    requires m < |cs| && cs[m].vertex == v
    ensures cs[m].coords in FitsOf(cs, v)
  {
    if m < |cs| - 1 {
      FitIsAmong(cs[..|cs| - 1], m, v);
    }
  }

  // ---------------------------------------------------------------------------
  // The map refine performs

  /**
   * The body of refine's loop over the vertices of a simplex, from the lookup
   * in vertexMap to the update of contribCount and contribCoord; `index` is the
   * entry of the fit, which refine parks in the segment-tracer slot.
   */
  method AddContribution(g: Geometry, t: Contributions, vertex: VertexId, cE: Coords, result: Coords)
    returns (index: nat, t': Contributions)
    requires Valid(t, |result|) && |cE| == |result|
    ensures t' == Record(g, t, Contribution(vertex, cE), result)
    ensures vertex in t'.vertexMap && index == t'.vertexMap[vertex] && index < |t'.contribCount|
  {
    if vertex !in t.vertexMap {
      index := |t.vertexMap|;
      var moved: Coords := [];
      for k := 0 to |result|
        invariant |moved| == k
        invariant forall k' :: 0 <= k' < k ==> moved[k'] == g.consistency(cE[k'], result[k'], k')
      {
        moved := moved + [g.consistency(cE[k], result[k], k)];
      }
      assert moved == ConsistentWith(g, cE, result);
      t' := Contributions(t.vertexMap[vertex := index], t.contribCount + [1], t.contribCoord + [moved]);
    } else {
      index := t.vertexMap[vertex];
      var sum := AddMoved(g, t.contribCoord[index], cE, result);
      assert sum == Plus(t.contribCoord[index], ConsistentWith(g, cE, result));
      t' := t.(contribCount := t.contribCount[index := t.contribCount[index] + 1],
               contribCoord := t.contribCoord[index := sum]);
    }
  }

  /** Entry i divided by its count and wrapped into the domain. */
  function Average(g: Geometry, t: Contributions, i: nat): (r: Coords)
    requires i < |t.contribCount| == |t.contribCoord| && t.contribCount[i] >= 1
    ensures |r| == |t.contribCoord[i]|
  {
    CheckBoundary(g, Scale(t.contribCoord[i], 1.0 / (t.contribCount[i] as real)))
  }

  function Averages(g: Geometry, t: Contributions, w: nat): (avg: seq<Coords>)
    requires Valid(t, w)
    ensures |avg| == |t.contribCount| && AllOfDim(avg, w)
    ensures forall i :: 0 <= i < |avg| ==> avg[i] == Average(g, t, i)
  {
    seq(|t.contribCount|, i requires 0 <= i < |t.contribCount| => Average(g, t, i))
  }

  /** refine's averaging loop: every entry scaled by 1/count, then wrapped, in place. */
  method AverageContributions(g: Geometry, t: Contributions, ghost w: nat) returns (contribCoord: seq<Coords>)
    requires Valid(t, w)
    ensures contribCoord == Averages(g, t, w)
  {
    contribCoord := t.contribCoord;
    for i := 0 to |t.contribCount|
      invariant |contribCoord| == |t.contribCount|
      invariant forall i' :: 0 <= i' < i ==> contribCoord[i'] == Average(g, t, i')
      invariant forall i' :: i <= i' < |t.contribCount| ==> contribCoord[i'] == t.contribCoord[i']
    {
      var factor := 1.0 / (t.contribCount[i] as real);
      var scaled := ScaleBy(contribCoord[i], factor);
      contribCoord := contribCoord[i := CheckBoundary(g, scaled)];
    }
  }

  // ---------------------------------------------------------------------------
  // What the map holds

  /**
   * After the fits cs: a vertex has an entry exactly when it has fits, its
   * count is its number of fits and its sum the consistent sum of its fits,
   * accumulated in order.
   */
  lemma {:induction false} TabulateHolds(g: Geometry, cs: seq<Contribution>, ref: Coords, v: VertexId)
    requires FitsOfDim(cs, |ref|)
    ensures FitsOfDim(cs, |ref|) && AllOfDim(FitsOf(cs, v), |ref|)
    ensures v in Tabulate(g, cs, ref).vertexMap <==> |FitsOf(cs, v)| > 0
    ensures v in Tabulate(g, cs, ref).vertexMap ==>
              var t := Tabulate(g, cs, ref);
              var i := t.vertexMap[v];
              && t.contribCount[i] == |FitsOf(cs, v)|
              && forall k :: 0 <= k < |ref| ==> t.contribCoord[i][k] == ConsistentSum(g, FitsOf(cs, v), ref, k)
  {
    FitsOfDims(cs, v, |ref|);
    if cs != [] {
      var xs := cs[..|cs| - 1];
      var c := cs[|cs| - 1];
      TabulateHolds(g, xs, ref, v);
      FitsOfDims(xs, v, |ref|);
      var t0 := Tabulate(g, xs, ref);
      var t := Tabulate(g, cs, ref);
      assert t == Record(g, t0, c, ref);
      if c.vertex == v {
        var fs := FitsOf(cs, v);
        assert fs == FitsOf(xs, v) + [c.coords];
        assert fs[..|fs| - 1] == FitsOf(xs, v);
        if v !in t0.vertexMap {
          assert FitsOf(xs, v) == [];
        }
      } else if v in t0.vertexMap {
        assert t.vertexMap[v] == t0.vertexMap[v];
        if c.vertex in t0.vertexMap {
          TabulateDistinct(g, xs, ref);
          assert t0.vertexMap[c.vertex] != t0.vertexMap[v];
        }
      }
    }
  }

  /** A vertex keeps its index once it has one: the index refine parks in the buffer stays right. */
  lemma {:induction false} TabulateStable(g: Geometry, xs: seq<Contribution>, cs: seq<Contribution>, ref: Coords, v: VertexId)
    requires |xs| <= |cs| && cs[..|xs|] == xs && FitsOfDim(cs, |ref|)
    requires FitsOfDim(xs, |ref|) && v in Tabulate(g, xs, ref).vertexMap
    ensures v in Tabulate(g, cs, ref).vertexMap && Tabulate(g, cs, ref).vertexMap[v] == Tabulate(g, xs, ref).vertexMap[v]
    decreases |cs|
  {
    if |cs| > |xs| {
      var ys := cs[..|cs| - 1];
      assert ys[..|xs|] == xs;
      TabulateStable(g, xs, ys, ref, v);
    } else {
      assert xs == cs;
    }
  }

  /** The vertex of every fit has an entry. */
  lemma {:induction false} TabulateHas(g: Geometry, cs: seq<Contribution>, ref: Coords, m: nat)
    requires FitsOfDim(cs, |ref|) && m < |cs|
    ensures cs[m].vertex in Tabulate(g, cs, ref).vertexMap
  {
    var n := |cs| - 1;
    if m < n {
      TabulateHas(g, cs[..n], ref, m);
    }
  }

  /** Entry indices are handed out densely in first-seen order: after cs they are 0 .. |vertexMap|-1. */
  lemma {:induction false} TabulateDense(g: Geometry, cs: seq<Contribution>, ref: Coords, i: nat)
    requires FitsOfDim(cs, |ref|) && i < |Tabulate(g, cs, ref).vertexMap|
    ensures exists v :: v in Tabulate(g, cs, ref).vertexMap && Tabulate(g, cs, ref).vertexMap[v] == i
  {
    var n := |cs| - 1;
    var t0 := Tabulate(g, cs[..n], ref);
    var c := cs[n];
    if i < |t0.vertexMap| {
      TabulateDense(g, cs[..n], ref, i);
      var v :| v in t0.vertexMap && t0.vertexMap[v] == i;
      assert v in Tabulate(g, cs, ref).vertexMap && Tabulate(g, cs, ref).vertexMap[v] == i;
    } else {
      assert c.vertex in Tabulate(g, cs, ref).vertexMap && Tabulate(g, cs, ref).vertexMap[c.vertex] == i;
    }
  }

  /**
   * Without periodic boundaries the average of the entry of v is the
   * arithmetic mean of the fits of v.
   */
  lemma AverageIsMean(cs: seq<Contribution>, ref: Coords, v: VertexId)
    requires FitsOfDim(cs, |ref|) && v in Tabulate(NonPeriodic, cs, ref).vertexMap
    ensures |FitsOf(cs, v)| > 0 && AllOfDim(FitsOf(cs, v), |ref|)
    ensures Average(NonPeriodic, Tabulate(NonPeriodic, cs, ref), Tabulate(NonPeriodic, cs, ref).vertexMap[v])
            == Scale(VectorSum(FitsOf(cs, v), |ref|), 1.0 / (|FitsOf(cs, v)| as real))
  {
    TabulateHolds(NonPeriodic, cs, ref, v);
    var t := Tabulate(NonPeriodic, cs, ref);
    var i := t.vertexMap[v];
    MeanOfSum(t.contribCoord[i], t.contribCount[i], FitsOf(cs, v), ref);
  }

  /** A sum of consistent moves without periodic boundaries, divided by the count, is the mean. */
  lemma MeanOfSum(sum: Coords, count: nat, fs: seq<Coords>, ref: Coords)
    requires |sum| == |ref| && count == |fs| > 0 && AllOfDim(fs, |ref|)
    requires forall k :: 0 <= k < |ref| ==> sum[k] == ConsistentSum(NonPeriodic, fs, ref, k)
    ensures CheckBoundary(NonPeriodic, Scale(sum, 1.0 / (count as real))) == Scale(VectorSum(fs, |ref|), 1.0 / (|fs| as real))
  {
    var scaled := Scale(sum, 1.0 / (count as real));
    var rhs := Scale(VectorSum(fs, |ref|), 1.0 / (|fs| as real));
    NonPeriodicBoundary(scaled);
    forall k | 0 <= k < |ref| ensures scaled[k] == rhs[k] {
      NonPeriodicSum(fs, ref, k);
    }
    assert scaled == rhs;
  }
}
