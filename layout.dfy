/**
 * The caller-owned refinement buffer: one fixed-stride region per incident
 * simplex, holding typed slots instead of raw bytes.
 */
module Layout {
  import opened Geometry
  import opened Mesh
  import opened Arith

  /**
   * One buffer slot: a tracer coordinate, the contribution index the quadratic
   * policy parks in a segment-tracer slot between its two passes, or a vertex
   * identity tag.
   */
  datatype Slot = Value(x: real) | Index(i: nat) | Tag(v: VertexId)

  /**
   * The layout of one per-simplex region (SIMPLEX_BUFFER_SIZE, counted in
   * slots): two new simplex tracers of W values, then `segTracers` new segment
   * tracers of W values, then `tags` vertex tags.
   */
  datatype RegionLayout = RegionLayout(w: nat, segTracers: nat, tags: nat) {
    function Stride(): nat
    {
      2 * w + Blocks(segTracers, w) + tags
    }

    /** tBuffer[n*W + k] */
    function TracerSlot(n: nat, k: nat): nat
    {
      Blocks(n, w) + k
    }

    /** segTBuffer[j*W + k], where segTBuffer = &tBuffer[2*W] */
    function SegTracerSlot(j: nat, k: nat): nat
    {
      2 * w + Blocks(j, w) + k
    }

    /** vIdBuffer[j], where vIdBuffer = &segTBuffer[segTracers*W] */
    function TagSlot(j: nat): nat
    {
      2 * w + Blocks(segTracers, w) + j
    }
  }

  /** Layout of both "WithTracers" policies: NVERT segment tracers and NVERT+1 tags. */
  function WithTracersLayout(sh: Shape): RegionLayout
  {
    RegionLayout(sh.w, sh.nvert, sh.nvert + 1)
  }

  /** Layout of QuadraticRegressionWithTracer: the two simplex tracers and one tag. */
  function WithTracerLayout(sh: Shape): RegionLayout
  {
    RegionLayout(sh.w, 0, 1)
  }

  function Values(p: Coords): (r: seq<Slot>)
    ensures |r| == |p| && forall k :: 0 <= k < |p| ==> r[k] == Value(p[k])
  {
    seq(|p|, k requires 0 <= k < |p| => Value(p[k]))
  }

  function Tags(ids: seq<VertexId>): (r: seq<Slot>)
    ensures |r| == |ids| && forall j :: 0 <= j < |ids| ==> r[j] == Tag(ids[j])
  {
    seq(|ids|, j requires 0 <= j < |ids| => Tag(ids[j]))
  }

  /** The values of every vector of ps, one after the other. */
  function Flatten(ps: seq<Coords>): seq<Slot>
  {
    if ps == [] then [] else Flatten(ps[..|ps| - 1]) + Values(ps[|ps| - 1])
  }

  /** The content of one region, area after area. */
  function Region(t0: Coords, t1: Coords, segTs: seq<Coords>, tags: seq<VertexId>): seq<Slot>
  {
    Values(t0) + Values(t1) + Flatten(segTs) + Tags(tags)
  }

  /** A region whose parts have the sizes the layout gives them. */
  ghost predicate Fits(L: RegionLayout, t0: Coords, t1: Coords, segTs: seq<Coords>, tags: seq<VertexId>)
  {
    |t0| == L.w && |t1| == L.w && |segTs| == L.segTracers && AllOfDim(segTs, L.w) && |tags| == L.tags
  }

  lemma {:induction false} FlattenLength(ps: seq<Coords>, w: nat)
    requires AllOfDim(ps, w)
    ensures |Flatten(ps)| == Blocks(|ps|, w)
  {
    if ps != [] {
      FlattenLength(ps[..|ps| - 1], w);
    }
  }

  /** Value k of vector j of ps sits at j*W + k. */
  lemma {:induction false} FlattenSlot(ps: seq<Coords>, w: nat, j: nat, k: nat)
    requires AllOfDim(ps, w) && j < |ps| && k < w
    ensures |Flatten(ps)| == Blocks(|ps|, w)
    ensures Blocks(j, w) + k < Blocks(|ps|, w) && Flatten(ps)[Blocks(j, w) + k] == Value(ps[j][k])
  {
    var n := |ps| - 1;
    var prefix := ps[..n];
    FlattenLength(prefix, w);
    var F := Flatten(prefix);
    assert Flatten(ps) == F + Values(ps[n]);
    if j < n {
      FlattenSlot(prefix, w, j, k);
      assert Flatten(ps)[Blocks(j, w) + k] == F[Blocks(j, w) + k];
    }
  }

  /**
   * The source's offset arithmetic reads back what the region holds: the two
   * simplex tracers at n*W, segment tracer j at 2*W + j*W, tag j after them.
   */
  lemma RegionSlots(L: RegionLayout, t0: Coords, t1: Coords, segTs: seq<Coords>, tags: seq<VertexId>)
    requires Fits(L, t0, t1, segTs, tags)
    ensures |Region(t0, t1, segTs, tags)| == L.Stride()
    ensures forall k :: 0 <= k < L.w ==> Region(t0, t1, segTs, tags)[L.TracerSlot(0, k)] == Value(t0[k])
    ensures forall k :: 0 <= k < L.w ==> L.TracerSlot(1, k) == L.w + k && Region(t0, t1, segTs, tags)[L.TracerSlot(1, k)] == Value(t1[k])
    ensures forall j, k :: 0 <= j < L.segTracers && 0 <= k < L.w ==>
              L.SegTracerSlot(j, k) < L.TagSlot(0) && Region(t0, t1, segTs, tags)[L.SegTracerSlot(j, k)] == Value(segTs[j][k])
    ensures forall j :: 0 <= j < L.tags ==> Region(t0, t1, segTs, tags)[L.TagSlot(j)] == Tag(tags[j])
  {
    FlattenLength(segTs, L.w);
    var r := Region(t0, t1, segTs, tags);
    var F := Flatten(segTs);
    var head := Values(t0) + Values(t1);
    assert r == head + F + Tags(tags);
    assert Blocks(1, L.w) == L.w;
    forall k | 0 <= k < L.w ensures r[L.TracerSlot(0, k)] == Value(t0[k]) && r[L.TracerSlot(1, k)] == Value(t1[k]) {
      assert r[k] == head[k] && r[L.w + k] == head[L.w + k];
    }
    forall j | 0 <= j < L.tags ensures r[L.TagSlot(j)] == Tag(tags[j]) {
      assert r[L.TagSlot(j)] == Tags(tags)[j];
    }
    forall j, k | 0 <= j < L.segTracers && 0 <= k < L.w
      ensures L.SegTracerSlot(j, k) < L.TagSlot(0) && r[L.SegTracerSlot(j, k)] == Value(segTs[j][k])
    {
      FlattenSlot(segTs, L.w, j, k);
      assert r[L.SegTracerSlot(j, k)] == F[Blocks(j, L.w) + k];
    }
  }

  // ---------------------------------------------------------------------------
  // The whole buffer: the regions of all simplices, region i at Stride*i

  function Concat<T>(rs: seq<seq<T>>): seq<T>
  {
    if rs == [] then [] else Concat(rs[..|rs| - 1]) + rs[|rs| - 1]
  }

  lemma {:induction false} ConcatLength<T>(rs: seq<seq<T>>, stride: nat)
    requires forall r :: 0 <= r < |rs| ==> |rs[r]| == stride
    ensures |Concat(rs)| == Blocks(|rs|, stride)
  {
    if rs != [] {
      ConcatLength(rs[..|rs| - 1], stride);
    }
  }

  /** In a buffer made of regions of one stride, region i sits at stride*i. */
  lemma {:induction false} ConcatRegion<T>(rs: seq<seq<T>>, stride: nat, i: nat)
    requires forall r :: 0 <= r < |rs| ==> |rs[r]| == stride
    requires i < |rs|
    ensures |Concat(rs)| == Blocks(|rs|, stride) && Blocks(i, stride) + stride <= |Concat(rs)|
    ensures Concat(rs)[Blocks(i, stride) .. Blocks(i, stride) + stride] == rs[i]
  {
    var n := |rs| - 1;
    ConcatLength(rs, stride);
    ConcatLength(rs[..n], stride);
    assert Concat(rs) == Concat(rs[..n]) + rs[n];
    if i < n {
      ConcatRegion(rs[..n], stride, i);
      BlockBelow(stride, i, n);
      assert Concat(rs)[Blocks(i, stride) .. Blocks(i, stride) + stride]
          == Concat(rs[..n])[Blocks(i, stride) .. Blocks(i, stride) + stride];
    }
  }

  /** Slot x of region i of a buffer made of regions of one stride. */
  lemma ConcatSlot<T>(rs: seq<seq<T>>, stride: nat, i: nat, x: nat)
    requires forall r :: 0 <= r < |rs| ==> |rs[r]| == stride
    requires i < |rs| && x < stride
    ensures Blocks(i, stride) + x < |Concat(rs)| && Concat(rs)[Blocks(i, stride) + x] == rs[i][x]
  {
    ConcatRegion(rs, stride, i);
    assert Concat(rs)[Blocks(i, stride) + x] == Concat(rs)[Blocks(i, stride) .. Blocks(i, stride) + stride][x];
  }

  /**
   * When slot a of region i agreeing with slot a' of region i' forces slot c
   * to agree with slot c', the same holds of the buffer the regions make.
   */
  lemma ConcatSlotsAgree(rs: seq<seq<Slot>>, stride: nat, i: nat, i': nat, a: nat, a': nat, c: nat, c': nat)
    requires forall r :: 0 <= r < |rs| ==> |rs[r]| == stride
    requires i < |rs| && i' < |rs| && a < stride && a' < stride && c < stride && c' < stride
    requires rs[i][a] == rs[i'][a'] ==> rs[i][c] == rs[i'][c']
    ensures Blocks(i, stride) + a < |Concat(rs)| && Blocks(i', stride) + a' < |Concat(rs)|
    ensures Blocks(i, stride) + c < |Concat(rs)| && Blocks(i', stride) + c' < |Concat(rs)|
    ensures Concat(rs)[Blocks(i, stride) + a] == Concat(rs)[Blocks(i', stride) + a'] ==>
              Concat(rs)[Blocks(i, stride) + c] == Concat(rs)[Blocks(i', stride) + c']
  {
    ConcatSlot(rs, stride, i, a);
    ConcatSlot(rs, stride, i', a');
    ConcatSlot(rs, stride, i, c);
    ConcatSlot(rs, stride, i', c');
  }

  /** The first i+1 parts are the first i parts followed by part i. */
  lemma ConcatStep<T>(rs: seq<seq<T>>, i: nat)
    requires i < |rs|
    ensures Concat(rs[..i + 1]) == Concat(rs[..i]) + rs[i]
  {
    assert rs[..i + 1][..i] == rs[..i];
  }

  /** The first i parts come first among the first j parts. */
  lemma {:induction false} ConcatPrefixOf<T>(rs: seq<seq<T>>, i: nat, j: nat)
    requires i <= j <= |rs|
    ensures |Concat(rs[..i])| <= |Concat(rs[..j])| && Concat(rs[..j])[..|Concat(rs[..i])|] == Concat(rs[..i])
    decreases j
  {
    if i < j {
      ConcatPrefixOf(rs, i, j - 1);
      ConcatStep(rs, j - 1);
      assert Concat(rs[..j])[..|Concat(rs[..i])|] == Concat(rs[..j - 1])[..|Concat(rs[..i])|];
    }
  }

  /** Element k of part i sits after the first i parts. */
  lemma ConcatAt<T>(rs: seq<seq<T>>, i: nat, k: nat)
    requires i < |rs| && k < |rs[i]|
    ensures |Concat(rs[..i])| + k < |Concat(rs)| && Concat(rs)[|Concat(rs[..i])| + k] == rs[i][k]
  {
    ConcatStep(rs, i);
    ConcatPrefixOf(rs, i + 1, |rs|);
    assert rs[..|rs|] == rs;
    assert Concat(rs)[|Concat(rs[..i])| + k] == Concat(rs[..i + 1])[|Concat(rs[..i])| + k];
  }

  /** Slots of the regions of distinct simplices never coincide. */
  lemma RegionsDisjoint(L: RegionLayout, i: nat, o: nat, i': nat, o': nat)
    requires i != i' && o < L.Stride() && o' < L.Stride()
    ensures Blocks(i, L.Stride()) + o != Blocks(i', L.Stride()) + o'
  {
    if i < i' {
      BlockBelow(L.Stride(), i, i');
    } else {
      BlockBelow(L.Stride(), i', i);
    }
  }

  // ---------------------------------------------------------------------------
  // Writing the buffer

  /** b and b0 agree everywhere except possibly on [lo, hi). */
  ghost predicate SameOutside(b: seq<Slot>, b0: seq<Slot>, lo: nat, hi: nat)
  {
    |b| == |b0| && lo <= hi <= |b| && b[..lo] == b0[..lo] && b[hi..] == b0[hi..]
  }

  /** Stores `content` slot by slot from offset `at` on, and touches nothing else. */
  method WriteSlots(buffer: array<Slot>, at: nat, content: seq<Slot>)
    requires at + |content| <= buffer.Length
    modifies buffer
    ensures buffer[at .. at + |content|] == content
    ensures SameOutside(buffer[..], old(buffer[..]), at, at + |content|)
  {
    for k := 0 to |content|
      invariant forall o :: at <= o < at + k ==> buffer[o] == content[o - at]
      invariant forall o :: 0 <= o < buffer.Length && !(at <= o < at + k) ==> buffer[o] == old(buffer[o])
    {
      buffer[at + k] := content[k];
    }
  }

  /** The first i regions and region i fit inside the whole buffer. */
  lemma {:induction false} ConcatPrefix<T>(rs: seq<seq<T>>, i: nat)
    requires i < |rs|
    ensures |Concat(rs[..i])| + |rs[i]| <= |Concat(rs)|
    decreases |rs|
  {
    var n := |rs| - 1;
    assert rs[..n + 1] == rs;
    if i < n {
      ConcatPrefix(rs[..n], i);
      assert rs[..n][..i] == rs[..i];
    }
  }

  /**
   * Stores region i of the buffer right after the first i regions: the filled
   * prefix grows by one region, and nothing after it changes.
   */
  method AppendRegion(buffer: array<Slot>, at: nat, region: seq<Slot>, ghost rs: seq<seq<Slot>>, ghost i: nat)
    requires i < |rs| && rs[i] == region
    requires at + |region| <= buffer.Length && buffer[..at] == Concat(rs[..i])
    modifies buffer
    ensures buffer[..at + |region|] == Concat(rs[..i + 1])
    ensures buffer[at + |region|..] == old(buffer[at + |region|..])
  {
    ghost var b0 := buffer[..];
    WriteSlots(buffer, at, region);
    assert buffer[..at] == b0[..at];
    assert rs[..i + 1][..i] == rs[..i];
    assert buffer[..at + |region|] == buffer[..at] + buffer[at .. at + |region|];
  }

  /** A pass that has written all regions has written the whole buffer. */
  lemma FullPrefix<T>(b: seq<T>, rs: seq<seq<T>>, at: nat)
    requires at <= |b| && b[..at] == Concat(rs[..|rs|]) && |Concat(rs)| == |b|
    ensures b == Concat(rs)
  {
    assert rs[..|rs|] == rs;
  }

  /** Region i of a buffer of n regions of one stride. */
  function RegionOf(b: seq<Slot>, stride: nat, n: nat, i: nat): (r: seq<Slot>)
    requires |b| == Blocks(n, stride) && i < n
    ensures |r| == stride
  {
    BlockBelow(stride, i, n);
    b[Blocks(i, stride) .. Blocks(i, stride) + stride]
  }

  /** A buffer that agrees with b0 from `at` on agrees with it on every slice there. */
  lemma SuffixSlice(b: seq<Slot>, b0: seq<Slot>, at: nat, end: nat)
    requires |b| == |b0| && at <= end <= |b| && b[at..] == b0[at..]
    ensures b[at .. end] == b0[at .. end]
  {
    assert b[at .. end] == b[at..][..end - at];
    assert b0[at .. end] == b0[at..][..end - at];
  }

  /**
   * A pass over the regions: when region [at, end) is written after a prefix
   * `done` and the rest still agreed with b0, the prefix grows by the region
   * and the rest after it still agrees with b0.
   */
  lemma PrefixGrows(b: seq<Slot>, b1: seq<Slot>, b0: seq<Slot>, at: nat, end: nat, done: seq<Slot>, r: seq<Slot>)
    requires SameOutside(b, b1, at, end) && |b0| == |b1|
    requires b1[..at] == done && b1[at..] == b0[at..] && b[at .. end] == r
    ensures b[..end] == done + r && b[end..] == b0[end..]
  {
    assert b[..end] == b[..at] + b[at .. end];
    assert b[end..] == b1[end..];
    assert b1[end..] == b1[at..][end - at..];
    assert b0[end..] == b0[at..][end - at..];
  }

  // ---------------------------------------------------------------------------
  // Slices of a buffer written part by part

  /** Slices that avoid the written range [lo, hi) are as before. */
  lemma SliceUntouched(b: seq<Slot>, b0: seq<Slot>, lo: nat, hi: nat, x: nat, y: nat)
    requires SameOutside(b, b0, lo, hi) && x <= y <= |b| && (y <= lo || hi <= x)
    ensures b[x .. y] == b0[x .. y]
  {
    forall o | x <= o < y ensures b[o] == b0[o] {
      if y <= lo {
        assert b[o] == b[..lo][o] && b0[o] == b0[..lo][o];
      } else {
        assert b[o] == b[hi..][o - hi] && b0[o] == b0[hi..][o - hi];
      }
    }
  }

  /** Two writes inside [lo, hi), one after the other, leave everything outside it as before. */
  lemma SameOutsideTrans(b2: seq<Slot>, b1: seq<Slot>, b0: seq<Slot>, lo2: nat, hi2: nat, lo1: nat, hi1: nat, lo: nat, hi: nat)
    requires SameOutside(b2, b1, lo2, hi2) && SameOutside(b1, b0, lo1, hi1)
    requires lo <= lo2 && lo <= lo1 && hi2 <= hi && hi1 <= hi && hi <= |b0|
    ensures SameOutside(b2, b0, lo, hi)
  {
    SliceUntouched(b2, b1, lo2, hi2, 0, lo);
    SliceUntouched(b1, b0, lo1, hi1, 0, lo);
    SliceUntouched(b2, b1, lo2, hi2, hi, |b2|);
    SliceUntouched(b1, b0, lo1, hi1, hi, |b1|);
    assert b2[..lo] == b2[0 .. lo] && b1[..lo] == b1[0 .. lo] && b0[..lo] == b0[0 .. lo];
    assert b2[hi..] == b2[hi .. |b2|] && b1[hi..] == b1[hi .. |b1|] && b0[hi..] == b0[hi .. |b0|];
  }



  // ---------------------------------------------------------------------------
  // The quadratic policy parks a contribution index in the first slot of every
  // segment tracer, then replaces each index with the averaged tracer it names.

  /** The segment-tracer area `area` once index idxs[j] is parked at j*W, for every j. */
  function MarkIndices(area: seq<Slot>, w: nat, idxs: seq<nat>): (r: seq<Slot>)
    requires w >= 1 && Blocks(|idxs|, w) <= |area|
    ensures |r| == |area|
  {
    if idxs == [] then area
    else MarkIndices(area, w, idxs[..|idxs| - 1])[Blocks(|idxs| - 1, w) := Index(idxs[|idxs| - 1])]
  }

  /** Index j is found at j*W: later indices go to later tracers. */
  lemma {:induction false} MarkIndicesAt(area: seq<Slot>, w: nat, idxs: seq<nat>, j: nat)
    requires w >= 1 && Blocks(|idxs|, w) <= |area| && j < |idxs|
    ensures Blocks(j, w) < |area| && MarkIndices(area, w, idxs)[Blocks(j, w)] == Index(idxs[j])
  {
    var n := |idxs| - 1;
    if j < n {
      BlockBelow(w, j, n);
      MarkIndicesAt(area, w, idxs[..n], j);
    }
  }

  /** for (j = 0; j < n; ++j) segTBuffer[j*W] = index[j]; on a copy of the segment-tracer area. */
  method ParkIndices(area: seq<Slot>, w: nat, idxs: seq<nat>) returns (r: seq<Slot>)
    requires w >= 1 && Blocks(|idxs|, w) <= |area|
    ensures r == MarkIndices(area, w, idxs)
  {
    r := area;
    assert idxs[..0] == [];
    for j := 0 to |idxs|
      invariant Blocks(j, w) <= Blocks(|idxs|, w)
      invariant r == MarkIndices(area, w, idxs[..j])
    {
      BlockBelow(w, j, |idxs|);
      assert idxs[..j + 1][..j] == idxs[..j];
      r := r[Blocks(j, w) := Index(idxs[j])];
    }
    assert idxs[..|idxs|] == idxs;
  }

  /** The vectors of `table` that idxs names, in order. */
  function Pick(table: seq<Coords>, idxs: seq<nat>): (r: seq<Coords>)
    requires forall j :: 0 <= j < |idxs| ==> idxs[j] < |table|
    ensures |r| == |idxs| && forall j :: 0 <= j < |idxs| ==> r[j] == table[idxs[j]]
  {
    seq(|idxs|, j requires 0 <= j < |idxs| => table[idxs[j]])
  }

  /**
   * The reads of the resolving loop: for every j, the index parked at
   * start + j*W. Each segment tracer's write covers only its own index slot,
   * so reading all indices before writing yields what the interleaved loop does.
   */
  method ReadIndices(buffer: array<Slot>, start: nat, w: nat, n: nat, ghost area0: seq<Slot>, ghost idxs: seq<nat>) returns (read: seq<nat>)
    requires w >= 1 && |idxs| == n && |area0| == Blocks(n, w) && start + Blocks(n, w) <= buffer.Length
    requires buffer[start .. start + Blocks(n, w)] == MarkIndices(area0, w, idxs)
    ensures read == idxs
  {
    ghost var marked := MarkIndices(area0, w, idxs);
    read := [];
    for j := 0 to n
      invariant read == idxs[..j]
    {
      BlockBelow(w, j, n);
      MarkIndicesAt(area0, w, idxs, j);
      assert buffer[start + Blocks(j, w)] == marked[Blocks(j, w)];
      read := read + [buffer[start + Blocks(j, w)].i];
    }
  }

  /**
   * A region after the first pass: both simplex tracers, the indices parked
   * over the old segment-tracer area, then the tags.
   */
  function PassOneRegion(region0: seq<Slot>, w: nat, t0: Coords, t1: Coords, idxs: seq<nat>, tags: seq<VertexId>): seq<Slot>
    requires w >= 1 && 2 * w + Blocks(|idxs|, w) + |tags| == |region0|
  {
    Values(t0) + Values(t1) + MarkIndices(region0[2 * w .. |region0| - |tags|], w, idxs) + Tags(tags)
  }

  /**
   * The first pass on one region: both simplex tracers, the parked indices and
   * the tags. The region is read, the indices are parked in the copy, and the
   * copy is written back.
   */
  method WritePassOneRegion(buffer: array<Slot>, at: nat, L: RegionLayout, t0: Coords, t1: Coords, idxs: seq<nat>, tags: seq<VertexId>)
    requires L.w >= 1 && |t0| == L.w && |t1| == L.w && |idxs| == L.segTracers && |tags| == L.tags
    requires at + L.Stride() <= buffer.Length
    modifies buffer
    ensures buffer[at .. at + L.Stride()] == PassOneRegion(old(buffer[at .. at + L.Stride()]), L.w, t0, t1, idxs, tags)
    ensures SameOutside(buffer[..], old(buffer[..]), at, at + L.Stride())
  {
    var region0 := buffer[at .. at + L.Stride()];
    var parked := ParkIndices(region0[2 * L.w .. L.TagSlot(0)], L.w, idxs);
    WriteSlots(buffer, at, Values(t0) + Values(t1) + parked + Tags(tags));
  }

  /** A slice that holds a + m + t holds a, m and t side by side. */
  lemma SlicesOfSum(b: seq<Slot>, at: nat, a: seq<Slot>, m: seq<Slot>, t: seq<Slot>)
    requires at + |a| + |m| + |t| <= |b| && b[at .. at + |a| + |m| + |t|] == a + m + t
    ensures b[at .. at + |a|] == a
    ensures b[at + |a| .. at + |a| + |m|] == m
    ensures b[at + |a| + |m| .. at + |a| + |m| + |t|] == t
  {
    var r := b[at .. at + |a| + |m| + |t|];
    forall o | 0 <= o < |a| ensures b[at + o] == a[o] { assert b[at + o] == r[o]; }
    forall o | 0 <= o < |m| ensures b[at + |a| + o] == m[o] { assert b[at + |a| + o] == r[|a| + o]; }
    forall o | 0 <= o < |t| ensures b[at + |a| + |m| + o] == t[o] { assert b[at + |a| + |m| + o] == r[|a| + |m| + o]; }
  }

  /** The three areas of a region after the first pass. */
  lemma PassOneAreas(b: seq<Slot>, at: nat, mid: nat, tagStart: nat, end: nat, w: nat, region0: seq<Slot>,
                     t0: Coords, t1: Coords, idxs: seq<nat>, tags: seq<VertexId>)
    requires w >= 1 && |t0| == w && |t1| == w && mid == at + 2 * w && tagStart == mid + Blocks(|idxs|, w)
    requires end == tagStart + |tags| && end <= |b| && |region0| == end - at
    requires b[at .. end] == PassOneRegion(region0, w, t0, t1, idxs, tags)
    ensures |region0[2 * w .. tagStart - at]| == Blocks(|idxs|, w)
    ensures b[at .. mid] == Values(t0) + Values(t1)
    ensures b[mid .. tagStart] == MarkIndices(region0[2 * w .. tagStart - at], w, idxs)
    ensures b[tagStart .. end] == Tags(tags)
  {
    SlicesOfSum(b, at, Values(t0) + Values(t1), MarkIndices(region0[2 * w .. tagStart - at], w, idxs), Tags(tags));
  }

  /**
   * The last pass on one region: every parked index replaced by the averaged
   * tracer it names.
   */
  method ResolveRegion(buffer: array<Slot>, at: nat, L: RegionLayout, ghost region0: seq<Slot>, ghost t0: Coords, ghost t1: Coords,
                       ghost idxs: seq<nat>, ghost tags: seq<VertexId>, table: seq<Coords>)
    requires L.w >= 1 && |t0| == L.w && |t1| == L.w && |idxs| == L.segTracers && |tags| == L.tags && |region0| == L.Stride()
    requires (forall j :: 0 <= j < |idxs| ==> idxs[j] < |table|) && AllOfDim(table, L.w)
    requires at + L.Stride() <= buffer.Length
    requires buffer[at .. at + L.Stride()] == PassOneRegion(region0, L.w, t0, t1, idxs, tags)
    modifies buffer
    ensures buffer[at .. at + L.Stride()] == Region(t0, t1, Pick(table, idxs), tags)
    ensures SameOutside(buffer[..], old(buffer[..]), at, at + L.Stride())
  {
    var mid: nat, tagStart: nat, end: nat := at + 2 * L.w, at + L.TagSlot(0), at + L.Stride();
    ghost var b0 := buffer[..];
    PassOneAreas(b0, at, mid, tagStart, end, L.w, region0, t0, t1, idxs, tags);
    var read := ReadIndices(buffer, mid, L.w, L.segTracers, region0[2 * L.w .. tagStart - at], idxs);
    var segTs := Pick(table, read);
    PickDims(table, read, L.w);
    FlattenLength(segTs, L.w);
    WriteSlots(buffer, mid, Flatten(segTs));
    ResolvedAssembled(buffer[..], b0, at, mid, tagStart, end, t0, t1, segTs, tags);
  }

  lemma PickDims(table: seq<Coords>, idxs: seq<nat>, w: nat)
    requires (forall j :: 0 <= j < |idxs| ==> idxs[j] < |table|) && AllOfDim(table, w)
    ensures AllOfDim(Pick(table, idxs), w)
  {
  }

  /** A region whose segment area was resolved while its other areas stayed as the first pass left them. */
  lemma ResolvedAssembled(b: seq<Slot>, b0: seq<Slot>, at: nat, mid: nat, tagStart: nat, end: nat,
                          t0: Coords, t1: Coords, segTs: seq<Coords>, tags: seq<VertexId>)
    requires at <= mid <= tagStart <= end <= |b0|
    requires SameOutside(b, b0, mid, tagStart)
    requires b0[at .. mid] == Values(t0) + Values(t1)
    requires b0[tagStart .. end] == Tags(tags)
    requires b[mid .. tagStart] == Flatten(segTs)
    ensures b[at .. end] == Region(t0, t1, segTs, tags)
    ensures SameOutside(b, b0, at, end)
  {
    SliceUntouched(b, b0, mid, tagStart, at, mid);
    SliceUntouched(b, b0, mid, tagStart, tagStart, end);
    SameOutsideTrans(b, b0, b0, mid, tagStart, at, end, at, end);
    assert b[at .. end] == b[at .. mid] + b[mid .. tagStart] + b[tagStart .. end];
  }

  // ---------------------------------------------------------------------------
  // One step of a pass over the regions

  /**
   * One step of the first pass: region i, which the pass is to turn into rs[i]
   * = PassOneRegion(the region as it was, ...), is written after the first i.
   */
  method PassOneAt(buffer: array<Slot>, L: RegionLayout, at: nat, i: nat, t0: Coords, t1: Coords, idxs: seq<nat>, tags: seq<VertexId>,
                   ghost rs: seq<seq<Slot>>, ghost b0: seq<Slot>) returns (next: nat)
    requires L.w >= 1 && |t0| == L.w && |t1| == L.w && |idxs| == L.segTracers && |tags| == L.tags
    requires i < |rs| && |b0| == buffer.Length == Blocks(|rs|, L.Stride()) && at == Blocks(i, L.Stride())
    requires at + L.Stride() <= buffer.Length
    requires rs[i] == PassOneRegion(RegionOf(b0, L.Stride(), |rs|, i), L.w, t0, t1, idxs, tags)
    requires buffer[..at] == Concat(rs[..i]) && buffer[at..] == b0[at..]
    modifies buffer
    ensures next == Blocks(i + 1, L.Stride())
    ensures buffer[..next] == Concat(rs[..i + 1]) && buffer[next..] == b0[next..]
  {
    next := at + L.Stride();
    ghost var b1 := buffer[..];
    SuffixSlice(b1, b0, at, next);
    WritePassOneRegion(buffer, at, L, t0, t1, idxs, tags);
    assert rs[..i + 1] == rs[..i] + [rs[i]];
    PrefixGrows(buffer[..], b1, b0, at, next, Concat(rs[..i]), rs[i]);
  }

  /**
   * One step of the last pass: region i of the first pass's buffer c is
   * resolved into fs[i], after the first i regions already resolved.
   */
  method ResolveAt(buffer: array<Slot>, L: RegionLayout, at: nat, i: nat, ghost t0: Coords, ghost t1: Coords, ghost idxs: seq<nat>,
                   ghost tags: seq<VertexId>, table: seq<Coords>, ghost rs: seq<seq<Slot>>, ghost fs: seq<seq<Slot>>, ghost b0: seq<Slot>)
    returns (next: nat)
    requires L.w >= 1 && |t0| == L.w && |t1| == L.w && |idxs| == L.segTracers && |tags| == L.tags
    requires (forall j :: 0 <= j < |idxs| ==> idxs[j] < |table|) && AllOfDim(table, L.w)
    requires i < |rs| == |fs| && |b0| == buffer.Length == Blocks(|rs|, L.Stride()) && at == Blocks(i, L.Stride())
    requires at + L.Stride() <= buffer.Length
    requires (forall r :: 0 <= r < |rs| ==> |rs[r]| == L.Stride()) && |Concat(rs)| == |b0|
    requires rs[i] == PassOneRegion(RegionOf(b0, L.Stride(), |rs|, i), L.w, t0, t1, idxs, tags)
    requires fs[i] == Region(t0, t1, Pick(table, idxs), tags)
    requires buffer[..at] == Concat(fs[..i]) && buffer[at..] == Concat(rs)[at..]
    modifies buffer
    ensures next == Blocks(i + 1, L.Stride())
    ensures buffer[..next] == Concat(fs[..i + 1]) && buffer[next..] == Concat(rs)[next..]
  {
    ConcatRegion(rs, L.Stride(), i);
    next := at + L.Stride();
    ghost var b1 := buffer[..];
    SuffixSlice(b1, Concat(rs), at, next);
    ResolveRegion(buffer, at, L, RegionOf(b0, L.Stride(), |rs|, i), t0, t1, idxs, tags, table);
    assert fs[..i + 1] == fs[..i] + [fs[i]];
    PrefixGrows(buffer[..], b1, Concat(rs), at, next, Concat(fs[..i]), fs[i]);
  }

  // ---------------------------------------------------------------------------
  // The two passes over all regions

  /**
   * What the first pass stores for one region: both new simplex tracers, the
   * entry index of each new segment tracer, and the tags.
   */
  datatype Parked = Parked(t0: Coords, t1: Coords, idxs: seq<nat>, tags: seq<VertexId>)

  /** The parts of p have the sizes layout L gives them. */
  ghost predicate ParkedFits(L: RegionLayout, p: Parked)
  {
    |p.t0| == L.w && |p.t1| == L.w && |p.idxs| == L.segTracers && |p.tags| == L.tags
  }

  /** Every index of p names an entry of a table of n averaged tracers. */
  ghost predicate IndicesBelow(p: Parked, n: nat)
  {
    forall j :: 0 <= j < |p.idxs| ==> p.idxs[j] < n
  }

  /** The regions after the first pass over a buffer that held b0: region i turned into PassOneRegion with ps[i]. */
  function PassOneRegions(b0: seq<Slot>, L: RegionLayout, ps: seq<Parked>): (rs: seq<seq<Slot>>)
    requires L.w >= 1 && |b0| == Blocks(|ps|, L.Stride())
    requires forall i :: 0 <= i < |ps| ==> ParkedFits(L, ps[i])
    ensures |rs| == |ps| && forall i :: 0 <= i < |ps| ==> |rs[i]| == L.Stride()
  {
    seq(|ps|, i requires 0 <= i < |ps| && L.w >= 1 && |b0| == Blocks(|ps|, L.Stride()) && ParkedFits(L, ps[i]) =>
      PassOneRegion(RegionOf(b0, L.Stride(), |ps|, i), L.w, ps[i].t0, ps[i].t1, ps[i].idxs, ps[i].tags))
  }

  /** The regions after the last pass: every parked index replaced by the table entry it names. */
  function ResolvedRegions(L: RegionLayout, ps: seq<Parked>, table: seq<Coords>): (fs: seq<seq<Slot>>)
    requires forall i :: 0 <= i < |ps| ==> IndicesBelow(ps[i], |table|)
    ensures |fs| == |ps|
  {
    seq(|ps|, i requires 0 <= i < |ps| && IndicesBelow(ps[i], |table|) => Region(ps[i].t0, ps[i].t1, Pick(table, ps[i].idxs), ps[i].tags))
  }

  /**
   * The last pass: region by region, the parked indices the first pass left
   * are replaced by the averaged tracers they name.
   */
  method ResolveAll(buffer: array<Slot>, L: RegionLayout, n: nat, table: seq<Coords>, ghost ps: seq<Parked>, ghost b0: seq<Slot>)
    requires n == |ps| && L.w >= 1 && AllOfDim(table, L.w) && |b0| == buffer.Length == Blocks(n, L.Stride())
    requires forall i :: 0 <= i < |ps| ==> ParkedFits(L, ps[i]) && IndicesBelow(ps[i], |table|)
    requires buffer[..] == Concat(PassOneRegions(b0, L, ps))
    modifies buffer
    ensures buffer[..] == Concat(ResolvedRegions(L, ps, table))
  {
    ghost var rs := PassOneRegions(b0, L, ps);
    ghost var fs := ResolvedRegions(L, ps, table);
    ConcatLength(rs, L.Stride());
    var at: nat := 0;
    assert fs[..0] == [];
    for i := 0 to n
      invariant at == Blocks(i, L.Stride()) && at <= buffer.Length
      invariant buffer[..at] == Concat(fs[..i]) && buffer[at..] == Concat(rs)[at..]
    {
      BlockBelow(L.Stride(), i, n);
      at := ResolveAt(buffer, L, at, i, ps[i].t0, ps[i].t1, ps[i].idxs, ps[i].tags, table, rs, fs, b0);
    }
    forall i | 0 <= i < |fs| ensures |fs[i]| == L.Stride() {
      PickDims(table, ps[i].idxs, L.w);
      RegionSlots(L, ps[i].t0, ps[i].t1, Pick(table, ps[i].idxs), ps[i].tags);
    }
    ConcatLength(fs, L.Stride());
    FullPrefix(buffer[..], fs, at);
  }
}
