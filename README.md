# Vertex refinement policies of the simplicial mesh

When the mesh refines a segment, a vertex policy places the new vertex. The
same policy also fills a buffer, one fixed-size region per simplex incident to
the segment. Each region holds the tracers of the two halves the simplex is
split into, and, for some policies, the new segment tracers and the vertex
tags that say which half and which segment each entry belongs to.

This project models these policies of
`include/dice/mesh/basicVertexCoordsPolicies.hxx`:

- `Dummy`, `MidPoint` and `TracersBarycenter`: the new vertex only, with no buffer.
- `LinearRegressionWithTracers`: the new vertex is the split segment's tracer.
  Each new simplex tracer is the barycenter of its half. Each new segment
  tracer is the midpoint between the new vertex and a vertex of the simplex.
- `QuadraticRegressionWithTracers`: the new vertex is again the segment
  tracer. Tracers are evaluated on the quadratic simplex at fixed barycentric
  weights. Every new segment tracer is averaged over all simplices that
  propose a value for it. A table keyed by vertex (`vertexMap`, `contribCount`,
  `contribCoord`) collects the proposals in a first pass. A second pass
  replaces the table indices parked in the buffer by the averages.
- `QuadraticRegressionWithTracer`: the new vertex is the mean, over the
  incident simplices, of the segment midpoint projected onto a quadratic
  surface. That surface is fitted through the points around each simplex.
  Each half then receives a tracer projected onto a second fit made in the
  frame of that half. `getCoordinates` expresses points relative to a fit's
  origin.

## Modelling conventions

- Collaborators are values passed in, each an arbitrary total function:
  - the periodic geometry (`Geometry.Geometry`: checkBoundary,
    checkCoordConsistency, midPointCoords, correctCoordsDiff, getBaseVectors);
  - the quadratic simplex (`QuadraticPolicy.QuadraticSimplex`);
  - the surface fitter and the mesh base vectors (`FitPolicy.Fitter`).
- Each vector-valued collaborator is given one coordinate at a time, so every
  result has dimension W by construction.
- Properties that state what a value *means* (a mean, independence of order)
  are proved for the `NonPeriodic` geometry, where every correction is the
  identity. The refine methods themselves are proved for every geometry.
- `result` is an `array<real>` of W coordinates. The buffer is an
  `array<Slot>`, where a `Slot` holds a coordinate (`Value`), a parked table
  index (`Index`) or a vertex identity (`Tag`).
- Offsets are counted in slots, not bytes. A region holds:
  - the two simplex tracers (2·W slots);
  - NVERT segment tracers (NVERT·W slots), linear and quadratic policies only;
  - the tags (NVERT+1 slots, or 1 slot for `QuadraticRegressionWithTracer`).
- `Layout.Region` is the region as a value, and `Layout.Concat` of the
  regions is the whole buffer.
- Vertices are identified by their `id`. The source compares vertex pointers,
  and two distinct vertices never share an id here.

## Model

| member | source | states |
|---|---|---|
| BasicPolicies.DummyRefine | include/dice/mesh/basicVertexCoordsPolicies.hxx:38-45 | refine changes neither the new vertex nor the buffer |
| BasicPolicies.MidPointRefine | include/dice/mesh/basicVertexCoordsPolicies.hxx:55-61 | the new vertex is the geometry's midpoint of the two segment vertices, coordinate by coordinate |
| BasicPolicies.TracersBarycenterRefine | include/dice/mesh/basicVertexCoordsPolicies.hxx:72-89 | the new vertex is the wrapped barycenter of the tracers of all incident simplices, taken in the order given |
| BasicPolicies.TracersMean | include/dice/mesh/basicVertexCoordsPolicies.hxx:75-88 | the copy, accumulate, scale and wrap loops compute exactly the wrapped barycenter |
| BasicPolicies.TracersBarycenterIsMean | include/dice/mesh/basicVertexCoordsPolicies.hxx:75-88 | without periodic boundaries the new vertex is the arithmetic mean of the tracers |
| BasicPolicies.TracersBarycenterOrderIndependent | include/dice/mesh/basicVertexCoordsPolicies.hxx:80-87 | without periodic boundaries, any reordering of the incident simplices gives the same new vertex |
| BasicPolicies.TracersBarycenterOfEqualTracers | include/dice/mesh/basicVertexCoordsPolicies.hxx:75-88 | when every simplex has the same tracer, that tracer is the new vertex |
| Mesh.FindSegmentIndex | include/dice/mesh/basicVertexCoordsPolicies.hxx:122 | the index found names a segment of the simplex whose two local vertices are the split segment's vertices |
| Mesh.SplitVertices | include/dice/mesh/basicVertexCoordsPolicies.hxx:926-945 | the loop fills p[0] and p[1] with the vertices of the two halves |
| Mesh.SubSimplicesAtSegment | include/dice/mesh/basicVertexCoordsPolicies.hxx:141-160 | half 0 keeps segment vertex 0 and puts the new vertex where vertex 1 was; half 1 does the reverse; every other vertex is shared by both halves unchanged |
| Geometry.ConsistentMean | include/dice/mesh/basicVertexCoordsPolicies.hxx:720-733 | the origin loop computes the barycenter of the simplex vertices, each moved next to the midpoint |
| Geometry.NonPeriodicBarycenter | include/dice/mesh/basicVertexCoordsPolicies.hxx:720-733 | without periodic boundaries that barycenter is the arithmetic mean, whatever the reference point |
| Geometry.Relative | include/dice/mesh/basicVertexCoordsPolicies.hxx:691-696 | getCoordinates gives a point of dimension W |
| Geometry.RelativeRoundTrip | include/dice/mesh/basicVertexCoordsPolicies.hxx:691-696 | without periodic boundaries, adding the origin back to getCoordinates(origin, x) gives x |
| Arith.BlocksIsProduct | include/dice/mesh/basicVertexCoordsPolicies.hxx:102-105 | n regions of a given stride occupy n times the stride |
| Layout.RegionSlots | include/dice/mesh/basicVertexCoordsPolicies.hxx:131-137 | tracer n, coordinate k sits at n·W+k; segment tracer j, coordinate k at 2·W+j·W+k, before every tag; tag j sits at its own slot after them |
| Layout.ConcatRegion | include/dice/mesh/basicVertexCoordsPolicies.hxx:128-131 | the buffer is nSimplices·stride slots, and simplex i's region is exactly the slots from i·stride to (i+1)·stride |
| Layout.RegionsDisjoint | include/dice/mesh/basicVertexCoordsPolicies.hxx:258-264 | a slot of one simplex's region never coincides with a slot of another simplex's region |
| Layout.ParkIndices | include/dice/mesh/basicVertexCoordsPolicies.hxx:356 | the table index of segment tracer j is parked in its first slot, at j·W of the segment-tracer area; every other slot keeps its value |
| Layout.ReadIndices | include/dice/mesh/basicVertexCoordsPolicies.hxx:384-386 | the indices read back from the parked slots are exactly the ones parked |
| Layout.ResolveRegion | include/dice/mesh/basicVertexCoordsPolicies.hxx:384-389 | a parked region becomes the region whose segment tracers are the table rows named by the parked indices; the rest of the buffer is left as it was |
| Layout.ResolveAll | include/dice/mesh/basicVertexCoordsPolicies.hxx:375-390 | after the second pass every region holds the table rows its indices named, with its tracers and tags untouched |
| LinearPolicy.SetNewVertex | include/dice/mesh/basicVertexCoordsPolicies.hxx:121-125 | the new vertex is the wrapped tracer of the split segment, read from the first simplex |
| LinearPolicy.LinearRegionFits | include/dice/mesh/basicVertexCoordsPolicies.hxx:131-137 | the two tracers, the NVERT segment tracers and the NVERT+1 tags fill one region exactly |
| LinearPolicy.LinearTracerIsMean | include/dice/mesh/basicVertexCoordsPolicies.hxx:163-185 | without periodic boundaries, new simplex tracer n is the arithmetic mean of the vertices of half n |
| LinearPolicy.LinearSegTracerIsMidPoint | include/dice/mesh/basicVertexCoordsPolicies.hxx:189-205 | without periodic boundaries, the new segment tracer towards vertex j is the midpoint of the new vertex and vertex j |
| LinearPolicy.ComputeLinearRegion | include/dice/mesh/basicVertexCoordsPolicies.hxx:141-205 | the loops produce simplex i's region: its two half tracers, its segment tracers, its vertices' tags and the tag of segment vertex 0 |
| LinearPolicy.WriteLinearRegions | include/dice/mesh/basicVertexCoordsPolicies.hxx:128-206 | after the loop over simplices the buffer is the concatenation of every simplex's region |
| LinearPolicy.RefineLinear | include/dice/mesh/basicVertexCoordsPolicies.hxx:116-207 | the new vertex is the wrapped segment tracer, and the buffer holds every region computed from that new vertex |
| QuadraticWeights.ComputeTracerWeights | include/dice/mesh/basicVertexCoordsPolicies.hxx:282-301 | the loop builds the barycentric weights of new tracer n: 1.5/NVERT on the kept endpoint, 0.5/NVERT on the other, 1/NVERT elsewhere |
| QuadraticWeights.TracerWeightsSumToOne | include/dice/mesh/basicVertexCoordsPolicies.hxx:285-301 | those weights sum to 1, so the tracer is a point of the simplex |
| QuadraticWeights.TracerWeightsSwapped | include/dice/mesh/basicVertexCoordsPolicies.hxx:285-294 | half 1's weights are half 0's with the two segment endpoints exchanged |
| QuadraticWeights.SplitMidWeightsSumToOne | include/dice/mesh/basicVertexCoordsPolicies.hxx:274-276 | the split segment's midpoint weights (0.5 on each endpoint) sum to 1 |
| QuadraticWeights.ComputeSegWeights | include/dice/mesh/basicVertexCoordsPolicies.hxx:321-324 | the loop builds the weights of the new segment tracer towards vertex j: midpoint weights plus vertex j, halved |
| QuadraticWeights.SegWeightsSumToOne | include/dice/mesh/basicVertexCoordsPolicies.hxx:321-324 | those weights sum to 1 |
| QuadraticWeights.SegWeightsAtEndpoint | include/dice/mesh/basicVertexCoordsPolicies.hxx:321-324 | towards a segment endpoint the weights are 3/4 on it, 1/4 on the other endpoint, 0 elsewhere |
| QuadraticPolicy.SplitEnds | include/dice/mesh/basicVertexCoordsPolicies.hxx:270-271 | the split segment's two endpoints are distinct local vertices of the simplex |
| QuadraticPolicy.ComputeQuadraticTracers | include/dice/mesh/basicVertexCoordsPolicies.hxx:280-311 | the two new simplex tracers are the wrapped quadratic-simplex positions at the tracer weights of halves 0 and 1 |
| QuadraticPolicy.SimplexFitAt | include/dice/mesh/basicVertexCoordsPolicies.hxx:314-327 | the j-th proposal of a simplex belongs to its vertex j and is the position at the segment-tracer weights towards j |
| ContributionMap.Record | include/dice/mesh/basicVertexCoordsPolicies.hxx:330-351 | a new vertex gets the next index (the map's size), count 1 and its moved fit as sum; a known vertex keeps its index, its count grows by one and the moved fit is added to its sum; no other entry's index, count or sum changes |
| ContributionMap.AddContribution | include/dice/mesh/basicVertexCoordsPolicies.hxx:330-351 | the in-place update of the three containers is one Record step, and the index returned is the vertex's entry |
| ContributionMap.TabulateDistinct | include/dice/mesh/basicVertexCoordsPolicies.hxx:331-335 | distinct vertices are given distinct indices |
| ContributionMap.TabulateHolds | include/dice/mesh/basicVertexCoordsPolicies.hxx:330-351 | a vertex has an entry iff some simplex proposed a value for it; its count is the number of proposals, and its sum is their consistent sum |
| ContributionMap.TabulateStable | include/dice/mesh/basicVertexCoordsPolicies.hxx:343-345 | once a vertex has an index, later proposals never change it |
| ContributionMap.TabulateDense | include/dice/mesh/basicVertexCoordsPolicies.hxx:334-335 | the indices in use are exactly 0 up to the map's size |
| ContributionMap.AverageContributions | include/dice/mesh/basicVertexCoordsPolicies.hxx:366-372 | the averaging loop replaces every sum by the wrapped sum divided by its count |
| ContributionMap.AverageIsMean | include/dice/mesh/basicVertexCoordsPolicies.hxx:366-372 | without periodic boundaries a vertex's average is the arithmetic mean of every value proposed for it |
| QuadraticPolicy.RecordFit | include/dice/mesh/basicVertexCoordsPolicies.hxx:314-359 | after vertex j the table holds every proposal so far, and indices 0 to j hold the table entries of the simplex's vertices |
| QuadraticPolicy.RecordSimplexFits | include/dice/mesh/basicVertexCoordsPolicies.hxx:314-360 | after a simplex the table holds all proposals so far, and the parked indices are those of its NVERT vertices |
| QuadraticPolicy.VisitSimplex | include/dice/mesh/basicVertexCoordsPolicies.hxx:255-360 | simplex i's first-pass region holds its tracers, the final table indices of its vertices and its tags |
| QuadraticPolicy.PassOne | include/dice/mesh/basicVertexCoordsPolicies.hxx:255-361 | after the first pass the table covers every vertex of every simplex, and every region holds its parked indices |
| QuadraticPolicy.PassOneLoop | include/dice/mesh/basicVertexCoordsPolicies.hxx:255-361 | the loop over the simplices leaves the complete contribution table and writes exactly the planned first-pass region of every simplex, in order |
| QuadraticPolicy.IndicesSettled | include/dice/mesh/basicVertexCoordsPolicies.hxx:356 | the index parked for a vertex during the first pass is still that vertex's index in the final table |
| QuadraticPolicy.FinalCovers | include/dice/mesh/basicVertexCoordsPolicies.hxx:384-388 | every vertex of every incident simplex has a table entry (each entry counts at least one proposal), so every parked index can be resolved |
| QuadraticPolicy.ResolvedAreQuadratic | include/dice/mesh/basicVertexCoordsPolicies.hxx:375-389 | resolving the parked regions with the averaged table yields the quadratic regions, whose segment tracers are the averages |
| QuadraticPolicy.RegionEntries | include/dice/mesh/basicVertexCoordsPolicies.hxx:356-359 | segment-tracer slot j of a resolved region holds the average for vertex j, and tag slot j holds vertex j |
| QuadraticPolicy.SharedVertexContinuity | include/dice/mesh/basicVertexCoordsPolicies.hxx:363-389 | two regions whose tag slots name the same vertex carry identical segment tracers for it, even from different simplices |
| QuadraticPolicy.OwnFitAmong | include/dice/mesh/basicVertexCoordsPolicies.hxx:326-351 | every simplex's own proposal for its vertex j is among those averaged for that vertex |
| QuadraticPolicy.SegTracerIsMean | include/dice/mesh/basicVertexCoordsPolicies.hxx:363-388 | without periodic boundaries each resolved segment tracer is the arithmetic mean of every simplex's proposal for its vertex, the simplex's own proposal included |
| QuadraticPolicy.RefineQuadratic | include/dice/mesh/basicVertexCoordsPolicies.hxx:233-392 | the new vertex is the wrapped segment tracer, and the buffer holds every quadratic region with the averaged segment tracers |
| FitPoints.InsertAscending | include/dice/mesh/basicVertexCoordsPolicies.hxx:842-845 | inserting a vertex into the set keeps it ordered by increasing id |
| FitPoints.InsertIds | include/dice/mesh/basicVertexCoordsPolicies.hxx:842-845 | the set after insertion holds exactly its previous vertices and the inserted one |
| FitPoints.AscendingCount | include/dice/mesh/basicVertexCoordsPolicies.hxx:839-861 | a set ordered by increasing id holds no vertex twice |
| FitPoints.PresentCount | include/dice/mesh/basicVertexCoordsPolicies.hxx:841-851 | one tracer point is added per non-null neighbour |
| FitPoints.OppositesHoldIds | include/dice/mesh/basicVertexCoordsPolicies.hxx:839-861 | the set iterated at the end holds each distinct opposite vertex exactly once |
| FitPoints.VisitNeighbors | include/dice/mesh/basicVertexCoordsPolicies.hxx:839-854 | the neighbour loop adds the relative tracer of every non-null neighbour and collects their opposite vertices in the set |
| FitPoints.AppendRelatives | include/dice/mesh/basicVertexCoordsPolicies.hxx:856-861 | each visited point is appended in order, relative to the origin |
| FitPoints.GatherPoints | include/dice/mesh/basicVertexCoordsPolicies.hxx:825-861 | the points are the tracer, any extra point, the vertices, the neighbour tracers and the set's vertices, all relative to the origin |
| FitPoints.PointCount | include/dice/mesh/basicVertexCoordsPolicies.hxx:825-861 | the fit receives 1 + extra + NVERT + non-null neighbours + distinct opposite vertices points |
| FitPolicy.FirstPointCount | include/dice/mesh/basicVertexCoordsPolicies.hxx:825-870 | the first fit of a simplex has 1 + NVERT + non-null neighbours + distinct opposites points, and refine stops exactly when that is below NCOEFS |
| FitPolicy.HalfPointCount | include/dice/mesh/basicVertexCoordsPolicies.hxx:968-1003 | a half's fit has one point more (the new vertex), so it is never under-determined when the first fit was not |
| FitPolicy.ReportsUnique | include/dice/mesh/basicVertexCoordsPolicies.hxx:863-870 | the inputs decide the outcome: either every fit is determined, or the first under-determined simplex is reported |
| FitPolicy.ComputeOrigins | include/dice/mesh/basicVertexCoordsPolicies.hxx:720-733 | origin[i] is the barycenter of simplex i's vertices, moved next to the midpoint |
| FitPolicy.FitStep | include/dice/mesh/basicVertexCoordsPolicies.hxx:823-890 | simplex i stops refine iff its first fit is under-determined; otherwise its projection is added to the running sum |
| FitPolicy.FitNewVertex | include/dice/mesh/basicVertexCoordsPolicies.hxx:760-907 | the outcome is the one the inputs decide, and when refine goes on the result is the sum of projections divided by nSimplices |
| FitPolicy.AddInPlace | include/dice/mesh/basicVertexCoordsPolicies.hxx:889-890 | the projection, moved back by the origin, is added to result |
| FitPolicy.ScaleInPlace | include/dice/mesh/basicVertexCoordsPolicies.hxx:905-907 | result is multiplied by fac = 1/nSimplices |
| FitPolicy.WrapInPlace | include/dice/mesh/basicVertexCoordsPolicies.hxx:1021 | result is wrapped into the periodic domain |
| FitPolicy.ExactProjection | include/dice/mesh/basicVertexCoordsPolicies.hxx:885-890 | when the fitted surface passes through the point it projects, a simplex's projection plus its origin is the segment midpoint again (no periodic boundaries) |
| FitPolicy.FitVertexOfExactSurface | include/dice/mesh/basicVertexCoordsPolicies.hxx:885-907 | with such surfaces and no periodic boundaries the new vertex is exactly the midpoint of the split segment |
| FitPolicy.FitVertexOrderIndependent | include/dice/mesh/basicVertexCoordsPolicies.hxx:760-907 | any reordering of the incident simplices gives the same new vertex |
| FitPolicy.ComputeHalfTracer | include/dice/mesh/basicVertexCoordsPolicies.hxx:947-1012 | the tracer of half n is the origin plus the projection of the origin onto the fit made in that half's base |
| FitPolicy.FitRegionLayout | include/dice/mesh/basicVertexCoordsPolicies.hxx:1010-1018 | a region is 2·W+1 slots: tracer of half 0, tracer of half 1, then the tag of segment vertex 0 |
| FitPolicy.ComputeFitRegion | include/dice/mesh/basicVertexCoordsPolicies.hxx:921-1018 | the second pass produces simplex i's region from both half fits |
| FitPolicy.WriteFitRegions | include/dice/mesh/basicVertexCoordsPolicies.hxx:921-1019 | after the second pass the buffer is the concatenation of every simplex's region |
| FitPolicy.RefineFit | include/dice/mesh/basicVertexCoordsPolicies.hxx:698-1022 | refine stops at the first under-determined simplex and leaves the buffer untouched; otherwise the new vertex is the wrapped mean projection and the buffer holds every half-fit region |

## Left out

- The quadratic simplex (`QuadraticSimplexT`), the surface fitter
  (`SurfaceFitterT`: addPoint, setTangentSpaceBase, fit, projectToSurface,
  NCOEFS), the mesh's `getBaseVectors` and the periodic geometry are not part
  of this model. They are parameters holding arbitrary functions.
- Floating point is modelled by real numbers. Rounding and the `CT` type
  (double, long double or float128) are not modelled.
- Every policy computes a region as a value and then copies it into the
  buffer. The source writes the same slots in place as it computes them.
  No computation reads the buffer, so the final contents are the same.
- Sizes and offsets are in slots, not bytes. `sizeof`, pointer casts and the
  char-based addressing of the buffer are not modelled.
- The quadratic policy parks a table index in a coordinate slot by converting
  an int to a double and back. The model stores it as an `Index` slot.
- `contribCoord` is a sequence of W-vectors rather than one flat vector
  indexed by `index·NDIM_W`. Its `reserve` calls are not modelled.
- `Layout.ReadIndices` reads all of a region's indices before any slot is
  overwritten. The source reads and overwrites slot by slot; each read happens
  before its own slot is written, so the result is the same.
- `std::set<Coord*>` iterates in address order. The model iterates in
  ascending vertex id. Either order yields each distinct opposite vertex once.
  The point order only reaches the fitter, which is a parameter here.
- Vertex and coordinate pointers are compared by vertex id.
- `FitPolicy.RefineFit`: the source calls `exit(-1)` when a fit is
  under-determined. The model returns `UnderDetermined(i)` instead, naming
  the first such simplex, and says nothing about `result` on that path.
- `FitPolicy.RefineFit`: `barycenter` and the per-simplex `deformation` are
  computed but never used. The line adding the deformation to
  `advectedMidPoint` is commented out, so `advectedMidPoint` is the midpoint.
  The model uses the midpoint directly and leaves both out.
- `FitPolicy.RefineFit`: the commented-out `refit` calls and the `debug` /
  `debugI` output are not modelled.
- Console output (`PRINT_SRC_INFO`, `glb::console`, `printf`) is not modelled.
- Variable-length local arrays (`Fit fit[nSimplices]`,
  `origin[nSimplices][NDIM_W]`) are sequences.
- `Geometry.Relative` states only the dimension of its result. What it means is
  stated for a non-periodic domain by `Geometry.RelativeRoundTrip`. A periodic
  `correctCoordsDiff` is a parameter.
- The `_BAD` and `_OLD` variants of the quadratic policies, `ddBackend.hxx` and
  the Plummer static potentials are not part of this model.
