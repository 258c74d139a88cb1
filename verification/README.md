# Sonar survey coverage planner: verified model

A Dafny model of the three parts of the planner that carry its guarantees.

**The coverage engine** (`Plane`, `Tracks`, `Rings`, `Boxes`, `Rasters`, `Coverage`). A boundary polygon is
rasterised, every cell centre inside it (even-odd ray cast) is tested against the tracks (clamped
point-to-segment distance), and the uncovered cells are boxed into a gap and a recommended line. The loops are
methods, each proved equal to a specification over cell sets, edge parities or nearest points. On top of them:

- `Triangles`: what containment and area mean for a triangle, a rectangle and, through the fan of its triangles, for
  every ring. `Holes`: what holes take away.
- `Reports`: what a score reports and exactly when there is none.
- `Resurvey`: sailing the recommended line closes the gap exactly when the swath is at least the shorter side
  of the gap box less one resolution. With any other swath, what it covers is stated exactly, and repeating it
  settles after as many rounds as there are uncovered cells.
- `Headings`: which way the generated lines run, and when there are none.
- `Transects`: which cells a generated plan leaves uncovered when it is scored, exactly, and when it leaves none.
- `GridError`: what a verdict on a centre says about every point of the cell.
- `Scores`: ratios, hull, monotonicity, and independence of track order and of how a track is drawn.
- `Rings`: chord splitting and its corollaries, and containment within the half-open bounding box.
- `Grounds`: how much of a boundary the scores can see. Two boundaries always score alike exactly when they offer
  the same inside cell centres, the same middle of the bounding box and the same area.

**The workflow** (`StateGraphs`, `Records`, `Workflow`, `Backend`). Areas, plans, runs and gaps are tables; a
request is cut at its database statements, so it waits with what it read while any other request runs.
`Workflow.Step` is one statement of one request and `Workflow.After` any interleaving of any number of them.
`Writes` says what each step writes, and `Walks` what a request does that no other one interrupts.
`Backend.Planner` is the same as code that overwrites tables in place: every method is one `Step` and keeps every
invariant (`Soundness`), and `Import`, `TransitionRun`, `Transition` and `Detect` serve whole requests. `Atomic` holds
all services against single operations on the tables, with and without interruption. `Requests` is what the handlers
let through; the safety theorems do without it, and the runs that show something reachable respect it. Over every
interleaving, starting from the seeded planner (`Seed`) or any state with the same properties:

- `Growth`: what a request read stays a truthful earlier version of the row; states never recur.
- `Safety`: cross-table safety and the unique indexes.
- `Trails`: reviews are append-only, histories are bounded paths, one expected version commits once.
- `Flows`: the histories that gaps and runs can have.
- `Inputs`: stored input is input that was accepted.
- `Cache`, `Stale` and `SeedStale`: detection is a faithful cache as long as the boundary offers the same ground; a
  boundary edit can make a later hit stale exactly when it does not.
- `Frozen`: locked plans and archived areas do not change as long as clients expect versions they had observed;
  a single edit is harmless exactly when it expects no later version than it reads.

**The rate limiter** (`RateLimiter`). The sweep is invisible, keys do not interfere, and an interval as long as
the window admits at most `2 * capacity - 1` requests of a key when clock readings arrive in order, and at most
`3 * capacity - 2` when they are out of order by up to one window. Both bounds are attained.

All arithmetic is exact: `float64` is `real`, `int` is unbounded, and distances are compared squared.

## Where the code and its documentation differ

The model follows the code.

- `gb-532.md` says a run can be rejected from any step; `runTransitions` has no edge from `processed` to
  `rejected`. A run can still be rejected exactly when it was not processed (`Flows.RejectableExactly`).
- `gb-532.md` routes false positives through `resurveyed`; `gapTransitions` goes from `false_positive` straight
  to `closed`. A closed gap has three reviews and was a false positive, or four and was resurveyed
  (`Flows.ClosedGaps`), and both ways are open to every detected gap (`Flows.WaysToClose`).
- `README.md` says fragments below the resolution threshold are counted; the code reports 1 exactly when the
  whole gap box spans fewer than four cells (`Scores.HullExact`).
- Identical inputs are meant to be idempotent. The cache key leaves the boundary out, so after an area edit a
  detection can return the gap of the former boundary; `SeedStale.CacheCanBeStale` is such a run. An edit that
  replaces the boundary can lead to a stale hit exactly when the old boundary can be analysed at the resolution and
  the new one offers other ground (`Stale.BoundaryEditStales`); drawing the same polygon otherwise never does
  (`Stale.RedrawingIsHarmless`).
- Locked plans are meant to be copied, not changed. The update tests only the version, so a client that sends a
  version ahead of the one it could have seen can change a plan that was locked after the request's own read;
  `Frozen.FrozenExactly` says exactly when. The same holds for archived areas (`Frozen.ArchivedExactly`).

## Model

| member | source | states |
|---|---|---|
| Plane.ProjectionIsNearest | backend/internal/geometry/coverage.go:301-310 | the clamped projection is a point of the segment and no point of the segment is nearer, degenerate segments included |
| Plane.SegmentReachIsPointwise | backend/internal/geometry/coverage.go:285 | a segment is within half a swath exactly when some point of it is |
| Plane.SegmentReachReversed | backend/internal/geometry/coverage.go:301-310 | endpoint order does not matter |
| Plane.SegmentReachSplit | backend/internal/geometry/coverage.go:301-310 | splitting a segment at any of its points reaches the same points |
| Plane.ReachWidens | backend/internal/geometry/coverage.go:312-314 | triangle inequality: a point near a reached point is reached by a swath wider by twice the distance |
| Tracks.CoveragePasses | backend/internal/geometry/coverage.go:279-299 | the early-exit loops count the tracks of which some segment is in range |
| Tracks.TrackCoversPointwise | backend/internal/geometry/coverage.go:283-293 | a track sweeps a point exactly when some point of its polylines is within half its swath |
| Tracks.PassesPermute | backend/internal/geometry/coverage.go:281 | the order of the tracks does not change the passes |
| Tracks.PassesMonotone | backend/internal/geometry/coverage.go:279-299 | more tracks and wider swaths never lower the passes |
| Tracks.TrackLinesPermute | backend/internal/geometry/coverage.go:283 | the order of the lines inside a track does not matter |
| Tracks.LineCoversReversed | backend/internal/geometry/coverage.go:284-289 | a line sailed the other way sweeps the same points |
| Tracks.LineCoversSplit | backend/internal/geometry/coverage.go:284-289 | a vertex inserted on a segment changes nothing |
| Rings.RingContains | backend/internal/geometry/coverage.go:266-277 | the toggling loop is the parity of the edges that meet the rightward ray; the empty ring contains nothing |
| Rings.RingArea | backend/internal/geometry/coverage.go:245-252 | the loop over (index, next) is half the sum of cross products around the ring |
| Rings.CrossesSymmetric | backend/internal/geometry/coverage.go:269-271 | an edge meets the ray whichever of its ends is called current |
| Rings.MeetBetween | backend/internal/geometry/coverage.go:271 | the crossing abscissa lies between the edge's endpoints |
| Rings.ChordSplits | backend/internal/geometry/coverage.go:245-277 | a chord splits containment by exclusive or and signed area by addition, for every ring, chord and point |
| Rings.RotationInvariant | backend/internal/geometry/coverage.go:245-277 | the starting vertex does not matter |
| Rings.ReversalFlipsArea | backend/internal/geometry/coverage.go:245-277 | reversing a ring keeps containment and negates the area |
| Rings.ClosedRingAgrees | backend/internal/geometry/coverage.go:245-277 | a ring closed by repeating its first vertex is the same region with the same area |
| Rings.StraddlesTelescope | backend/internal/geometry/coverage.go:270 | left of every vertex, the parity of crossings of a path depends on its two ends only |
| Rings.InsideImpliesBox | backend/internal/geometry/coverage.go:266-277 | a contained point lies in the half-open bounding box of the vertices |
| Triangles.MeetIsOnEdge | backend/internal/geometry/coverage.go:271 | a straddling edge passes through the point at which it is said to meet the horizontal |
| Triangles.CrossesBySide | backend/internal/geometry/coverage.go:270-271 | an edge meets the ray exactly when it goes up with the point on its left, or down with the point strictly on its right |
| Triangles.TriangleContains | backend/internal/geometry/coverage.go:266-277 | a triangle contains exactly the points on the inner side of its three edges, of the edges themselves the left and lower ones; a flat one contains none |
| Triangles.TriangleInterior | backend/internal/geometry/coverage.go:266-277 | off the edge lines that means strictly on the same side of all three edges, whichever way round the triangle is walked |
| Triangles.TriangleArea | backend/internal/geometry/coverage.go:245-252 | the signed area of a triangle is half the cross product of its sides |
| Triangles.InsideIsOddFan | backend/internal/geometry/coverage.go:266-277 | any ring contains the points that an odd number of the triangles of its fan contain |
| Triangles.AreaIsFanArea | backend/internal/geometry/coverage.go:245-252 | the signed area of any ring is the sum of the signed areas of the triangles of its fan |
| Triangles.BoxContains | backend/internal/geometry/coverage.go:245-277 | a rectangle contains its half-open box and has width times height as its area |
| Boxes.GrowKeepsHull | backend/internal/geometry/coverage.go:171-174 | one round of min and max extends the least box by one part |
| Boxes.HullIsUnique | backend/internal/geometry/coverage.go:151-152 | the four accumulators end at the one least box, whatever the order |
| Boxes.HullIsLeast | backend/internal/geometry/coverage.go:171-174 | any box around the parts contains the hull |
| Coverage.PointInPolygon | backend/internal/geometry/coverage.go:254-264 | in the exterior ring and in no hole |
| Holes.HoleSubtracts | backend/internal/geometry/coverage.go:254-264 | a further hole takes exactly its points away |
| Holes.HoleLowersArea | backend/internal/geometry/coverage.go:112-121 | and its area, down to zero |
| Holes.NoCellInHole | backend/internal/geometry/coverage.go:155-161 | no cell with its centre in a hole is counted or reported as uncovered |
| Holes.HoleTakesCells | backend/internal/geometry/coverage.go:145-177 | a hole within the bounding box removes exactly the cells with their centre in it, from the sample and from the gap, and leaves no score exactly when it takes them all |
| Coverage.PolygonArea | backend/internal/geometry/coverage.go:112-121 | exterior area less the holes' areas, never negative |
| Coverage.PolygonBounds | backend/internal/geometry/coverage.go:232-243 | the least box of all vertices of all rings, absent without vertices |
| Coverage.CountCells | backend/internal/geometry/coverage.go:150-177 | the double loop's counts are the sizes of the inside, covered and doubly covered cell sets, its box the hull of the uncovered cells |
| Coverage.CalculateCoverage | backend/internal/geometry/coverage.go:133-194 | every error branch in order, and otherwise the ratios and artifacts of those sets |
| Rasters.Raster.TallyCounts | backend/internal/geometry/coverage.go:162-175 | one inside cell moves the counters and the hull exactly as its passes say |
| Rasters.CellIsSquare | backend/internal/geometry/coverage.go:155-174 | the square put into the hull is the grid cell around the centre |
| Scores.RatiosInRange | backend/internal/geometry/coverage.go:181-183 | overlap, coverage and gap are the shares of the inside cells swept by two tracks, by one, by none; 0 <= overlap <= coverage <= 1, coverage + gap = 1, gap zero exactly when nothing is uncovered |
| Scores.SweptCells | backend/internal/geometry/coverage.go:162-175 | a cell counts as covered when some track sweeps its centre, as overlapping when two different ones do, as uncovered when none does |
| Scores.OverlapExactly | backend/internal/geometry/coverage.go:166-182 | the overlap ratio is zero exactly when no inside centre is swept by two tracks |
| Scores.OneTrackNoOverlap | backend/internal/geometry/coverage.go:166-182 | one track alone has overlap ratio 0 |
| Scores.DoubledTracks | backend/internal/geometry/coverage.go:162-183 | scoring every track twice makes overlap equal to coverage and leaves coverage as it was |
| Scores.HullExact | backend/internal/geometry/coverage.go:316-346 | the hull exists exactly when the gap ratio is positive, is a whole rectangle of cells holding every uncovered cell and at least their total area, is the reported ring, and is flagged as a fragment exactly below four cells |
| Scores.SamePassesSameScore | backend/internal/geometry/coverage.go:133-194 | the score depends on the tracks only through the passes over each point |
| Scores.ScorePermutes | backend/internal/geometry/coverage.go:133-194 | the order of the tracks changes no field of the result |
| Scores.ScoreDependsOnSweep | backend/internal/geometry/coverage.go:133-194 | a track may be replaced by any other that sweeps the same points |
| Scores.ScoreMonotone | backend/internal/geometry/coverage.go:162-183 | more tracks and wider swaths never lower coverage or overlap and never add uncovered cells |
| AxisLines.HorizontalReach | backend/internal/geometry/coverage.go:301-310 | beside a horizontal segment only the height difference counts |
| AxisLines.VerticalReach | backend/internal/geometry/coverage.go:301-310 | beside a vertical segment only the sideways difference counts |
| Grounds.ScoreSeesGround | backend/internal/geometry/coverage.go:133-194 | a score is a function of the inside cell centres, the middle of the bounding box, the area and the tracks, and exists exactly when the boundary can be analysed |
| Grounds.TellApart | backend/internal/geometry/coverage.go:133-194 | two boundaries of different ground are told apart by one track of positive swath |
| Grounds.AlikeExactly | backend/internal/geometry/coverage.go:133-194 | two boundaries score alike with every track set if and only if they offer the same ground, or the first cannot be analysed |
| Grounds.SameRegionsSameGround | backend/internal/geometry/coverage.go:232-277 | boundaries whose rings have the same vertices, inside points and absolute area offer the same ground |
| Grounds.RedrawnIsSameRegion | backend/internal/geometry/coverage.go:245-277 | a ring rotated, reversed, closed or opened, any number of times in any order, is the same region |
| Grounds.RedrawnSameGround | backend/internal/geometry/coverage.go:232-277 | a boundary whose rings are redrawn in those ways offers the same ground |
| Reports.NoGapReport | backend/internal/geometry/coverage.go:316-330 | without a gap ring and line are the middle of the bounding box |
| Reports.RecommendedLine | backend/internal/geometry/coverage.go:331-337 | with a gap the line runs along the longer side of the reported box, along x if it is square, halfway across the other, from one resolution before it to one behind it |
| Reports.CellsCounted | backend/internal/geometry/coverage.go:145-149 | as many columns and rows as it takes to cover the box, and no more |
| Reports.Refusals | backend/internal/geometry/coverage.go:133-160 | each refusal exactly when it applies and no earlier one does: resolution not positive, no tracks, all vertices on one upright or level line, more than 60000 cells, no centre inside |
| Reports.AreaNeedsWidth | backend/internal/geometry/coverage.go:112-121 | a boundary with a positive area is never refused as flat |
| Resurvey.RecommendedReachesGap | backend/internal/geometry/coverage.go:331-337 | the recommended line reaches every uncovered centre exactly from the stated swath on |
| Resurvey.ResurveyClosesGap | backend/internal/geometry/coverage.go:316-347 | scoring again with the recommended line as one more track gives gap ratio 0 if and only if its swath is at least the shorter side of the gap box less the resolution |
| Resurvey.LineLeaves | backend/internal/geometry/coverage.go:331-337 | for any swath the recommended line leaves exactly the uncovered centres farther than half a swath from the middle of the shorter side |
| Resurvey.ResurveyProgress | backend/internal/geometry/coverage.go:178-194 | scoring again leaves exactly those; the gap ratio falls if and only if some uncovered centre is nearer, and otherwise ratio, box and recommendation stay the same |
| Resurvey.SurveysSettle | backend/internal/geometry/coverage.go:316-347 | following the recommendation over and over settles within as many rounds as there are uncovered cells: the gap is closed or nothing more will be covered |
| Transects.LineCountExact | backend/internal/service/transect_plan.go:77-83 | line k is emitted exactly when its offset is below the extent |
| Transects.Generate | backend/internal/service/transect_plan.go:70-87 | both stepping loops end and emit exactly the lines at half a spacing plus whole spacings, with both refusals |
| Headings.LinesRun | backend/internal/service/transect_plan.go:74-84 | every line runs east and west across the width of the box when the heading is within 45 degrees of 90 or 270, lower end included, and north and south across its height otherwise; it lies half a spacing plus whole spacings in, and the next one would not fit |
| Headings.Refusals | backend/internal/service/transect_plan.go:70-87 | when no lines are generated: no box, a spacing above both sides, or half a spacing that does not fit across |
| Headings.HalfTurn | backend/internal/service/transect_plan.go:74-84 | turning the heading by 180 degrees keeps the lines |
| Headings.QuarterTurn | backend/internal/service/transect_plan.go:74-84 | turning it by 90 degrees over the transposed box transposes the lines |
| Transects.LinesSweepNear | backend/internal/service/transect_plan.go:76-84 | the lines sweep exactly the points of the box within half a swath of some offset, whatever the swath |
| Transects.TransectsSweep | backend/internal/service/transect_plan.go:76-84 | with swath at least spacing the lines sweep exactly the points of the box up to the last line plus half a swath |
| Transects.ContainedInBounds | backend/internal/geometry/coverage.go:232-264 | a contained point lies in the polygon's half-open bounding box |
| Transects.PlanThenScore | backend/internal/service/transect_plan.go:74-84 | a scored plan leaves uncovered exactly the inside cells farther than half a swath from every line; with the swath at least the spacing these are the ones beyond the last line plus half a swath, and there are none at twice the spacing, none when one spacing per line fills the extent |
| GridError.CellsApart | backend/internal/geometry/coverage.go:155-158 | a point in the interior of a cell is in no other cell |
| GridError.CellsTile | backend/internal/geometry/coverage.go:145-158 | the cells tile the bounding box: every point lies in a cell of the grid and in the interior of no other |
| GridError.CellSandwich | backend/internal/geometry/coverage.go:155-176 | a swept centre means every point of the cell is swept by the widened swath, an unswept one that no point is swept by the narrowed swath |
| GridError.ResolutionSandwich | backend/internal/geometry/coverage.go:155-176 | the same with a whole resolution of slack |
| GridError.ZeroGapCoversRegion | backend/internal/geometry/coverage.go:178-183 | gap ratio 0 puts every point of every inside cell within the widened swath of some track |
| CacheKey.SortedAscends | backend/internal/geometry/coverage.go:197-198 | the copied checksums are sorted |
| CacheKey.AtMostIsLexicographic | backend/internal/geometry/coverage.go:197-198 | the order of the sort decides at the first difference |
| CacheKey.KeyIsCanonical | backend/internal/geometry/coverage.go:196-208 | two inputs share a key exactly when area, CRS, algorithm and resolution agree and the checksums agree as multisets |
| CacheKey.UniqueIds | backend/internal/service/coverage_gap.go:144-154 | no duplicates, the same ids, in the order of first occurrence |
| CacheKey.UniquedIsUnique | backend/internal/service/coverage_gap.go:144-154 | those three facts leave one possible result |
| StateGraphs.ParseRunState | backend/internal/constants/run_state.go:39-45 | the state of that name, and none exactly for unknown names |
| StateGraphs.ParseGapState | backend/internal/constants/gap_severity.go:44-50 | the state of that name, and none exactly for unknown names |
| StateGraphs.NamesOfStates | backend/internal/constants/run_state.go:7-14 | the names of the states |
| StateGraphs.RunPathClimbs | backend/internal/constants/run_state.go:16-23 | every edge of the run graph climbs a rank, so no state recurs |
| StateGraphs.GapPathClimbs | backend/internal/constants/gap_severity.go:21-28 | every edge of the gap graph climbs a rank, so no state recurs |
| Growth.SameStateSameGap | backend/internal/repository/coverage_gap.go:62-71 | no ABA: a gap found in the state in which it was read is the gap that was read |
| Growth.SameStateSameRun | backend/internal/repository/sonar_run.go:68-77 | the same for runs |
| Growth.ReviewExtendsRow | backend/internal/service/coverage_gap.go:129-130 | a state match at the update makes the explanation that was read the explanation of the row |
| Growth.CountCheckIsExact | backend/internal/service/coverage_gap.go:62-64 | the count check holds exactly when every requested run exists, and then the loaded runs are the requested ones |
| Growth.CallStable | backend/internal/service/coverage_gap.go:58-80 | what a waiting request relies on survives every change of the tables |
| Growth.StepKeeps | backend/internal/service/coverage_gap.go:113-138 | every statement keeps what all waiting requests rely on and only moves rows to later versions |
| Growth.RunKeeps | backend/internal/service/coverage_gap.go:113-138 | the same from any state of any interleaving to any later one |
| Safety.RunMoveAccounted | backend/internal/service/sonar_run.go:90-119 | a committed transition keeps invalid navigation out of processing |
| Safety.NewGapSafe | backend/internal/service/coverage_gap.go:58-80 | a new gap's sources are distinct processed or superseded runs of its area |
| Safety.StepSafe | backend/internal/service/sonar_run.go:43-76 | every statement keeps run and gap rows safe |
| Safety.StepUnique | backend/internal/model/sonar_run.go:13-20 | every statement keeps area codes, run codes, run checksums and cache keys unique |
| Safety.RunSafeThroughout | backend/internal/service/sonar_run.go:43-112 | both hold over every interleaving |
| Safety.SourcesOfEveryGap | backend/internal/service/coverage_gap.go:58-80 | each source of each gap is processed or superseded, of the gap's area, on a locked plan, not of invalid navigation, in every reachable state |
| Trails.ReviewExtendsTrail | backend/internal/service/coverage_gap.go:129-130 | a committed review appends its note and its state |
| Trails.StepTrails | backend/internal/repository/coverage_gap.go:62-71 | every statement keeps explanation, version and state equal to what the committed history makes of them |
| Trails.TrailThroughout | backend/internal/service/coverage_gap.go:113-138 | whatever versions are expected, explanation = detection text and then the notes in commit order, over every interleaving |
| Trails.NothingIsLost | backend/internal/service/coverage_gap.go:113-138 | measurements never change and an explanation only grows at its end |
| Trails.HistoriesAreBounded | backend/internal/constants/run_state.go:16-23 | at most four commits per gap and per run, fewer for a run seeded further along |
| Trails.CommitMovesOn | backend/internal/repository/sonar_run.go:68-77 | a conditional update commits only on the expected version and leaves the next one, in all four tables |
| Trails.AtMostOneCommit | backend/internal/repository/coverage_gap.go:62-71 | of all requests expecting one version of one row at most one commits; later ones are refused |
| Flows.PathsToClosed | backend/internal/constants/gap_severity.go:21-28 | the paths of the gap graph from detected to closed are exactly two |
| Flows.ClosedGaps | backend/internal/constants/gap_severity.go:21-28 | in every reachable state a closed gap went through exactly one of them: false positive and not resurveyed, or accepted and resurveyed |
| Flows.PathTaken | backend/internal/service/coverage_gap.go:113-138 | every path of the gap graph is taken in some continuation, by requests in range |
| Flows.WaysToClose | backend/internal/service/coverage_gap.go:113-138 | a detected gap can be closed in those two ways and no other, both by requests in range |
| Flows.RejectableExactly | backend/internal/service/sonar_run.go:90-119 | some continuation, and one of requests in range, rejects a run if and only if it is neither processed nor superseded |
| Flows.RejectedRunsWereNotProcessed | backend/internal/repository/sonar_run.go:68-77 | in every reachable state no rejected run has been processed |
| Flows.PathsOfRuns | backend/internal/constants/run_state.go:16-23 | the paths of the run graph from imported are exactly the beginnings of imported, quality checked, processing, processed, superseded, and the three ways to be rejected |
| Flows.ImportedRuns | backend/internal/service/sonar_run.go:90-119 | in every reachable state an imported run has the history that belongs to its state: a processed one was quality checked and processing |
| Flows.RunPathTaken | backend/internal/service/sonar_run.go:90-119 | every path of the run graph is taken in some continuation, by requests in range, unless it quality checks invalid navigation |
| Flows.WaysOfRuns | backend/internal/service/sonar_run.go:90-119 | a freshly imported run of valid navigation can have exactly those histories |
| Cache.NewGapFaithful | backend/internal/service/coverage_gap.go:96-105 | a new gap holds the score of what its detection saw, filed under the key of what it saw |
| Cache.SameChecksumsSameScore | backend/internal/service/coverage_gap.go:65-86 | with unique checksums, equal checksum multisets mean the same runs and the same score |
| Cache.SameKeyExactly | backend/internal/service/coverage_gap.go:81-85 | two detections ask for one key if and only if they agree in area, coordinate system, algorithm, resolution and set of runs |
| Cache.FaithfulThroughout | backend/internal/service/coverage_gap.go:85-105 | every stored gap stays faithful over every interleaving |
| Cache.HitIsFresh | backend/internal/service/coverage_gap.go:85-88 | in every reachable state a hit is a gap of the requested area, algorithm, resolution and runs, and its ratios and geometry are those of a fresh computation whenever the boundary it was computed from offers the ground of the area's boundary |
| Stale.StaleMeansOtherGround | backend/internal/service/coverage_gap.go:84-88 | a stale hit is possible only on a boundary of other ground |
| Stale.OtherGroundCanGoStale | backend/internal/service/coverage_gap.go:84-105 | on any other ground some run detects, edits the boundary and detects again with a stale hit, whatever else the tables hold and whoever else is waiting |
| Stale.BoundaryEditStales | backend/internal/geometry/coverage.go:196-208 | replacing a boundary can make a later hit stale if and only if the old boundary can be analysed at the resolution and the new one offers other ground |
| Stale.RedrawingIsHarmless | backend/internal/geometry/coverage.go:196-208 | a boundary whose rings were rotated, reversed, closed or opened, in any combination, makes no hit stale at any resolution |
| Stale.BoundaryEditStalesInRange | backend/internal/geometry/coverage.go:196-208 | the same if and only if for runs of requests that the handlers let through, as long as a run code in range is free |
| SeedStale.OneCellScore | backend/internal/geometry/coverage.go:133-194 | a boundary of one cell scores gap 0 or 1 by the passes over its centre |
| SeedStale.CacheCanBeStale | backend/internal/geometry/coverage.go:196-208 | a run from the seed in which a hit returns gap 0 where a fresh computation gives 1, after the boundary was edited |
| Frozen.PrudentEditSpares | backend/internal/service/transect_plan.go:95-114 | an edit that expects no later version than it read commits on nothing but the row it read |
| Frozen.FrozenThroughout | backend/internal/service/transect_plan.go:95-132 | if every edit expects a version observed before it began, no interleaving changes a locked plan or an archived area |
| Frozen.FrozenExactly | backend/internal/repository/transect_plan.go:51-61 | an accepted plan edit can change a locked plan in some continuation, and in one of requests in range, if and only if it expects a later version than it read |
| Frozen.ArchivedExactly | backend/internal/repository/survey_area.go:50-60 | the same for area edits and archived areas |
| Inputs.AreaChecks | backend/internal/service/survey_area.go:99-112 | when an area is accepted and what it is refused for otherwise |
| Inputs.ProjectedExactly | backend/internal/geometry/coverage.go:47-56 | a coordinate system is accepted when it is named and mentions no geographic one |
| Inputs.StepChecked | backend/internal/service/survey_area.go:61-97 | every statement keeps stored and waiting input such as it was accepted |
| Inputs.DetectionsAreWellFormed | backend/internal/service/coverage_gap.go:47-95 | so that in every reachable state no detection is refused for malformed lines or boundaries or for a flat boundary |
| Soundness.StepSound | backend/internal/service/coverage_gap.go:113-138 | every step of every request keeps all invariants together |
| Soundness.SoundThroughout | backend/internal/service/coverage_gap.go:113-138 | so does every interleaving |
| Seed.SeedIsSound | backend/internal/config/config.go:110-131 | the seeded planner satisfies everything the run theorems start from |
| Seed.SeededRuns | backend/internal/config/config.go:110-131 | from the seed, every interleaving keeps rows safe, keys unique, trails kept, the cache faithful and input checked |
| Atomic.CreateAreaServed | backend/internal/service/survey_area.go:61-73 | creating an area does what its operation does |
| Atomic.UpdateAreaServed | backend/internal/service/survey_area.go:75-97 | an uninterrupted area update does exactly what its single operation on the tables does, refusals and their order included |
| Atomic.CreatePlanServed | backend/internal/service/transect_plan.go:40-63 | the same for a new plan |
| Atomic.UpdatePlanServed | backend/internal/service/transect_plan.go:95-114 | the same for a plan update |
| Atomic.LockPlanServed | backend/internal/service/transect_plan.go:116-132 | the same for a lock |
| Atomic.CopyPlanServed | backend/internal/service/transect_plan.go:134-148 | the same for a copy |
| Atomic.ImportServedAtOnce | backend/internal/service/sonar_run.go:43-76 | the same for an import |
| Atomic.TransitionRunServed | backend/internal/service/sonar_run.go:90-121 | the same for a run transition |
| Atomic.TransitionGapServed | backend/internal/service/coverage_gap.go:113-138 | the same for a gap transition |
| Atomic.DetectServedAtOnce | backend/internal/service/coverage_gap.go:47-111 | the same for a detection, from the checks in their order to the recorded measurements |
| Atomic.DefaultResolution | backend/internal/service/coverage_gap.go:81-84 | a detection that leaves the resolution out is answered as the same one with the area's resolution filled in |
| Atomic.CommitsAreAtomic | backend/internal/repository/coverage_gap.go:62-71 | in every reachable state, whatever ran in between, a transition, lock or import that commits has the effect its operation would have at that moment, and so has an update that expects no later version than it read |
| Backend.Planner.CreateArea | backend/internal/service/survey_area.go:61-73 | one step that keeps every invariant: geometry checks, unique code, new draft area |
| Backend.Planner.BeginAreaEdit | backend/internal/service/survey_area.go:75-89 | one step that keeps every invariant: the read and the guards of an area update |
| Backend.Planner.UpdateArea | backend/internal/repository/survey_area.go:50-60 | one step that keeps every invariant: the update conditional on the version |
| Backend.Planner.BeginPlanAdd | backend/internal/service/transect_plan.go:40-51 | one step that keeps every invariant: the read and the guards of a new plan |
| Backend.Planner.InsertPlan | backend/internal/repository/transect_plan.go:44-49 | one step that keeps every invariant: the new draft at version 1 |
| Backend.Planner.BeginPlanEdit | backend/internal/service/transect_plan.go:95-105 | one step that keeps every invariant: the read and the guards of a plan update |
| Backend.Planner.UpdatePlan | backend/internal/repository/transect_plan.go:51-61 | one step that keeps every invariant: the update conditional on the version |
| Backend.Planner.BeginPlanLock | backend/internal/service/transect_plan.go:116-123 | one step that keeps every invariant: the read and the guards of a lock |
| Backend.Planner.LockPlan | backend/internal/repository/transect_plan.go:63-72 | one step that keeps every invariant: the update conditional on version and state |
| Backend.Planner.BeginPlanCopy | backend/internal/service/transect_plan.go:134-138 | one step that keeps every invariant: the read of a copy |
| Backend.Planner.CopyPlan | backend/internal/repository/transect_plan.go:74-87 | one step that keeps every invariant: a draft copy one version on, under a marked name |
| Backend.Planner.BeginImport | backend/internal/service/sonar_run.go:43-57 | one step that keeps every invariant: the read and the guards of an import |
| Backend.Planner.LookUpChecksum | backend/internal/repository/sonar_run.go:53-59 | one step that keeps every invariant: an import finds its checksum or goes on |
| Backend.Planner.InsertRun | backend/internal/service/sonar_run.go:66-69 | one step that keeps every invariant: the imported run, or a refused duplicate |
| Backend.Planner.BeginRunMove | backend/internal/service/sonar_run.go:90-111 | one step that keeps every invariant: the read and the guards of a run transition |
| Backend.Planner.MoveRun | backend/internal/repository/sonar_run.go:68-77 | one step that keeps every invariant: the update conditional on version and state |
| Backend.Planner.BeginReview | backend/internal/service/coverage_gap.go:113-128 | one step that keeps every invariant: the read and the guards of a review |
| Backend.Planner.ReviewGap | backend/internal/repository/coverage_gap.go:62-71 | one step that keeps every invariant: the note appended to what was read, the update conditional on version and state |
| Backend.Planner.BeginDetect | backend/internal/service/coverage_gap.go:47-57 | one step that keeps every invariant: key length, area read, CRS check |
| Backend.Planner.LoadRuns | backend/internal/service/coverage_gap.go:58-80 | one step that keeps every invariant: the rows in any order, the count check, the loop over the runs |
| Backend.CheckRuns | backend/internal/service/coverage_gap.go:65-80 | the loop refuses at the first misfit and otherwise gathers the checksums and tracks in order |
| Backend.Planner.LookUpKey | backend/internal/repository/coverage_gap.go:47-53 | one step that keeps every invariant: a detection finds its key or goes on |
| Backend.Planner.CreateGap | backend/internal/repository/coverage_gap.go:55-60 | the insert under the unique index on the key |
| Backend.Planner.InsertGap | backend/internal/service/coverage_gap.go:91-105 | one step that keeps every invariant: the computation and the new gap, or its refusals |
| Backend.Planner.constructor | backend/internal/config/config.go:110-131 | the seeded tables, with every invariant |
| Backend.Planner.Import | backend/internal/service/sonar_run.go:43-76 | a whole import, served alone: refused, or answered by the one run of its checksum, which is new exactly when a row was added |
| Backend.Planner.TransitionRun | backend/internal/service/sonar_run.go:90-121 | a whole run transition, served alone: committed exactly on the version, a target of the state, valid navigation for a quality check and a reason of four characters for a rejection |
| Backend.Planner.Transition | backend/internal/service/coverage_gap.go:113-138 | a whole review, served alone: committed exactly when the target is a target of the gap's state and the version is the gap's, and then the note is appended |
| Backend.Planner.Detect | backend/internal/service/coverage_gap.go:47-111 | a whole detection, served alone: refused, or answered by the one gap of its key, new or known, with the record of a fresh computation if it is new or if it was computed on the same ground |
| Services.ImportServed | backend/internal/service/sonar_run.go:43-76 | what an uninterrupted import leads to, in every sound state |
| Services.DetectServed | backend/internal/service/coverage_gap.go:47-111 | what an uninterrupted detection leads to, in every sound state |
| RateLimiter.RateLimiter.Handle | backend/internal/middleware/audit.go:50-65 | the critical section counts the request in its key's window, sweeps, and admits up to the capacity |
| RateLimiter.RateLimiter.Sweep | backend/internal/middleware/audit.go:57-63 | above 2000 entries the loop deletes exactly those started more than two windows ago |
| RateLimiter.SweptExactly | backend/internal/middleware/audit.go:57-63 | above 2000 entries exactly those that started at most two windows ago are left, unchanged |
| RateLimiter.SweepIsInvisible | backend/internal/middleware/audit.go:57-63 | the limiter decides as one that never deletes, with readings out of order by up to one window |
| RateLimiter.KeysApart | backend/internal/middleware/audit.go:49-56 | traffic on other keys, sweeps included, changes no decision about a key |
| RateLimiter.WindowBound | backend/internal/middleware/audit.go:51-66 | while a window lasts the sweeping limiter admits at most its remaining capacity, with readings out of order by up to one window |
| RateLimiter.PotentialPays | backend/internal/middleware/audit.go:51-56 | what one request admits into an interval is paid for by what the interval could still admit |
| RateLimiter.SlidingBound | backend/internal/middleware/audit.go:46-73 | with readings in order, no interval as long as the window admits more than 2 * capacity - 1 requests of a key |
| RateLimiter.StraddleAttains | backend/internal/middleware/audit.go:46-73 | that bound is attained for every capacity and every window of at least two ticks |
| RateLimiter.SkewedPotentialPays | backend/internal/middleware/audit.go:51-56 | the same payment when readings are out of order, for windows that open after the interval |
| RateLimiter.SkewedBound | backend/internal/middleware/audit.go:46-73 | readings are taken before the lock: out of order by up to one window, no interval as long as the window admits more than 3 * capacity - 2 requests of a key |
| RateLimiter.SkewedStraddleAttains | backend/internal/middleware/audit.go:46-73 | that bound is attained too |

## Left out

- Floating point: rounding, NaN, infinities and overflow of `columns*rows`; the theorems are about exact reals and unbounded integers, and an accumulator that starts at infinity is an absent box.
- GeoJSON: parsing and printing, including the one-polygon MultiPolygon; rings, lines and artifacts are coordinate sequences, already finite.
- Digests: SHA-256 and JSON encoding are taken as injective, so the cache key is its canonical payload; a run's checksum is an opaque string that arrives with the import, so the rounding of the swath to three decimals in it is not modelled.
- Text: trimming, upper-casing and byte lengths; text arrives normalised and lengths count characters. The rendered detection text is a parameter.
- Database: SQL, connection errors, foreign keys, check constraints, column sizes and generated ids; only the atomic meaning of each statement and each unique index is kept, fresh ids and row order are parameters.
- Replies: after a commit the services re-read the row, which may by then be later still; the model replies with the row's id.
- Request binding: handlers check ranges before the services run. `Requests` states them, and only the witness runs use it, besides the positive line spacing that `Transects.Generate` requires.
- Plan generation as a workflow step: `Generate` ends in `Create`, which is modelled; its own first read of the area is not.
- TrackLength and run quality evidence: sums of square roots that no decision depends on.
- Severity, processing time, timestamps and area summaries: derived fields without guards.
- Audit events: written after the commit and outside it.
- A plan created on an area that is archived meanwhile, and a gap detected on runs or a boundary that changed meanwhile: check-then-insert without a stable condition, so `Atomic.CommitsAreAtomic` does not cover those two inserts.
- Map lookups of the limiter use an absent key for the zero window; the retry header and the response body are not modelled.
- Authentication, roles, request ids, CORS, configuration and the frontend.
