/** The stored rows, the requests and the replies of the planner. Geometry is already
    parsed, text is already trimmed, and a run's checksum is an opaque string. */
module Records {
  import opened Wrappers
  import opened Plane
  import opened Rings
  import opened Tracks
  import opened Coverage
  import opened CacheKey
  import opened StateGraphs

  type Id = nat

  const ARCHIVED := "archived"

  datatype AreaFields = AreaFields(
    name: string, boundary: Polygon, resolution: real, crs: string, swath: real, team: string, status: string)

  datatype Area = Area(code: string, fields: AreaFields, version: nat)

  datatype PlanState = Draft | Locked

  datatype PlanContent = PlanContent(name: string, lines: seq<Line>, heading: real, swath: real, spacing: real)

  datatype Plan = Plan(areaId: Id, content: PlanContent, state: PlanState, version: nat, createdBy: Id)

  datatype NavigationQuality = NavGood | NavDegraded | NavInvalid

  /** What an import fixes about a run for good. */
  datatype RunFacts = RunFacts(
    planId: Id, code: string, lines: seq<Line>, swath: real, startedAt: int, endedAt: int,
    navigation: NavigationQuality, checksum: string)

  datatype Run = Run(facts: RunFacts, state: RunState, version: nat, importedBy: Id)

  /** What a detection fixes about a gap for good. */
  datatype GapFacts = GapFacts(
    areaId: Id, sources: seq<Id>, gapRing: Ring, recommended: Line, areaSquareM: real,
    gap: real, coverage: real, overlap: real, algorithm: string, key: Key)

  datatype Gap = Gap(facts: GapFacts, state: GapState, explanation: string, version: nat)

  datatype DetectRequest = DetectRequest(
    areaId: Id, runIds: seq<Id>, algorithm: string, resolution: real, idempotencyKey: string)

  datatype Refusal =
    | NotFound
    | VersionConflict
    | DuplicateResource
    | AreaArchived
    | AreaStatusInvalid
    | AreaTooLarge
    | CoordinateSystemInvalid
    | GeometryInvalid
    | PlanLocked
    | PlanStateInvalid
    | PlanNotLocked
    | RunTimeInvalid
    | RunStateInvalid
    | RunTransitionInvalid
    | NavigationInvalid
    | RejectionReasonRequired
    | IdempotencyKeyRequired
    | RunSetIncomplete
    | RunAreaMismatch
    | RunNotProcessed
    | CoverageInvalid
    | GapStateInvalid
    | GapTransitionInvalid

  /** What one database statement of a request leads to. */
  datatype Reply =
    | Waiting                     // the request goes on to its next statement
    | Committed(id: Id)           // the request changed or inserted that row
    | ExistingRun(id: Id)         // an import found its checksum
    | ExistingGap(id: Id, gap: Gap)  // a detection found its key
    | Refused(why: Refusal)
    | Idle                        // the step does not apply

  // ---- input checks ----

  /** `ParseLines`: at least one line, and at least two positions in each. */
  predicate ValidLines(lines: seq<Line>) {
    lines != [] && forall k :: 0 <= k < |lines| ==> |lines[k]| >= 2
  }

  /** `validatePolygon`: four exterior positions and a positive area. */
  predicate ValidPolygon(polygon: Polygon) {
    polygon != [] && |polygon[0]| >= 4 && Coverage.Area(polygon) > 0.0
  }

  predicate Mentions(text: string, word: string) {
    exists k :: 0 <= k <= |text| && word <= text[k..]
  }

  /** `ValidateProjectedCRS`, on trimmed upper-case text. */
  predicate Projected(crs: string) {
    crs != "" && !Mentions(crs, "4326") && !Mentions(crs, "WGS84") && !Mentions(crs, "WGS 84")
  }

  const MAX_AREA := 1000000000.0

  /** `validateAreaGeometry`. */
  function AreaGeometryError(fields: AreaFields): Option<Refusal> {
    if !Projected(fields.crs) then Some(CoordinateSystemInvalid)
    else if !ValidPolygon(fields.boundary) then Some(GeometryInvalid)
    else if Coverage.Area(fields.boundary) > MAX_AREA then Some(AreaTooLarge)
    else None
  }

  predicate ValidStatus(status: string) {
    status == "draft" || status == "active" || status == ARCHIVED
  }

  function TrackOf(id: Id, facts: RunFacts): Track {
    Track(id, facts.lines, facts.swath)
  }
}
