/** What request binding lets through: the ranges the handlers check before a service runs. */
module Requests {
  import opened StateGraphs
  import opened Records
  import opened Workflow

  predicate LengthWithin(text: string, least: nat, most: nat) {
    least <= |text| <= most
  }

  predicate AreaInRange(fields: AreaFields) {
    && LengthWithin(fields.name, 3, 160) && LengthWithin(fields.crs, 4, 80) && LengthWithin(fields.team, 2, 120)
    && 0.0 < fields.resolution <= 100.0 && 0.0 < fields.swath <= 2000.0
  }

  predicate ContentInRange(content: PlanContent) {
    && LengthWithin(content.name, 3, 160) && 0.0 <= content.heading < 360.0
    && 0.0 < content.swath <= 2000.0 && 0.0 < content.spacing <= 2000.0
  }

  predicate ImportInRange(facts: RunFacts) {
    facts.planId > 0 && LengthWithin(facts.code, 3, 48) && 0.0 < facts.swath <= 2000.0
  }

  predicate NoteInRange(note: string) {
    LengthWithin(note, 8, 600)
  }

  predicate DetectInRange(request: DetectRequest) {
    && request.areaId > 0 && request.runIds != [] && (forall k :: 0 <= k < |request.runIds| ==> request.runIds[k] > 0)
    && LengthWithin(request.algorithm, 3, 40) && 0.0 <= request.resolution <= 100.0
  }

  /** The beginnings of requests that the handlers hand on to the services. */
  predicate InRange(a: Action) {
    match a
    case CreateArea(_, code, fields) => LengthWithin(code, 3, 40) && AreaInRange(fields)
    case BeginAreaEdit(_, _, expected, fields) => expected > 0 && AreaInRange(fields) && ValidStatus(fields.status)
    case BeginPlanAdd(_, areaId, content, _) => areaId > 0 && ContentInRange(content)
    case BeginPlanEdit(_, _, expected, content) => expected > 0 && ContentInRange(content)
    case BeginPlanLock(_, _, expected, target) => expected > 0 && target == "locked"
    case BeginImport(_, facts, _) => ImportInRange(facts)
    case BeginRunMove(_, _, expected, target, reason) =>
      && expected > 0 && ParseRunState(target).Some? && target != RunName(Imported) && LengthWithin(reason, 0, 500)
    case BeginReview(_, _, expected, target, note) =>
      && expected > 0 && ParseGapState(target).Some? && target != GapName(Detected) && NoteInRange(note)
    case BeginDetect(_, request) => DetectInRange(request)
    case _ => true
  }

  ghost predicate AllInRange(actions: seq<Action>) {
    forall k :: 0 <= k < |actions| ==> InRange(actions[k])
  }

  lemma InRangeConcat(a: seq<Action>, b: seq<Action>)
    ensures AllInRange(a) && AllInRange(b) ==> AllInRange(a + b)
  {
    hide InRange;
  }
}
