/** The seeded planner. */
module Seed {
  import opened Plane
  import opened Rings
  import opened Triangles
  import opened Holes
  import opened StateGraphs
  import opened Records
  import opened Workflow
  import opened Safety
  import opened Trails
  import opened Inputs
  import opened Frozen
  import opened Soundness

  const SEED_FIELDS: AreaFields :=
    AreaFields("外海校准测区", [BoxRing(0.0, 0.0, 1000.0, 600.0) + [Point(0.0, 0.0)]], 20.0, "EPSG:32650", 180.0,
               "东海测绘一组", "active")

  const SEED_PLAN: Plan :=
    Plan(1, PlanContent("基准东西向测线",
                        [[Point(40.0, 100.0), Point(960.0, 100.0)], [Point(40.0, 300.0), Point(960.0, 300.0)],
                         [Point(40.0, 500.0), Point(960.0, 500.0)]], 90.0, 180.0, 200.0), Locked, 1, 2)

  const SEED_FACTS: RunFacts :=
    RunFacts(1, "RUN-DEMO-001",
             [[Point(30.0, 100.0), Point(970.0, 100.0)], [Point(30.0, 300.0), Point(970.0, 300.0)],
              [Point(30.0, 500.0), Point(970.0, 500.0)]], 170.0, 0, 4200, NavGood,
             "2d447d9407dc470d8c728ea8ed7f5f138d03dddcc6577bfd730b1cb63867a57b")

  /** `seed`: an active area, a locked plan on it, a processed run on the plan. */
  function Seeded(): Sys {
    Sys(map[1 := Area("DEMO-A01", SEED_FIELDS, 1)], map[1 := SEED_PLAN], map[1 := Run(SEED_FACTS, Processed, 1, 3)],
        map[], map[], map[], map[1 := RunHistory(1, [Processed])])
  }

  lemma SeedCrsIsProjected()
    ensures Projected("EPSG:32650")
  {
    var crs := "EPSG:32650";
    forall k | 0 <= k <= |crs|
      ensures !("4326" <= crs[k..]) && !("WGS84" <= crs[k..]) && !("WGS 84" <= crs[k..])
    {
      if k < |crs| {
        assert crs[k..][0] == crs[k];
        assert "4326"[0] == '4' && "WGS84"[0] == 'W' && "WGS 84"[0] == 'W';
        assert crs[k] != '4' && crs[k] != 'W';
      }
    }
  }

  lemma SeedBoundaryArea()
    ensures Coverage.Area(SEED_FIELDS.boundary) == 600000.0
  {
    hide SignedArea;
    var ring := BoxRing(0.0, 0.0, 1000.0, 600.0);
    BoxContains(0.0, 0.0, 1000.0, 600.0, Point(0.0, 0.0));
    ClosedRingAgrees(ring, Point(0.0, 0.0));
    OneRing(ring + [ring[0]], Point(0.0, 0.0));
  }

  lemma SeedAreaIsChecked()
    ensures CheckedArea(SEED_FIELDS)
  {
    hide AreaGeometryError, Projected, Coverage.Area;
    SeedCrsIsProjected();
    SeedBoundaryArea();
    AreaChecks(SEED_FIELDS);
  }

  lemma SeedIsChecked()
    ensures InputsChecked(Seeded())
  {
    SeedAreaIsChecked();
    hide CheckedArea;
    assert ValidLines(SEED_PLAN.content.lines) && ValidLines(SEED_FACTS.lines);
  }

  /** The seeded planner satisfies everything the run theorems start from. */
  lemma SeedIsSound()
    ensures Sound(Seeded()) && AllPrudent(Seeded())
  {
    SeedIsChecked();
    hide InputsChecked;
    var s := Seeded();
    assert RunSafe(s, s.runs[1]);
    assert RunTrail(s.runs[1], s.runHistory[1]);
  }

  /** From the seed, whatever the clients do: safe rows, unique keys, kept trails, a faithful
      cache and checked input. */
  lemma SeededRuns(actions: seq<Action>)
    ensures Sound(After(Seeded(), actions))
  {
    hide Sound, After;
    SeedIsSound();
    SoundThroughout(Seeded(), actions);
  }
}
