/**
 After-hours runs (packages/shared/src/after-hours.ts and
 packages/api-contract/src/after-hours-engine.ts): when a worker pass starts a run for a site,
 over any number of passes, some of which may die halfway.
 */
module AfterHours {
  import opened Options
  import opened DeviceCommands
  import opened CommandTables
  import Text

  const MIN_INTERVAL_MS: int := 8 * 60 * 60 * 1000
  const MAX_STEPS: nat := 3

  /** A stored step: any JSON value; only text can name an action. */
  datatype StoredStep = Words(name: string) | NotText

  function ParseAction(name: string): Option<Kind> {
    match Text.Trim(name)
    case "reboot" => Some(Reboot)
    case "restart" => Some(Restart)
    case "update" => Some(Update)
    case _ => None
  }

  function Parsed(v: StoredStep): Option<Kind> {
    match v
    case Words(name) => ParseAction(name)
    case NotText => None
  }

  function SanitizeSteps(values: seq<StoredStep>, kept: seq<Kind>): seq<Kind> {
    if values == [] || |kept| >= MAX_STEPS then kept
    else
      var step := Parsed(values[0]);
      SanitizeSteps(values[1..], if step.None? || step.value in kept then kept else kept + [step.value])
  }

  method SanitizeAfterHoursSteps(values: seq<StoredStep>) returns (steps: seq<Kind>)
    ensures steps == SanitizeSteps(values, [])
  {
    steps := [];
    assert values[0..] == values;
    for i := 0 to |values|
      invariant |steps| < MAX_STEPS
      invariant SanitizeSteps(values[i..], steps) == SanitizeSteps(values, [])
    {
      assert values[i..][1..] == values[i + 1..];
      var step := Parsed(values[i]);
      if step.None? || step.value in steps {
        continue;
      }
      steps := steps + [step.value];
      if |steps| >= MAX_STEPS {
        break;
      }
    }
  }

  predicate NoRepeats(steps: seq<Kind>) {
    forall i, j :: 0 <= i < j < |steps| ==> steps[i] != steps[j]
  }

  lemma ThreeActionsAtMost(steps: seq<Kind>, extra: Kind)
    requires NoRepeats(steps) && Playbook(steps) && extra != RestartService && |steps| >= 3
    ensures extra in steps
  {
    assert steps[0] != steps[1] && steps[1] != steps[2] && steps[0] != steps[2];
    assert extra == steps[0] || extra == steps[1] || extra == steps[2];
  }

  /** No whitelisted step is lost to the limit, none repeats, and nothing else gets in. */
  lemma {:induction false} SanitizedSteps(values: seq<StoredStep>, kept: seq<Kind>)
    requires NoRepeats(kept) && Playbook(kept)
    ensures var s := SanitizeSteps(values, kept);
            && kept <= s && NoRepeats(s) && Playbook(s)
            && forall k: Kind :: k in s <==> k in kept || exists i :: 0 <= i < |values| && Parsed(values[i]) == Some(k)
    decreases |values|
  {
    if values != [] {
      var step := Parsed(values[0]);
      if |kept| >= MAX_STEPS {
        forall i | 0 <= i < |values| && Parsed(values[i]).Some? ensures Parsed(values[i]).value in kept {
          ThreeActionsAtMost(kept, Parsed(values[i]).value);
        }
      } else {
        var more := if step.None? || step.value in kept then kept else kept + [step.value];
        SanitizedSteps(values[1..], more);
        var s := SanitizeSteps(values, kept);
        forall k: Kind
          ensures k in s <==> k in kept || exists i :: 0 <= i < |values| && Parsed(values[i]) == Some(k)
        {
          if i :| 0 <= i < |values| && Parsed(values[i]) == Some(k) {
            if i > 0 {
              assert values[1..][i - 1] == values[i];
            }
          }
          if i :| 0 <= i < |values[1..]| && Parsed(values[1..][i]) == Some(k) {
            assert values[i + 1] == values[1..][i];
          }
          assert k in more <==> k in kept || step == Some(k);
          if step == Some(k) {
            assert Parsed(values[0]) == Some(k);
          }
        }
      }
    }
  }

  /** The names a step may go by, white space around them aside. */
  lemma ActionsByName(v: StoredStep)
    ensures Parsed(v) == Some(Reboot) <==> v.Words? && Text.Trim(v.name) == "reboot"
    ensures Parsed(v) == Some(Restart) <==> v.Words? && Text.Trim(v.name) == "restart"
    ensures Parsed(v) == Some(Update) <==> v.Words? && Text.Trim(v.name) == "update"
    ensures Parsed(v) != Some(RestartService)
  {
    hide Text.Trim;
  }

  /**
   The steps stand in the order given: one more value adds its action at the end, unless it names
   none or one that is there already.
   */
  lemma {:induction false} StepsInOrder(values: seq<StoredStep>, v: StoredStep, kept: seq<Kind>)
    requires NoRepeats(kept) && Playbook(kept)
    ensures SanitizeSteps(values + [v], kept)
            == var s := SanitizeSteps(values, kept);
               if Parsed(v) == None || Parsed(v).value in s then s else s + [Parsed(v).value]
    decreases |values|
  {
    hide Parsed;
    assert Parsed(v) != Some(RestartService) by { ActionsByName(v); }
    if |kept| >= MAX_STEPS {
      if Parsed(v).Some? {
        ThreeActionsAtMost(kept, Parsed(v).value);
      }
    } else if values == [] {
      assert [v][1..] == [] && [] + [v] == [v];
    } else {
      ActionsByName(values[0]);
      assert (values + [v])[1..] == values[1..] + [v];
      var step := Parsed(values[0]);
      StepsInOrder(values[1..], v, if step.None? || step.value in kept then kept else kept + [step.value]);
    }
  }

  // ----- one site, one pass -----

  /** A site row; `open` is the reading of its hours at the time of the pass, None when not set. */
  datatype Site = Site(id: string, enabled: bool, steps: seq<StoredStep>, open: Option<bool>)

  datatype IdleReason = OptedOut | NoSteps | HoursNotSet | NoPreviousState | StillOpen | StillClosed | JustRan

  datatype Decision = Fire(steps: seq<Kind>) | Idle(reason: IdleReason)

  function DecideAfterHoursRun(site: Site, previousOpen: Option<bool>, lastRunAt: Option<int>, now: int): Decision {
    var steps := SanitizeSteps(site.steps, []);
    if !site.enabled then Idle(OptedOut)
    else if steps == [] then Idle(NoSteps)
    else if site.open.None? then Idle(HoursNotSet)
    else if site.open.value then Idle(StillOpen)
    else if previousOpen.None? then Idle(NoPreviousState)
    else if previousOpen.value == false then Idle(StillClosed)
    else if lastRunAt.Some? && now - lastRunAt.value < MIN_INTERVAL_MS then Idle(JustRan)
    else Fire(steps)
  }

  /** When a site fires, and the first reason that keeps it idle. */
  lemma DecisionIs(site: Site, previousOpen: Option<bool>, lastRunAt: Option<int>, now: int)
    ensures var decision := DecideAfterHoursRun(site, previousOpen, lastRunAt, now);
            var hasSteps := exists k :: 0 <= k < |site.steps| && Parsed(site.steps[k]).Some?;
            var rested := lastRunAt == None || now - lastRunAt.value >= 28800000;
            && (decision == Idle(OptedOut) <==> !site.enabled)
            && (decision == Idle(NoSteps) <==> site.enabled && !hasSteps)
            && (decision == Idle(HoursNotSet) <==> site.enabled && hasSteps && site.open == None)
            && (decision == Idle(StillOpen) <==> site.enabled && hasSteps && site.open == Some(true))
            && (decision == Idle(NoPreviousState) <==>
                  site.enabled && hasSteps && site.open == Some(false) && previousOpen == None)
            && (decision == Idle(StillClosed) <==>
                  site.enabled && hasSteps && site.open == Some(false) && previousOpen == Some(false))
            && (decision == Idle(JustRan) <==>
                  site.enabled && hasSteps && site.open == Some(false) && previousOpen == Some(true) && !rested)
            && (decision == Fire(SanitizeSteps(site.steps, [])) <==>
                  site.enabled && hasSteps && site.open == Some(false) && previousOpen == Some(true) && rested)
  {
    HasStepsIff(site.steps);
    hide SanitizeSteps, Parsed;
  }

  datatype CancelReason = FloorOpened | ScheduleDisabled

  function DecideAfterHoursCancel(status: RunStatus, enabled: bool, siteOpen: Option<bool>): Option<CancelReason> {
    if !Active(status) then None
    else if !enabled then Some(ScheduleDisabled)
    else if siteOpen == Some(true) then Some(FloorOpened)
    else None
  }

  /** An active run is abandoned when runs were switched off, or else when the site is open again. */
  lemma AbandonedIff(status: RunStatus, enabled: bool, siteOpen: Option<bool>)
    ensures var active := status == PendingApproval || status == RunQueued;
            && (DecideAfterHoursCancel(status, enabled, siteOpen) == Some(ScheduleDisabled) <==> active && !enabled)
            && (DecideAfterHoursCancel(status, enabled, siteOpen) == Some(FloorOpened) <==>
                  active && enabled && siteOpen == Some(true))
  {
  }

  // ----- passes of the worker -----

  datatype RunRow = RunRow(siteId: string, createdAt: int)

  /** What outlives a pass: the last reading of each site, and the run rows. */
  datatype Store = Store(readings: map<string, bool>, runs: seq<RunRow>)

  /** A pass that `dies` stops before site number `reach`, having saved no readings. */
  datatype Pass = Pass(now: int, sites: seq<Site>, dies: bool, reach: nat)

  function Reach(p: Pass): nat {
    if p.dies && p.reach < |p.sites| then p.reach else |p.sites|
  }

  /** Creation time of the newest run of a site. */
  function LastRunAt(runs: seq<RunRow>, siteId: string): Option<int> {
    if runs == [] then None
    else
      var rest := LastRunAt(runs[..|runs| - 1], siteId);
      var last := runs[|runs| - 1];
      if last.siteId != siteId then rest
      else if rest.Some? && rest.value > last.createdAt then rest
      else Some(last.createdAt)
  }

  function Previous(readings: map<string, bool>, siteId: string): Option<bool> {
    if siteId in readings then Some(readings[siteId]) else None
  }

  predicate SiteFires(s: Store, site: Site, now: int) {
    DecideAfterHoursRun(site, Previous(s.readings, site.id), LastRunAt(s.runs, site.id), now).Fire?
  }

  /** The rows the first `n` sites of a pass insert; decisions use what was loaded at its start. */
  function NewRuns(s: Store, sites: seq<Site>, n: nat, now: int): seq<RunRow>
    requires n <= |sites|
  {
    if n == 0 then []
    else NewRuns(s, sites, n - 1, now) + if SiteFires(s, sites[n - 1], now) then [RunRow(sites[n - 1].id, now)] else []
  }

  function Readings(sites: seq<Site>, n: nat): map<string, bool>
    requires n <= |sites|
  {
    if n == 0 then map[]
    else if sites[n - 1].open.Some? then Readings(sites, n - 1)[sites[n - 1].id := sites[n - 1].open.value]
    else Readings(sites, n - 1)
  }

  function AfterPass(s: Store, p: Pass): Store {
    Store(if p.dies then s.readings else Readings(p.sites, |p.sites|),
          s.runs + NewRuns(s, p.sites, Reach(p), p.now))
  }

  lemma {:induction false} NewRunsAre(s: Store, sites: seq<Site>, n: nat, now: int, r: RunRow)
    requires n <= |sites|
    ensures r in NewRuns(s, sites, n, now)
            <==> exists i :: 0 <= i < n && SiteFires(s, sites[i], now) && r == RunRow(sites[i].id, now)
  {
    hide SiteFires;
    if n > 0 {
      NewRunsAre(s, sites, n - 1, now, r);
    }
  }

  /**
   What a pass leaves: run rows of the sites that fired, only those before the place it stopped at
   if it died, and new readings only if it did not.
   */
  lemma PassLeaves(s: Store, p: Pass, r: RunRow)
    ensures var after := AfterPass(s, p);
            && s.runs <= after.runs
            && (r in after.runs[|s.runs|..] <==>
                  exists i :: 0 <= i < |p.sites| && (p.dies ==> i < p.reach) && SiteFires(s, p.sites[i], p.now)
                              && r == RunRow(p.sites[i].id, p.now))
            && after.readings == if p.dies then s.readings else Readings(p.sites, |p.sites|)
  {
    hide SiteFires, NewRuns, Readings;
    NewRunsAre(s, p.sites, Reach(p), p.now, r);
    assert AfterPass(s, p).runs[|s.runs|..] == NewRuns(s, p.sites, Reach(p), p.now);
  }

  class Worker {
    var readings: map<string, bool>
    var runs: seq<RunRow>

    constructor ()
      ensures readings == map[] && runs == []
    {
      readings := map[];
      runs := [];
    }

    /** One worker pass; with `dies`, one that is cut short before its readings are saved. */
    method EvaluateAfterHoursSites(p: Pass) returns (fired: nat)
      modifies this
      ensures Store(readings, runs) == AfterPass(old(Store(readings, runs)), p)
      ensures fired == |runs| - |old(runs)|
    {
      ghost var start := Store(readings, runs);
      var previous := readings;
      var loadedRuns := runs;
      var next: map<string, bool> := map[];
      fired := 0;
      for i := 0 to |p.sites|
        invariant i <= Reach(p)
        invariant readings == start.readings && runs == start.runs + NewRuns(start, p.sites, i, p.now)
        invariant next == Readings(p.sites, i) && fired == |runs| - |start.runs|
      {
        if p.dies && i == p.reach {
          return;
        }
        var site := p.sites[i];
        var decision := DecideAfterHoursRun(site, Previous(previous, site.id), LastRunAt(loadedRuns, site.id), p.now);
        if site.open.Some? {
          next := next[site.id := site.open.value];
        }
        if decision.Fire? {
          runs := runs + [RunRow(site.id, p.now)];
          fired := fired + 1;
        }
      }
      if p.dies {
        return;
      }
      var removeKeys := previous.Keys - next.Keys;
      readings := (readings + next) - removeKeys;
      assert readings == next;
    }
  }

  // ----- histories -----

  const NEW_STORE: Store := Store(map[], [])

  function Exec(passes: seq<Pass>): Store {
    if passes == [] then NEW_STORE else AfterPass(Exec(passes[..|passes| - 1]), passes[|passes| - 1])
  }

  predicate DistinctSites(p: Pass) {
    forall i, j :: 0 <= i < j < |p.sites| ==> p.sites[i].id != p.sites[j].id
  }

  /** Pass `n` of the history starts a run for site `id`. */
  predicate FiresAt(passes: seq<Pass>, n: nat, id: string)
    requires n < |passes|
  {
    exists i :: 0 <= i < Reach(passes[n]) && FiresSite(passes, n, i, id)
  }

  predicate FiresSite(passes: seq<Pass>, n: nat, i: nat, id: string)
    requires n < |passes| && i < |passes[n].sites|
  {
    passes[n].sites[i].id == id && SiteFires(Exec(passes[..n]), passes[n].sites[i], passes[n].now)
  }

  /** The reading a pass takes of site `id`. */
  predicate Reads(p: Pass, id: string, open: bool) {
    exists i :: 0 <= i < |p.sites| && p.sites[i].id == id && p.sites[i].open == Some(open)
  }

  lemma {:induction false} RunInserted(s: Store, sites: seq<Site>, n: nat, now: int, i: nat)
    requires i < n <= |sites| && SiteFires(s, sites[i], now)
    ensures RunRow(sites[i].id, now) in NewRuns(s, sites, n, now)
  {
    if i < n - 1 {
      RunInserted(s, sites, n - 1, now, i);
    }
  }

  lemma {:induction false} LastRunCovers(runs: seq<RunRow>, id: string, at: int)
    requires RunRow(id, at) in runs
    ensures LastRunAt(runs, id).Some? && LastRunAt(runs, id).value >= at
    decreases |runs|
  {
    var init := runs[..|runs| - 1];
    if runs[|runs| - 1] != RunRow(id, at) {
      assert RunRow(id, at) in init;
      LastRunCovers(init, id, at);
    }
  }

  lemma {:induction false} RunsOnlyGrow(passes: seq<Pass>, n: nat)
    requires n <= |passes|
    ensures Exec(passes[..n]).runs <= Exec(passes).runs
    decreases |passes|
  {
    if n == |passes| {
      assert passes[..n] == passes;
    } else {
      var init := passes[..|passes| - 1];
      assert init[..n] == passes[..n];
      RunsOnlyGrow(init, n);
    }
  }

  /** A pass that starts a run for a site leaves a row saying so. */
  lemma FiringLeavesRun(passes: seq<Pass>, n: nat, id: string)
    requires n < |passes| && FiresAt(passes, n, id)
    ensures RunRow(id, passes[n].now) in Exec(passes[..n + 1]).runs
  {
    hide SiteFires, NewRuns;
    var i :| 0 <= i < Reach(passes[n]) && FiresSite(passes, n, i, id);
    assert passes[..n + 1][..n] == passes[..n];
    RunInserted(Exec(passes[..n]), passes[n].sites, Reach(passes[n]), passes[n].now, i);
  }

  lemma FiringNeedsInterval(passes: seq<Pass>, n: nat, id: string, at: int)
    requires n < |passes| && FiresAt(passes, n, id)
    requires RunRow(id, at) in Exec(passes[..n]).runs
    ensures passes[n].now - at >= MIN_INTERVAL_MS
  {
    hide Exec, SanitizeSteps, LastRunAt;
    LastRunCovers(Exec(passes[..n]).runs, id, at);
  }

  /**
   Two runs of one site are started at least eight hours apart, on any clock and whichever
   passes die.
   */
  lemma FiresEightHoursApart(passes: seq<Pass>, a: nat, b: nat, id: string)
    requires a < b < |passes| && FiresAt(passes, a, id) && FiresAt(passes, b, id)
    ensures passes[b].now - passes[a].now >= 8 * 3600000
  {
    hide FiresAt, Exec;
    FiringLeavesRun(passes, a, id);
    RunsOnlyGrow(passes[..b], a + 1);
    assert passes[..b][..a + 1] == passes[..a + 1];
    FiringNeedsInterval(passes, b, id, passes[a].now);
  }

  lemma {:induction false} ReadingStored(sites: seq<Site>, n: nat, id: string)
    requires n <= |sites|
    ensures id in Readings(sites, n) ==>
              exists i :: 0 <= i < n && sites[i].id == id && sites[i].open == Some(Readings(sites, n)[id])
  {
    if n > 0 {
      ReadingStored(sites, n - 1, id);
      if sites[n - 1].open.Some? && sites[n - 1].id == id {
        assert sites[n - 1].open == Some(Readings(sites, n)[id]);
      }
    }
  }

  /** Every site whose hours are set has its reading stored, and no other. */
  lemma {:induction false} ReadingIs(sites: seq<Site>, n: nat, id: string)
    requires n <= |sites| && forall i, j :: 0 <= i < j < |sites| ==> sites[i].id != sites[j].id
    ensures id in Readings(sites, n) <==> exists i :: 0 <= i < n && sites[i].id == id && sites[i].open != None
    ensures forall i :: 0 <= i < n && sites[i].id == id && sites[i].open != None ==>
              Readings(sites, n)[id] == sites[i].open.value
  {
    if n > 0 {
      ReadingIs(sites, n - 1, id);
    }
  }

  /** A stored reading comes from the last pass that finished, all later ones having died. */
  lemma {:induction false} StoredReadingOrigin(passes: seq<Pass>, id: string) returns (m: nat)
    requires id in Exec(passes).readings
    ensures m < |passes| && !passes[m].dies && Reads(passes[m], id, Exec(passes).readings[id])
    ensures forall k :: m < k < |passes| ==> passes[k].dies
    decreases |passes|
  {
    var last := |passes| - 1;
    if passes[last].dies {
      m := StoredReadingOrigin(passes[..last], id);
    } else {
      m := last;
      ReadingStored(passes[m].sites, |passes[m].sites|, id);
    }
  }

  /** A run is started only on a closed reading that directly follows a stored open one. */
  lemma FiresOnlyOnClose(passes: seq<Pass>, n: nat, id: string) returns (m: nat)
    requires n < |passes| && FiresAt(passes, n, id)
    ensures Reads(passes[n], id, false)
    ensures m < n && !passes[m].dies && Reads(passes[m], id, true)
    ensures forall k :: m < k < n ==> passes[k].dies
  {
    hide SanitizeSteps, Exec, LastRunAt;
    var i :| 0 <= i < Reach(passes[n]) && FiresSite(passes, n, i, id);
    assert passes[n].sites[i].open == Some(false);
    m := StoredReadingOrigin(passes[..n], id);
    assert passes[..n][m] == passes[m];
  }

  predicate FinishedOpen(p: Pass, id: string) {
    !p.dies && Reads(p, id, true)
  }

  /**
   Between two runs of a site a finished pass saw it open exactly when any pass at all, from the
   one that started the first run on, finished.
   */
  lemma OpenBetweenFiresIff(passes: seq<Pass>, a: nat, b: nat, id: string)
    requires a < b < |passes| && FiresAt(passes, a, id) && FiresAt(passes, b, id)
    requires DistinctSites(passes[a])
    ensures (exists m :: a < m < b && FinishedOpen(passes[m], id)) <==> (exists m :: a <= m < b && !passes[m].dies)
  {
    hide FiresAt, Reads, DistinctSites;
    var m := FiresOnlyOnClose(passes, b, id);
    var k := FiresOnlyOnClose(passes, a, id);
    OneReading(passes[a], id);
    if a < m {
      assert FinishedOpen(passes[m], id);
    }
  }

  lemma OneReading(p: Pass, id: string)
    requires DistinctSites(p)
    ensures !(Reads(p, id, true) && Reads(p, id, false))
  {
  }

  /** Every close seen by a site that opted in, has steps and had no run for eight hours starts one. */
  lemma EveryCloseFires(passes: seq<Pass>, n: nat, i: nat)
    requires n < |passes| && i < Reach(passes[n])
    ensures var site, s := passes[n].sites[i], Exec(passes[..n]);
            (&& site.enabled && site.open == Some(false) && Previous(s.readings, site.id) == Some(true)
             && (exists k :: 0 <= k < |site.steps| && Parsed(site.steps[k]).Some?)
             && (forall r :: r in s.runs && r.siteId == site.id ==> passes[n].now - r.createdAt >= 8 * 3600000))
            <==> FiresSite(passes, n, i, site.id)
  {
    hide Exec, SanitizeSteps, LastRunAt, Parsed;
    var site, s := passes[n].sites[i], Exec(passes[..n]);
    HasStepsIff(site.steps);
    RestedIff(s.runs, site.id, passes[n].now);
  }

  lemma {:induction false} HasStepsIff(values: seq<StoredStep>)
    ensures SanitizeSteps(values, []) != [] <==> exists k :: 0 <= k < |values| && Parsed(values[k]).Some?
  {
    SanitizedSteps(values, []);
    hide SanitizeSteps, Parsed;
    var steps := SanitizeSteps(values, []);
    if k :| 0 <= k < |values| && Parsed(values[k]).Some? {
      assert Parsed(values[k]).value in steps;
    }
    if steps != [] {
      assert steps[0] in steps;
    }
  }

  /** The interval guard looks at the newest run only, which covers all of them. */
  lemma RestedIff(runs: seq<RunRow>, id: string, now: int)
    ensures (LastRunAt(runs, id).Some? ==> now - LastRunAt(runs, id).value >= MIN_INTERVAL_MS)
            <==> forall r :: r in runs && r.siteId == id ==> now - r.createdAt >= MIN_INTERVAL_MS
  {
    hide LastRunAt;
    LastRunIsARun(runs, id);
    forall r | r in runs && r.siteId == id
      ensures LastRunAt(runs, id).Some? && LastRunAt(runs, id).value >= r.createdAt
    {
      assert r == RunRow(id, r.createdAt);
      LastRunCovers(runs, id, r.createdAt);
    }
  }

  lemma {:induction false} LastRunIsARun(runs: seq<RunRow>, id: string)
    ensures LastRunAt(runs, id).Some? ==> RunRow(id, LastRunAt(runs, id).value) in runs
    decreases |runs|
  {
    if runs != [] {
      LastRunIsARun(runs[..|runs| - 1], id);
      assert runs[|runs| - 1] == RunRow(runs[|runs| - 1].siteId, runs[|runs| - 1].createdAt);
    }
  }

  /** Three passes over one site: open, closed but cut short, and closed again eight hours later. */
  function OneSite(open: bool): Site {
    Site("s", true, [Words("reboot")], Some(open))
  }

  function ThreePasses(): seq<Pass> {
    [Pass(0, [OneSite(true)], false, 0), Pass(1, [OneSite(false)], true, 1),
      Pass(1 + MIN_INTERVAL_MS, [OneSite(false)], false, 0)]
  }

  /**
   When the pass that starts a run dies, the same close can start a second one: eight hours
   later the stored reading still says open.
   */
  lemma DyingPassCanFireTwice()
    ensures var passes := ThreePasses();
            FiresAt(passes, 1, "s") && FiresAt(passes, 2, "s") && !Reads(passes[1], "s", true)
  {
    hide Exec, SiteFires, SanitizeSteps;
    var passes := ThreePasses();
    ThreePassStores();
    assert FiresSite(passes, 1, 0, "s") by { FiresAfterOpen([], 1); }
    assert FiresSite(passes, 2, 0, "s") by { FiresAfterOpen([RunRow("s", 1)], 1 + MIN_INTERVAL_MS); }
    assert passes[1].sites == [OneSite(false)];
  }

  lemma FiresAfterOpen(runs: seq<RunRow>, now: int)
    requires forall i :: 0 <= i < |runs| ==> now - runs[i].createdAt >= MIN_INTERVAL_MS
    ensures SiteFires(Store(map["s" := true], runs), OneSite(false), now)
  {
    OneStep();
    LastRunIsARun(runs, "s");
  }

  lemma OneSitePass(s: Store, open: bool, now: int)
    ensures NewRuns(s, [OneSite(open)], 1, now) == if SiteFires(s, OneSite(open), now) then [RunRow("s", now)] else []
    ensures Readings([OneSite(open)], 1) == map["s" := open]
  {
    assert NewRuns(s, [OneSite(open)], 0, now) == [] && Readings([OneSite(open)], 0) == map[];
  }

  lemma ThreePassStores()
    ensures Exec(ThreePasses()[..1]) == Store(map["s" := true], [])
    ensures Exec(ThreePasses()[..2]) == Store(map["s" := true], [RunRow("s", 1)])
  {
    hide NewRuns, Readings, SiteFires, SanitizeSteps;
    var passes := ThreePasses();
    assert passes[..1][..0] == [] && passes[..2][..1] == passes[..1];
    var s1 := Store(map["s" := true], []);
    assert Exec(passes[..1]) == s1 by {
      OneSitePass(NEW_STORE, true, 0);
      assert !SiteFires(NEW_STORE, OneSite(true), 0) by { StillOpenIsIdle(NEW_STORE); }
      assert Exec([]) == NEW_STORE;
    }
    OneSitePass(s1, false, 1);
    FiresAfterOpen([], 1);
  }

  lemma StillOpenIsIdle(s: Store)
    ensures !SiteFires(s, OneSite(true), 0)
  {
    OneStep();
  }

  lemma OneStep()
    ensures SanitizeSteps([Words("reboot")], []) == [Reboot]
  {
    assert Text.TrimStart("reboot") == "reboot" && Text.TrimEnd("reboot") == "reboot";
    assert Parsed(Words("reboot")) == Some(Reboot);
    assert [Words("reboot")][1..] == [];
  }

  // ----- choosing devices -----

  const ONLINE_WINDOW_MS: int := 3 * 60 * 1000

  datatype DeviceStatus = StatusPending | StatusRevoked | StatusOther

  datatype Candidate = Candidate(id: string, status: DeviceStatus, archived: bool, revoked: bool,
                                 lastSeenAt: Option<int>, lastHandshakeAt: Option<int>)

  predicate RecentlySeen(at: Option<int>, now: int) {
    at.Some? && now - at.value < ONLINE_WINDOW_MS
  }

  /** A device gets commands exactly when it is live in every respect. */
  predicate Reachable(d: Candidate, now: int) {
    && !d.archived && !d.revoked && d.status == StatusOther
    && (RecentlySeen(d.lastSeenAt, now) || RecentlySeen(d.lastHandshakeAt, now))
  }

  /** Why a device is passed over; the earlier reason wins. */
  predicate SkippedFor(d: Candidate, outcome: DeviceOutcome, now: int) {
    match outcome
    case Archived => d.archived
    case Revoked => !d.archived && (d.revoked || d.status == StatusRevoked)
    case NotEnrolled => !d.archived && !d.revoked && d.status == StatusPending
    case Offline =>
      && !d.archived && !d.revoked && d.status == StatusOther
      && !RecentlySeen(d.lastSeenAt, now) && !RecentlySeen(d.lastHandshakeAt, now)
    case _ => false
  }

  function Keep(devices: seq<Candidate>, reachable: bool, now: int): seq<Candidate> {
    if devices == [] then []
    else Keep(devices[..|devices| - 1], reachable, now)
         + if Reachable(devices[|devices| - 1], now) == reachable then [devices[|devices| - 1]] else []
  }

  /** Seen at most, but not as much as, three minutes ago. */
  predicate SeenLately(at: Option<int>, now: int) {
    at != None && now - at.value < 180000
  }

  /** A device is reachable when not archived, revoked or waiting to enrol, and seen lately in either way. */
  lemma ReachableIff(d: Candidate, now: int)
    ensures Reachable(d, now)
            <==> && !d.archived && !d.revoked && d.status != StatusRevoked && d.status != StatusPending
                 && (SeenLately(d.lastSeenAt, now) || SeenLately(d.lastHandshakeAt, now))
  {
  }

  /** The lists are in the order given: one more device comes at the end of the one it belongs to. */
  lemma KeepInOrder(devices: seq<Candidate>, d: Candidate, reachable: bool, now: int)
    ensures Keep([], reachable, now) == []
    ensures Keep(devices + [d], reachable, now)
            == Keep(devices, reachable, now) + if Reachable(d, now) == reachable then [d] else []
  {
    hide Reachable;
    assert (devices + [d])[..|devices|] == devices;
  }

  /** The reason given is the first that applies, and there is one exactly when the device is not reachable. */
  lemma SkippedWhy(d: Candidate, now: int)
    ensures SkippedFor(d, Archived, now) <==> d.archived
    ensures SkippedFor(d, Revoked, now) <==> !d.archived && (d.revoked || d.status == StatusRevoked)
    ensures SkippedFor(d, NotEnrolled, now) <==> !d.archived && !d.revoked && d.status == StatusPending
    ensures SkippedFor(d, Offline, now)
            <==> && !d.archived && !d.revoked && d.status == StatusOther
                 && !SeenLately(d.lastSeenAt, now) && !SeenLately(d.lastHandshakeAt, now)
    ensures !Reachable(d, now)
            <==> || SkippedFor(d, Archived, now) || SkippedFor(d, Revoked, now)
                 || SkippedFor(d, NotEnrolled, now) || SkippedFor(d, Offline, now)
  {
  }

  /** Every device ends up on one of the two lists, in the order given, the skipped ones with their reason. */
  method SelectAfterHoursDevices(devices: seq<Candidate>, now: int)
    returns (eligible: seq<Candidate>, skipped: seq<(Candidate, DeviceOutcome)>)
    ensures eligible == Keep(devices, true, now)
    ensures |skipped| == |Keep(devices, false, now)|
    ensures forall i :: 0 <= i < |skipped| ==>
              skipped[i].0 == Keep(devices, false, now)[i] && SkippedFor(skipped[i].0, skipped[i].1, now)
  {
    eligible, skipped := [], [];
    for i := 0 to |devices|
      invariant eligible == Keep(devices[..i], true, now)
      invariant |skipped| == |Keep(devices[..i], false, now)|
      invariant forall k :: 0 <= k < |skipped| ==>
                  skipped[k].0 == Keep(devices[..i], false, now)[k] && SkippedFor(skipped[k].0, skipped[k].1, now)
    {
      var device := devices[i];
      assert devices[..i + 1][..i] == devices[..i];
      if device.archived {
        skipped := skipped + [(device, Archived)];
        continue;
      }
      if device.revoked || device.status == StatusRevoked {
        skipped := skipped + [(device, Revoked)];
        continue;
      }
      if device.status == StatusPending {
        skipped := skipped + [(device, NotEnrolled)];
        continue;
      }
      if !RecentlySeen(device.lastSeenAt, now) && !RecentlySeen(device.lastHandshakeAt, now) {
        skipped := skipped + [(device, Offline)];
        continue;
      }
      eligible := eligible + [device];
    }
    assert devices[..|devices|] == devices;
  }

  // ----- abandoning runs -----

  /** An active run as selected, with its id and site. */
  datatype ActiveRun = ActiveRun(id: string, siteId: string, run: Run)

  /** Opt-in of each known site. */
  type SiteSwitches = map<string, bool>

  /** An active run of a known site that switched runs off or is open again. */
  predicate Stale(a: ActiveRun, enabled: SiteSwitches, open: map<string, bool>) {
    && Active(a.run.status) && a.siteId in enabled
    && (!enabled[a.siteId] || (a.siteId in open && open[a.siteId]))
  }

  predicate AllStored(active: seq<ActiveRun>, runs: map<string, Run>) {
    forall i :: 0 <= i < |active| ==> active[i].id in runs
  }

  datatype Tally = Tally(rows: seq<Command>, runs: map<string, Run>, count: nat)

  /** Putting one run as read through `cancelAfterHoursRun`. */
  function CancelOne(c: Tally, a: ActiveRun): Tally
    requires a.id in c.runs
  {
    var ids := CommandIds(a.run.results);
    var taken := CancelledIds(c.rows, ids);
    Tally(CancelPending(c.rows, ids), CancelWriteRuns(c.runs, a.id, a.run, taken),
              if Closes(c.runs, a.id, a.run, taken) then c.count + 1 else c.count)
  }

  function CancelEach(rows: seq<Command>, runs: map<string, Run>, active: seq<ActiveRun>,
                      enabled: SiteSwitches, open: map<string, bool>): (r: Tally)
    requires AllStored(active, runs)
    ensures r.runs.Keys == runs.Keys
  {
    if active == [] then Tally(rows, runs, 0)
    else
      var before, last := CancelEach(rows, runs, active[..|active| - 1], enabled, open), active[|active| - 1];
      if Stale(last, enabled, open) then CancelOne(before, last) else before
  }

  /** What makes an active run one to abandon: its site switched runs off, or is open again. */
  ghost predicate ToAbandon(a: ActiveRun, enabled: SiteSwitches, open: map<string, bool>) {
    && (a.run.status == PendingApproval || a.run.status == RunQueued) && a.siteId in enabled
    && (enabled[a.siteId] == false || (a.siteId in open && open[a.siteId] == true))
  }

  /**
   One run more: if it is one to abandon, its pending commands are taken back and it is closed, as
   a single cancel does on the tables as they then are, and it counts if that closed it.
   */
  lemma CancelInTurn(rows: seq<Command>, runs: map<string, Run>, active: seq<ActiveRun>, a: ActiveRun,
                     enabled: SiteSwitches, open: map<string, bool>)
    requires AllStored(active + [a], runs) && AllStored(active, runs)
    ensures CancelEach(rows, runs, [], enabled, open) == Tally(rows, runs, 0)
    ensures var before, after := CancelEach(rows, runs, active, enabled, open),
                                 CancelEach(rows, runs, active + [a], enabled, open);
            if !ToAbandon(a, enabled, open) then after == before
            else
              && TakenBack(before.rows, after.rows, a.run.results)
              && ClosedAsRead(before.runs, after.runs, a.id, a.run, before.rows)
              && after.count
                 == before.count + if && (before.runs[a.id].status == PendingApproval
                                          || before.runs[a.id].status == RunQueued)
                                      && after.runs[a.id].status == RunCancelled then 1 else 0
  {
    assert (active + [a])[..|active|] == active;
    var before := CancelEach(rows, runs, active, enabled, open);
    assert (active + [a])[|active|] == a && a.id in before.runs;
    CancelDoes(before.rows, before.runs, a.id, a.run);
    hide TakenBack, CommandIds, CancelledIds, CancelPending, SomethingToTake, ShownCancelled, ApplyCancelled;
  }

  predicate StillWanted(run: string, active: seq<ActiveRun>, enabled: SiteSwitches, open: map<string, bool>) {
    forall i :: 0 <= i < |active| && active[i].id == run ==> !Stale(active[i], enabled, open)
  }

  function StaleCommands(active: seq<ActiveRun>, enabled: SiteSwitches, open: map<string, bool>): set<string> {
    if active == [] then {}
    else
      var rest, last := StaleCommands(active[..|active| - 1], enabled, open), active[|active| - 1];
      if Stale(last, enabled, open) then rest + CommandIds(last.run.results) else rest
  }

  lemma CancelTwice(rows: seq<Command>, a: set<string>, b: set<string>)
    ensures CancelPending(CancelPending(rows, a), b) == CancelPending(rows, a + b)
  {
  }

  lemma CancelNone(rows: seq<Command>)
    ensures CancelPending(rows, {}) == rows
  {
  }

  /** A stale run of the table that was still waiting for approval when read. */
  predicate StaleRequest(a: ActiveRun, runs: map<string, Run>, enabled: SiteSwitches, open: map<string, bool>) {
    a.id in runs && Stale(a, enabled, open) && a.run.status == PendingApproval
  }

  /**
   How the runs may differ after stale ones among `active` were abandoned: only stale runs are
   closed, nothing else happens to a run, and a stale run still waiting for approval is closed.
   */
  predicate OnlyStaleClosed(before: map<string, Run>, after: map<string, Run>, active: seq<ActiveRun>,
                            enabled: SiteSwitches, open: map<string, bool>) {
    && (forall run :: run in before ==>
          && run in after && (after[run] == before[run] || after[run].status == RunCancelled)
          && (StillWanted(run, active, enabled, open) ==> after[run] == before[run]))
    && (forall i | 0 <= i < |active| && StaleRequest(active[i], before, enabled, open) ::
          active[i].id in after && !Active(after[active[i].id].status))
  }

  lemma NothingClosedYet(runs: map<string, Run>, enabled: SiteSwitches, open: map<string, bool>)
    ensures OnlyStaleClosed(runs, runs, [], enabled, open)
  {
  }

  lemma StillWantedMore(run: string, active: seq<ActiveRun>, enabled: SiteSwitches, open: map<string, bool>)
    requires active != []
    ensures StillWanted(run, active, enabled, open)
            <==> StillWanted(run, active[..|active| - 1], enabled, open)
                 && (active[|active| - 1].id == run ==> !Stale(active[|active| - 1], enabled, open))
  {
    hide Stale;
  }

  /** One more run looked at: left alone when not stale, else put through `cancelAfterHoursRun`. */
  lemma OneMoreClosed(before: map<string, Run>, mid: map<string, Run>, after: map<string, Run>, active: seq<ActiveRun>,
                      enabled: SiteSwitches, open: map<string, bool>, cancelled: set<string>)
    requires active != [] && active[|active| - 1].id in mid
    requires OnlyStaleClosed(before, mid, active[..|active| - 1], enabled, open)
    requires var a := active[|active| - 1];
             after == if Stale(a, enabled, open) then CancelWriteRuns(mid, a.id, a.run, cancelled) else mid
    ensures OnlyStaleClosed(before, after, active, enabled, open)
  {
    hide Stale, ApplyCancelled, StillWanted;
    var n := |active| - 1;
    forall run | run in before
      ensures run in after && (after[run] == before[run] || after[run].status == RunCancelled)
      ensures StillWanted(run, active, enabled, open) ==> after[run] == before[run]
    {
      StillWantedMore(run, active, enabled, open);
    }
    forall i | 0 <= i < |active| && StaleRequest(active[i], before, enabled, open)
      ensures active[i].id in after && !Active(after[active[i].id].status)
    {
      if i < n {
        assert active[..n][i] == active[i];
      }
    }
  }

  /**
   The loop takes back the undelivered commands of every stale run as if in one go, closes every
   stale run still waiting for approval, and leaves all other runs as they were.
   */
  lemma {:induction false} StaleRunsCancelled(rows: seq<Command>, runs: map<string, Run>, active: seq<ActiveRun>,
                                              enabled: SiteSwitches, open: map<string, bool>)
    requires AllStored(active, runs)
    ensures var r := CancelEach(rows, runs, active, enabled, open);
            && r.rows == CancelPending(rows, StaleCommands(active, enabled, open))
            && OnlyStaleClosed(runs, r.runs, active, enabled, open)
    decreases |active|
  {
    hide Stale, CancelPending, CancelledIds, CommandIds, OnlyStaleClosed, CancelWriteRuns, Closes;
    if active == [] {
      CancelNone(rows);
      NothingClosedYet(runs, enabled, open);
    } else {
      var n := |active| - 1;
      var a, before := active[n], CancelEach(rows, runs, active[..n], enabled, open);
      StaleRunsCancelled(rows, runs, active[..n], enabled, open);
      var ids := CommandIds(a.run.results);
      CancelTwice(rows, StaleCommands(active[..n], enabled, open), ids);
      OneMoreClosed(runs, before.runs, CancelEach(rows, runs, active, enabled, open).runs, active, enabled, open,
        CancelledIds(before.rows, ids));
    }
  }

  predicate DistinctRuns(active: seq<ActiveRun>) {
    forall i, j :: 0 <= i < j < |active| ==> active[i].id != active[j].id
  }

  /** The commands of the `i`-th run that are still pending when its turn comes. */
  function Taken(
      rows: seq<Command>, active: seq<ActiveRun>, i: nat, enabled: SiteSwitches, open: map<string, bool>): set<string>
    requires i < |active|
  {
    CancelledIds(CancelPending(rows, StaleCommands(active[..i], enabled, open)), CommandIds(active[i].run.results))
  }

  /** Those are its pending commands that no stale run before it shares. */
  lemma TakenIff(
      rows: seq<Command>, active: seq<ActiveRun>, i: nat, enabled: SiteSwitches, open: map<string, bool>, id: string)
    requires i < |active|
    ensures id in Taken(rows, active, i, enabled, open)
            <==> id in CommandIds(active[i].run.results) && id !in StaleCommands(active[..i], enabled, open)
                 && exists k :: 0 <= k < |rows| && rows[k].id == id && rows[k].status == Pending
  {
    hide CommandIds, StaleCommands;
    var earlier := StaleCommands(active[..i], enabled, open);
    var left, ids := CancelPending(rows, earlier), CommandIds(active[i].run.results);
    if k :| 0 <= k < |left| && left[k].id == id && id in ids && left[k].status == Pending {
      assert rows[k] == left[k];
    }
    if k :| 0 <= k < |rows| && rows[k].id == id && rows[k].status == Pending && id !in earlier && id in ids {
      assert left[k] == rows[k];
    }
  }

  /**
   What becomes of each run: a stale one is closed exactly when it is still active and either
   waits for approval or has a command taken back; its receipt then shows what was taken.
   */
  lemma {:induction false} StaleRunBecomes(rows: seq<Command>, runs: map<string, Run>, active: seq<ActiveRun>, i: nat,
                                           enabled: SiteSwitches, open: map<string, bool>)
    requires AllStored(active, runs) && DistinctRuns(active) && i < |active|
    ensures var after, a := CancelEach(rows, runs, active, enabled, open).runs, active[i];
            var taken := Taken(rows, active, i, enabled, open);
            && a.id in after
            && after[a.id] == (if Stale(a, enabled, open) && Active(runs[a.id].status)
               && (a.run.status == PendingApproval || taken != {})
                               then Run(RunCancelled, ApplyCancelled(a.run.results, taken)) else runs[a.id])
    decreases |active|
  {
    hide Stale, CancelPending, CancelledIds, CommandIds, ApplyCancelled, OnlyStaleClosed, StillWanted;
    var n := |active| - 1;
    var before := CancelEach(rows, runs, active[..n], enabled, open);
    if i < n {
      StaleRunBecomes(rows, runs, active[..n], i, enabled, open);
      assert active[..n][..i] == active[..i] && active[..n][i] == active[i];
    } else {
      StaleRunsCancelled(rows, runs, active[..n], enabled, open);
      UnlistedStays(runs, before.runs, active[..n], enabled, open, active[n].id);
    }
  }

  lemma UnlistedStays(before: map<string, Run>, after: map<string, Run>, active: seq<ActiveRun>,
                      enabled: SiteSwitches, open: map<string, bool>, run: string)
    requires OnlyStaleClosed(before, after, active, enabled, open) && run in before
    requires forall i :: 0 <= i < |active| ==> active[i].id != run
    ensures run in after && after[run] == before[run]
  {
    hide Stale;
    assert StillWanted(run, active, enabled, open);
  }

  /** `cancelStaleActiveRuns`; returns how many runs it closed. */
  method CancelStaleActiveRuns(tables: Tables, active: seq<ActiveRun>, enabled: SiteSwitches, open: map<string, bool>)
    returns (cancelled: nat)
    requires AllStored(active, tables.runs)
    modifies tables
    ensures Tally(tables.rows, tables.runs, cancelled)
            == CancelEach(old(tables.rows), old(tables.runs), active, enabled, open)
    ensures tables.rows == CancelPending(old(tables.rows), StaleCommands(active, enabled, open))
    ensures OnlyStaleClosed(old(tables.runs), tables.runs, active, enabled, open)
  {
    hide CancelledIds, CommandIds, OnlyStaleClosed, CancelPending, CancelWriteRuns, Closes;
    ghost var rows, runs := tables.rows, tables.runs;
    StaleRunsCancelled(rows, runs, active, enabled, open);
    cancelled := 0;
    for i := 0 to |active|
      invariant Tally(tables.rows, tables.runs, cancelled) == CancelEach(rows, runs, active[..i], enabled, open)
    {
      var a := active[i];
      assert active[..i + 1][..i] == active[..i];
      if a.siteId !in enabled {
        continue;
      }
      var reason := DecideAfterHoursCancel(a.run.status, enabled[a.siteId], Previous(open, a.siteId));
      if reason.None? {
        continue;
      }
      var result := tables.CancelAfterHoursRun(a.id, a.run);
      if result.Some? {
        cancelled := cancelled + 1;
      }
    }
    assert active[..|active|] == active;
  }
}
