/**
 Storing accepted module reports (apps/web/lib/agent-modules.ts, ingestModuleObservations). The
 table has one row for each device, module and collector, as its unique index demands.
 */
module ModuleObservations {
  import opened Options
  import opened ModuleReports

  datatype Key = Key(deviceId: string, moduleId: string, collectorId: string)

  datatype Stored = Stored(observation: Observation, lastSeenAt: int)

  type Rows = map<Key, Stored>

  function KeyOf(device: string, moduleId: string, o: Observation): Key {
    Key(device, moduleId, o.id)
  }

  /** Rows of a device for one module. */
  function RowsFor(rows: Rows, device: string, moduleId: string): set<Key> {
    set k | k in rows && k.deviceId == device && k.moduleId == moduleId
  }

  function ObservationRows(device: string, moduleId: string, observations: seq<Observation>, now: int): Rows {
    if observations == [] then map[]
    else
      var last := observations[|observations| - 1];
      ObservationRows(device, moduleId, observations[..|observations| - 1], now)
        [KeyOf(device, moduleId, last) := Stored(last, now)]
  }

  /** One report replaces all the rows of its module, unless it reports nothing. */
  function AfterReport(rows: Rows, device: string, report: Report, now: int): Rows {
    if report.observations == [] then rows
    else (rows - RowsFor(rows, device, report.moduleId))
         + ObservationRows(device, report.moduleId, report.observations, now)
  }

  function AfterReports(rows: Rows, device: string, reports: seq<Report>, now: int): Rows {
    if reports == [] then rows
    else AfterReport(AfterReports(rows, device, reports[..|reports| - 1], now), device, reports[|reports| - 1], now)
  }

  function Unassigned(rows: Rows, device: string, moduleIds: seq<string>): set<Key> {
    set k | k in rows && k.deviceId == device && k.moduleId !in moduleIds
  }

  class ObservationTable {
    var rows: Rows

    constructor ()
      ensures rows == map[]
    {
      rows := map[];
    }

    /** Two rows of one report for the same collector would break the unique index; accepted reports have none. */
    method IngestModuleObservations(
        device: string, now: int, reports: seq<Report>, moduleIds: seq<string>, replace: bool)
      requires forall i :: 0 <= i < |reports| ==> DistinctObservations(reports[i].observations)
      modifies this
      ensures var kept := old(rows) - Unassigned(old(rows), device, moduleIds);
              rows == if moduleIds != [] && replace then AfterReports(kept, device, reports, now) else kept
    {
      if |moduleIds| == 0 {
        rows := rows - set k | k in rows && k.deviceId == device;
        return;
      }
      rows := rows - Unassigned(rows, device, moduleIds);
      if !replace || |reports| == 0 {
        return;
      }
      ghost var kept := rows;
      for i := 0 to |reports|
        invariant rows == AfterReports(kept, device, reports[..i], now)
      {
        assert reports[..i + 1][..i] == reports[..i];
        if |reports[i].observations| == 0 {
          continue;
        }
        StoreReport(device, reports[i], now);
      }
      assert reports[..|reports|] == reports;
    }

    /** Update or insert what is reported, then delete what is not. */
    method StoreReport(device: string, report: Report, now: int)
      requires report.observations != [] && DistinctObservations(report.observations)
      modifies this
      ensures rows == AfterReport(old(rows), device, report, now)
    {
      var moduleId, observations := report.moduleId, report.observations;
      var existing := RowsFor(rows, device, moduleId);
      hide ObservationRows, ObservationIds, DistinctObservations, RowsFor, AfterReport;
      assert ObservationRows(device, moduleId, observations[..0], now) == map[] by { NoRows(device, moduleId, now); }
      for i := 0 to |observations|
        invariant rows == old(rows) + ObservationRows(device, moduleId, observations[..i], now)
      {
        RowsOneMore(device, moduleId, observations, i, now);
        // An update where the collector has a row, else an insert: never of a key inserted before.
        rows := rows[KeyOf(device, moduleId, observations[i]) := Stored(observations[i], now)];
      }
      assert observations[..|observations|] == observations;
      var reported := ObservationIds(observations);
      var stale := set k | k in existing && k.collectorId !in reported;
      StaleRemoved(old(rows), device, report, now);
      rows := rows - stale;
    }
  }

  lemma NoRows(device: string, moduleId: string, now: int)
    ensures ObservationRows(device, moduleId, [], now) == map[]
  {
  }

  lemma RowsOneMore(device: string, moduleId: string, observations: seq<Observation>, i: nat, now: int)
    requires i < |observations|
    ensures ObservationRows(device, moduleId, observations[..i + 1], now)
            == ObservationRows(device, moduleId, observations[..i], now)
               [KeyOf(device, moduleId, observations[i]) := Stored(observations[i], now)]
  {
    assert observations[..i + 1][..i] == observations[..i];
  }

  lemma {:induction false} ObservationRowKeys(
      device: string, moduleId: string, observations: seq<Observation>, now: int)
    ensures forall k :: k in ObservationRows(device, moduleId, observations, now)
              <==> k.deviceId == device && k.moduleId == moduleId && k.collectorId in ObservationIds(observations)
    decreases |observations|
  {
    if observations != [] {
      var n := |observations| - 1;
      ObservationRowKeys(device, moduleId, observations[..n], now);
      IdsOneMore(observations, n);
      assert observations[..n + 1] == observations;
    }
  }

  /** Writing the reported rows and then deleting the unreported ones replaces the module's rows. */
  lemma StaleRemoved(rows: Rows, device: string, report: Report, now: int)
    requires report.observations != []
    ensures var existing := RowsFor(rows, device, report.moduleId);
            var stale := set k | k in existing && k.collectorId !in ObservationIds(report.observations);
            (rows + ObservationRows(device, report.moduleId, report.observations, now)) - stale
              == AfterReport(rows, device, report, now)
  {
    ObservationRowKeys(device, report.moduleId, report.observations, now);
    hide ObservationRows, ObservationIds;
  }

  // ----- what is stored afterwards -----

  lemma {:induction false} ObservationRow(
      device: string, moduleId: string, observations: seq<Observation>, now: int, i: nat)
    requires DistinctObservations(observations) && i < |observations|
    ensures var key := KeyOf(device, moduleId, observations[i]);
            var stored := ObservationRows(device, moduleId, observations, now);
            key in stored && stored[key] == Stored(observations[i], now)
    decreases |observations|
  {
    var n := |observations| - 1;
    if i < n {
      ObservationRow(device, moduleId, observations[..n], now, i);
    }
  }

  predicate SameFor(a: Rows, b: Rows, key: Key) {
    (key in a <==> key in b) && (key in a ==> key in b && a[key] == b[key])
  }

  lemma ReportLeavesOthers(rows: Rows, device: string, report: Report, now: int, key: Key)
    requires key.deviceId != device || key.moduleId != report.moduleId
    ensures SameFor(AfterReport(rows, device, report, now), rows, key)
  {
    ObservationRowKeys(device, report.moduleId, report.observations, now);
  }

  lemma {:induction false} ReportsLeaveOthers(rows: Rows, device: string, reports: seq<Report>, now: int, key: Key)
    requires key.deviceId != device || forall i :: 0 <= i < |reports| ==> reports[i].moduleId != key.moduleId
    ensures SameFor(AfterReports(rows, device, reports, now), rows, key)
    decreases |reports|
  {
    hide AfterReport;
    if reports != [] {
      ReportsLeaveOthers(rows, device, reports[..|reports| - 1], now, key);
      ReportLeavesOthers(AfterReports(rows, device, reports[..|reports| - 1], now), device, reports[|reports| - 1],
        now, key);
    }
  }

  /** The rows a report leaves for its module: its observations, or what was there when it has none. */
  predicate HoldsReport(before: Rows, after: Rows, device: string, report: Report, now: int) {
    if report.observations == [] then
      RowsFor(after, device, report.moduleId) == RowsFor(before, device, report.moduleId)
    else
      && (forall k :: k in RowsFor(after, device, report.moduleId) ==>
         k.collectorId in ObservationIds(report.observations))
      && forall i :: 0 <= i < |report.observations| ==>
           var key := KeyOf(device, report.moduleId, report.observations[i]);
           key in after && after[key] == Stored(report.observations[i], now)
  }

  lemma ReportIsHeld(rows: Rows, device: string, report: Report, now: int)
    requires DistinctObservations(report.observations)
    ensures HoldsReport(rows, AfterReport(rows, device, report, now), device, report, now)
  {
    if report.observations != [] {
      ObservationRowKeys(device, report.moduleId, report.observations, now);
      forall i | 0 <= i < |report.observations|
        ensures var key := KeyOf(device, report.moduleId, report.observations[i]);
                var after := AfterReport(rows, device, report, now);
                key in after && after[key] == Stored(report.observations[i], now)
      {
        ObservationRow(device, report.moduleId, report.observations, now, i);
      }
    }
  }

  lemma HeldTransfers(a: Rows, b: Rows, c: Rows, d: Rows, device: string, report: Report, now: int)
    requires HoldsReport(b, c, device, report, now)
    requires forall k: Key :: k.deviceId == device && k.moduleId == report.moduleId ==>
             SameFor(a, b, k) && SameFor(c, d, k)
    ensures HoldsReport(a, d, device, report, now)
  {
    assert RowsFor(a, device, report.moduleId) == RowsFor(b, device, report.moduleId);
    assert RowsFor(c, device, report.moduleId) == RowsFor(d, device, report.moduleId);
  }

  lemma {:induction false} EveryReportIsHeld(rows: Rows, device: string, reports: seq<Report>, now: int, i: nat)
    requires DistinctModules(reports) && i < |reports| && DistinctObservations(reports[i].observations)
    ensures HoldsReport(rows, AfterReports(rows, device, reports, now), device, reports[i], now)
    decreases |reports|
  {
    hide AfterReport, HoldsReport, DistinctObservations, SameFor;
    var n := |reports| - 1;
    var before, last := AfterReports(rows, device, reports[..n], now), reports[n];
    if i < n {
      EveryReportIsHeld(rows, device, reports[..n], now, i);
      forall k: Key | k.deviceId == device && k.moduleId == reports[i].moduleId
        ensures SameFor(rows, rows, k) && SameFor(before, AfterReport(before, device, last, now), k)
      {
        ReportLeavesOthers(before, device, last, now, k);
        SameBack(before, AfterReport(before, device, last, now), k);
        SameBack(rows, rows, k);
      }
      HeldTransfers(rows, rows, before, AfterReport(before, device, last, now), device, reports[i], now);
    } else {
      ReportIsHeld(before, device, last, now);
      forall k: Key | k.deviceId == device && k.moduleId == last.moduleId
        ensures SameFor(rows, before, k)
                && SameFor(AfterReport(before, device, last, now), AfterReport(before, device, last, now), k)
      {
        ReportsLeaveOthers(rows, device, reports[..n], now, k);
        SameBack(rows, before, k);
        SameBack(AfterReport(before, device, last, now), AfterReport(before, device, last, now), k);
      }
      HeldTransfers(rows, before, AfterReport(before, device, last, now), AfterReport(before, device, last, now),
        device, last, now);
    }
  }

  lemma SameBack(a: Rows, b: Rows, k: Key)
    ensures SameFor(b, a, k) ==> SameFor(a, b, k)
    ensures a == b ==> SameFor(a, b, k)
  {
  }

  lemma AcceptedShape(modules: seq<Module>, reports: seq<Report>, i: nat)
    requires SoundReports(modules, reports) && i < |KnownReports(modules, reports)|
    ensures var k := KnownReports(modules, reports)[i];
            DistinctObservations(k.observations) && FindModule(modules, k.moduleId).Some?
  {
    hide KnownReports, FindModule, SoundReport, DistinctObservations;
    AcceptedReports(modules, reports);
    var k := KnownReports(modules, reports)[i];
    assert k in KnownReports(modules, reports);
    var r :| r in reports && Kept(modules, r, k);
  }

  /**
   Storing the accepted reports of a check-in: modules Hub does not assign have no rows left,
   each reported module has exactly what was just reported, assigned modules without a report
   keep what they had, and no other device is touched.
   */
  lemma {:induction false} StoredAfterCheckIn(
      rows: Rows, device: string, modules: seq<Module>, moduleIds: seq<string>, reports: seq<Report>, now: int)
    requires SoundReports(modules, reports)
    requires forall id :: id in moduleIds <==> FindModule(modules, id).Some?
    ensures var accepted := KnownReports(modules, reports);
            var kept := rows - Unassigned(rows, device, moduleIds);
            var after := AfterReports(kept, device, accepted, now);
            && (forall k :: k in after && k.deviceId == device ==> k.moduleId in moduleIds)
            && (forall i :: 0 <= i < |accepted| ==> HoldsReport(kept, after, device, accepted[i], now))
            && (forall k: Key | k.deviceId == device && k.moduleId in moduleIds && k.moduleId !in ModuleIds(accepted) ::
                 SameFor(after, rows, k))
            && (forall k: Key :: k.deviceId != device ==> SameFor(after, rows, k))
  {
    AcceptedDistinct(modules, reports);
    hide AfterReports, HoldsReport, KnownReports, FindModule, DistinctModules, SoundReports, DistinctObservations;
    var accepted := KnownReports(modules, reports);
    var kept := rows - Unassigned(rows, device, moduleIds);
    var after := AfterReports(kept, device, accepted, now);
    forall i | 0 <= i < |accepted|
      ensures HoldsReport(kept, after, device, accepted[i], now) && accepted[i].moduleId in moduleIds {
      AcceptedShape(modules, reports, i);
      EveryReportIsHeld(kept, device, accepted, now, i);
    }
    forall k: Key | k.deviceId != device || k.moduleId !in ModuleIds(accepted) ensures SameFor(after, kept, k) {
      ReportsLeaveOthers(kept, device, accepted, now, k);
    }
  }
}
