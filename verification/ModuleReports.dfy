/**
 Which module reports of a check-in Hub accepts (packages/shared/src/agent-modules.ts,
 validateReportedModules).
 */
module ModuleReports {
  import opened Options
  import Text

  datatype Collector = Collector(id: string, collectorType: string)

  datatype Module = Module(id: string, kind: string, collectors: seq<Collector>)

  datatype Observation = Observation(id: string, collectorType: string, payload: string)

  datatype Report = Report(moduleId: string, kind: string, observations: seq<Observation>)

  datatype Refusal = PoisonedPayload | DuplicateModule | KindMismatch | DuplicateCollector | CollectorTypeMismatch

  datatype Decision = Accepted(reports: seq<Report>) | Refused(reason: Refusal)

  /** The definition of a module id; a later definition of the same id replaces an earlier one. */
  function FindModule(modules: seq<Module>, id: string): (r: Option<Module>)
    ensures r.Some? ==> r.value in modules && r.value.id == id
    ensures r.None? ==> forall m :: m in modules ==> m.id != id
  {
    if modules == [] then None
    else if modules[|modules| - 1].id == id then Some(modules[|modules| - 1])
    else FindModule(modules[..|modules| - 1], id)
  }

  function FindCollector(collectors: seq<Collector>, id: string): (r: Option<Collector>)
    ensures r.Some? ==> r.value in collectors && r.value.id == id
    ensures r.None? ==> forall c :: c in collectors ==> c.id != id
  {
    if collectors == [] then None
    else if collectors[|collectors| - 1].id == id then Some(collectors[|collectors| - 1])
    else FindCollector(collectors[..|collectors| - 1], id)
  }

  function ModuleIds(reports: seq<Report>): set<string> {
    set i | 0 <= i < |reports| :: reports[i].moduleId
  }

  function ObservationIds(observations: seq<Observation>): set<string> {
    set i | 0 <= i < |observations| :: observations[i].id
  }

  /** The first thing wrong with the observations of an assigned module's report. */
  function ObservationsRefusal(collectors: seq<Collector>, observations: seq<Observation>): Option<Refusal> {
    if observations == [] then None
    else
      var init, last := observations[..|observations| - 1], observations[|observations| - 1];
      var earlier := ObservationsRefusal(collectors, init);
      if earlier.Some? then earlier
      else if last.id in ObservationIds(init) then Some(DuplicateCollector)
      else
        var c := FindCollector(collectors, last.id);
        if c.Some? && c.value.collectorType != last.collectorType then Some(CollectorTypeMismatch) else None
  }

  /** The first thing wrong with a list of reports. */
  function ReportsRefusal(modules: seq<Module>, reports: seq<Report>): Option<Refusal> {
    if reports == [] then None
    else
      var init, last := reports[..|reports| - 1], reports[|reports| - 1];
      var earlier := ReportsRefusal(modules, init);
      if earlier.Some? then earlier
      else if last.moduleId in ModuleIds(init) then Some(DuplicateModule)
      else
        match FindModule(modules, last.moduleId)
        case None => None
        case Some(m) => if m.kind != last.kind then Some(KindMismatch)
          else ObservationsRefusal(m.collectors, last.observations)
  }

  function KnownObservations(collectors: seq<Collector>, observations: seq<Observation>): seq<Observation> {
    if observations == [] then []
    else
      var last := observations[|observations| - 1];
      KnownObservations(collectors, observations[..|observations| - 1]) + if FindCollector(collectors, last.id).Some?
        then [last] else []
  }

  /** The reports cut down, in order, to assigned modules and to collectors they define. */
  function KnownReports(modules: seq<Module>, reports: seq<Report>): seq<Report> {
    if reports == [] then []
    else
      var init, last := KnownReports(modules, reports[..|reports| - 1]), reports[|reports| - 1];
      match FindModule(modules, last.moduleId)
      case None => init
      case Some(m) => init + [last.(observations := KnownObservations(m.collectors, last.observations))]
  }

  /** The inner loop over one report's observations. */
  method CheckObservations(collectors: seq<Collector>, observations: seq<Observation>)
    returns (refusal: Option<Refusal>, kept: seq<Observation>)
    ensures refusal == ObservationsRefusal(collectors, observations)
    ensures refusal.None? ==> kept == KnownObservations(collectors, observations)
  {
    var seen: set<string> := {};
    kept := [];
    for i := 0 to |observations|
      invariant ObservationsRefusal(collectors, observations[..i]) == None
      invariant seen == ObservationIds(observations[..i]) && kept == KnownObservations(collectors, observations[..i])
    {
      var observation := observations[i];
      assert observations[..i + 1][..i] == observations[..i];
      IdsOneMore(observations, i);
      if observation.id in seen {
        RefusalStays(collectors, observations, i + 1);
        return Some(DuplicateCollector), [];
      }
      seen := seen + {observation.id};
      var collector := FindCollector(collectors, observation.id);
      if collector.None? {
        continue;
      }
      if observation.collectorType != collector.value.collectorType {
        RefusalStays(collectors, observations, i + 1);
        return Some(CollectorTypeMismatch), [];
      }
      kept := kept + [observation];
    }
    assert observations[..|observations|] == observations;
    refusal := None;
  }

  // ----- forbidden shapes -----

  /** A JSON value; numbers and booleans are all alike here. */
  datatype Json = Null | Scalar | Words(text: string) | Items(items: seq<Json>) | Fields(fields: seq<(string, Json)>)

  const JSON_DEPTH_MAX: nat := 6

  predicate PoisonedKey(key: string) {
    Text.Lower(key) == "__proto__" || Text.Lower(key) == "constructor" || Text.Lower(key) == "prototype"
  }

  /** `script` recognises text that looks like a script or a binary. */
  predicate HasPoisonedKeys(value: Json, depth: nat, script: string -> bool)
    decreases value
  {
    if depth > JSON_DEPTH_MAX then true
    else
      match value
      case Null => false
      case Scalar => false
      case Words(text) => script(text)
      case Items(items) => exists i :: 0 <= i < |items| && HasPoisonedKeys(items[i], depth + 1, script)
      case Fields(fields) =>
        exists i :: 0 <= i < |fields| && (PoisonedKey(fields[i].0) || HasPoisonedKeys(fields[i].1, depth + 1, script))
  }

  /** The part of a value that a path of places leads to. */
  function At(value: Json, path: seq<nat>): Option<Json>
    decreases |path|
  {
    if path == [] then Some(value)
    else if value.Items? && path[0] < |value.items| then At(value.items[path[0]], path[1..])
    else if value.Fields? && path[0] < |value.fields| then At(value.fields[path[0]].1, path[1..])
    else None
  }

  predicate BadPart(part: Json, script: string -> bool) {
    || (part.Words? && script(part.text))
    || (part.Fields? && exists i :: 0 <= i < |part.fields| && PoisonedKey(part.fields[i].0))
  }

  /** Something bad at the end of a path, or simply a path that is too long. */
  predicate Offends(value: Json, depth: nat, path: seq<nat>, script: string -> bool) {
    var part := At(value, path);
    part.Some? && (depth + |path| > JSON_DEPTH_MAX || BadPart(part.value, script))
  }

  lemma OffendsBelow(value: Json, depth: nat, i: nat, child: Json, path: seq<nat>, script: string -> bool)
    requires (value.Items? && i < |value.items| && value.items[i] == child)
             || (value.Fields? && i < |value.fields| && value.fields[i].1 == child)
    ensures Offends(value, depth, [i] + path, script) <==> Offends(child, depth + 1, path, script)
  {
    assert ([i] + path)[1..] == path;
  }

  /**
   The recursive scan finds a payload poisoned exactly when some part of it, at any depth, has a
   forbidden key or looks like a script, or some part is nested too deeply.
   */
  lemma {:induction false} PoisonedIff(value: Json, depth: nat, script: string -> bool)
    ensures HasPoisonedKeys(value, depth, script) <==> exists path :: Offends(value, depth, path, script)
    decreases value
  {
    hide PoisonedKey;
    if HasPoisonedKeys(value, depth, script) {
      PoisonedOffends(value, depth, script);
    }
    if path :| Offends(value, depth, path, script) {
      OffendsPoisoned(value, depth, path, script);
    }
  }

  lemma {:induction false} PoisonedOffends(value: Json, depth: nat, script: string -> bool)
    requires HasPoisonedKeys(value, depth, script)
    ensures exists path :: Offends(value, depth, path, script)
    decreases value
  {
    hide PoisonedKey;
    if depth > JSON_DEPTH_MAX || BadPart(value, script) {
      assert Offends(value, depth, [], script);
    } else if value.Items? {
      var i :| 0 <= i < |value.items| && HasPoisonedKeys(value.items[i], depth + 1, script);
      PoisonedOffends(value.items[i], depth + 1, script);
      var path :| Offends(value.items[i], depth + 1, path, script);
      OffendsBelow(value, depth, i, value.items[i], path, script);
    } else {
      var i :| 0 <= i < |value.fields|
        && (PoisonedKey(value.fields[i].0) || HasPoisonedKeys(value.fields[i].1, depth + 1, script));
      PoisonedOffends(value.fields[i].1, depth + 1, script);
      var path :| Offends(value.fields[i].1, depth + 1, path, script);
      OffendsBelow(value, depth, i, value.fields[i].1, path, script);
    }
  }

  lemma {:induction false} OffendsPoisoned(value: Json, depth: nat, path: seq<nat>, script: string -> bool)
    requires Offends(value, depth, path, script)
    ensures HasPoisonedKeys(value, depth, script)
    decreases |path|
  {
    hide PoisonedKey;
    if path != [] && depth <= JSON_DEPTH_MAX {
      var i, rest := path[0], path[1..];
      assert [i] + rest == path;
      var child := if value.Items? then value.items[i] else value.fields[i].1;
      OffendsBelow(value, depth, i, child, rest, script);
      OffendsPoisoned(child, depth + 1, rest, script);
    }
  }

  /** `payload` is the JSON that `reported` was read from. */
  method ValidateReportedModules(
      modules: seq<Module>, reported: Option<seq<Report>>, payload: Json, script: string -> bool)
    returns (decision: Decision)
    ensures reported.None? ==> decision == Accepted([])
    ensures reported.Some? && HasPoisonedKeys(payload, 0, script) ==> decision == Refused(PoisonedPayload)
    ensures reported.Some? && !HasPoisonedKeys(payload, 0, script) ==>
              var refusal := ReportsRefusal(modules, reported.value);
              decision == if refusal.Some? then Refused(refusal.value)
                else Accepted(KnownReports(modules, reported.value))
  {
    if reported.None? {
      return Accepted([]);
    }
    if HasPoisonedKeys(payload, 0, script) {
      return Refused(PoisonedPayload);
    }
    var reports := reported.value;
    var seen: set<string> := {};
    var accepted: seq<Report> := [];
    for i := 0 to |reports|
      invariant ReportsRefusal(modules, reports[..i]) == None
      invariant seen == ModuleIds(reports[..i]) && accepted == KnownReports(modules, reports[..i])
    {
      var report := reports[i];
      assert reports[..i + 1][..i] == reports[..i];
      ModulesOneMore(reports, i);
      if report.moduleId in seen {
        ReportsRefusalStays(modules, reports, i + 1);
        return Refused(DuplicateModule);
      }
      seen := seen + {report.moduleId};
      var definition := FindModule(modules, report.moduleId);
      if definition.None? {
        continue;
      }
      if definition.value.kind != report.kind {
        ReportsRefusalStays(modules, reports, i + 1);
        return Refused(KindMismatch);
      }
      var refusal, observations := CheckObservations(definition.value.collectors, report.observations);
      if refusal.Some? {
        ReportsRefusalStays(modules, reports, i + 1);
        return Refused(refusal.value);
      }
      accepted := accepted + [Report(report.moduleId, report.kind, observations)];
    }
    assert reports[..|reports|] == reports;
    decision := Accepted(accepted);
  }

  lemma IdsOneMore(observations: seq<Observation>, i: nat)
    requires i < |observations|
    ensures ObservationIds(observations[..i + 1]) == ObservationIds(observations[..i]) + {observations[i].id}
  {
    var a, b := observations[..i], observations[..i + 1];
    assert forall j :: 0 <= j < i ==> a[j] == b[j];
    assert b[i] == observations[i];
  }

  lemma ModulesOneMore(reports: seq<Report>, i: nat)
    requires i < |reports|
    ensures ModuleIds(reports[..i + 1]) == ModuleIds(reports[..i]) + {reports[i].moduleId}
  {
    var a, b := reports[..i], reports[..i + 1];
    assert forall j :: 0 <= j < i ==> a[j] == b[j];
    assert b[i] == reports[i];
  }

  /** What is wrong with a beginning stays the first thing wrong with the whole. */
  lemma {:induction false} RefusalStays(collectors: seq<Collector>, observations: seq<Observation>, n: nat)
    requires n <= |observations| && ObservationsRefusal(collectors, observations[..n]).Some?
    ensures ObservationsRefusal(collectors, observations) == ObservationsRefusal(collectors, observations[..n])
    decreases |observations|
  {
    if n == |observations| {
      assert observations[..n] == observations;
    } else {
      var init := observations[..|observations| - 1];
      assert init[..n] == observations[..n];
      RefusalStays(collectors, init, n);
    }
  }

  lemma {:induction false} ReportsRefusalStays(modules: seq<Module>, reports: seq<Report>, n: nat)
    requires n <= |reports| && ReportsRefusal(modules, reports[..n]).Some?
    ensures ReportsRefusal(modules, reports) == ReportsRefusal(modules, reports[..n])
    decreases |reports|
  {
    if n == |reports| {
      assert reports[..n] == reports;
    } else {
      var init := reports[..|reports| - 1];
      assert init[..n] == reports[..n];
      ReportsRefusalStays(modules, init, n);
    }
  }

  /** The last definition listed under the id. */
  predicate LastModule(modules: seq<Module>, id: string, i: nat) {
    i < |modules| && modules[i].id == id && forall j :: i < j < |modules| ==> modules[j].id != id
  }

  predicate LastCollector(collectors: seq<Collector>, id: string, i: nat) {
    i < |collectors| && collectors[i].id == id && forall j :: i < j < |collectors| ==> collectors[j].id != id
  }

  /** Of several definitions under one id the last counts. */
  lemma {:induction false} DefinitionIs(modules: seq<Module>, id: string, i: nat)
    requires LastModule(modules, id, i)
    ensures FindModule(modules, id) == Some(modules[i])
    decreases |modules|
  {
    if i < |modules| - 1 {
      assert modules[|modules| - 1].id != id;
      DefinitionIs(modules[..|modules| - 1], id, i);
    }
  }

  lemma {:induction false} CollectorIs(collectors: seq<Collector>, id: string, i: nat)
    requires LastCollector(collectors, id, i)
    ensures FindCollector(collectors, id) == Some(collectors[i])
    decreases |collectors|
  {
    if i < |collectors| - 1 {
      assert collectors[|collectors| - 1].id != id;
      CollectorIs(collectors[..|collectors| - 1], id, i);
    }
  }

  /** The three forbidden names, in any ASCII case; and nesting below the sixth level is too deep. */
  lemma Forbidden(key: string, value: Json, script: string -> bool)
    ensures PoisonedKey(key) <==> Text.Lower(key) in ["__proto__", "constructor", "prototype"]
    ensures HasPoisonedKeys(value, 7, script)
    ensures HasPoisonedKeys(Words("x"), 6, script) <==> script("x")
    ensures !HasPoisonedKeys(Scalar, 6, script) && !HasPoisonedKeys(Null, 6, script)
  {
    var names := ["__proto__", "constructor", "prototype"];
    assert names[0] == "__proto__" && names[1] == "constructor" && names[2] == "prototype";
  }

  predicate HasObservation(observations: seq<Observation>, id: string) {
    exists i :: 0 <= i < |observations| && observations[i].id == id
  }

  predicate HasReport(reports: seq<Report>, id: string) {
    exists i :: 0 <= i < |reports| && reports[i].moduleId == id
  }

  predicate NoCollector(collectors: seq<Collector>, id: string) {
    forall i :: 0 <= i < |collectors| ==> collectors[i].id != id
  }

  predicate NoModule(modules: seq<Module>, id: string) {
    forall i :: 0 <= i < |modules| ==> modules[i].id != id
  }

  lemma NoCollectorIff(collectors: seq<Collector>, id: string)
    ensures NoCollector(collectors, id) <==> FindCollector(collectors, id) == None
  {
    hide FindCollector;
    var found := FindCollector(collectors, id);
    assert found.None? || found.Some?;
  }

  lemma NoModuleIff(modules: seq<Module>, id: string)
    ensures NoModule(modules, id) <==> FindModule(modules, id) == None
  {
    hide FindModule;
    var found := FindModule(modules, id);
    assert found.None? || found.Some?;
  }

  /**
   One observation more: refused if its id came before; dropped if no collector has it; refused if
   its type is not its collector's; else kept.
   */
  lemma ObservationsInOrder(collectors: seq<Collector>, observations: seq<Observation>, o: Observation, d: nat)
    ensures ObservationsRefusal(collectors, []) == None && KnownObservations(collectors, []) == []
    ensures var before, after := ObservationsRefusal(collectors, observations),
                                 ObservationsRefusal(collectors, observations + [o]);
            && (before.Some? ==> after == before)
            && (before.None? && HasObservation(observations, o.id) ==> after == Some(DuplicateCollector))
            && (before.None? && !HasObservation(observations, o.id) && NoCollector(collectors, o.id) ==> after == None)
            && (before.None? && !HasObservation(observations, o.id) && LastCollector(collectors, o.id, d) ==>
                  after == if collectors[d].collectorType != o.collectorType then Some(CollectorTypeMismatch) else None)
    ensures KnownObservations(collectors, observations + [o])
            == KnownObservations(collectors, observations) + if NoCollector(collectors, o.id) then [] else [o]
  {
    assert (observations + [o])[..|observations|] == observations;
    if LastCollector(collectors, o.id, d) {
      CollectorIs(collectors, o.id, d);
    }
    NoCollectorIff(collectors, o.id);
    assert o.id in ObservationIds(observations) <==> HasObservation(observations, o.id);
    hide FindCollector, ObservationIds, NoCollector, HasObservation;
  }

  /**
   One report more: refused if its module came before; dropped if Hub does not assign the module;
   refused if its kind is not the module's, or for its observations; else kept, cut down.
   */
  lemma ReportsInOrder(modules: seq<Module>, reports: seq<Report>, r: Report, d: nat)
    ensures ReportsRefusal(modules, []) == None && KnownReports(modules, []) == []
    ensures var before, after := ReportsRefusal(modules, reports), ReportsRefusal(modules, reports + [r]);
            && (before.Some? ==> after == before)
            && (before.None? && HasReport(reports, r.moduleId) ==> after == Some(DuplicateModule))
            && (before.None? && !HasReport(reports, r.moduleId) && NoModule(modules, r.moduleId) ==> after == None)
            && (before.None? && !HasReport(reports, r.moduleId) && LastModule(modules, r.moduleId, d) ==>
                  after == if modules[d].kind != r.kind then Some(KindMismatch)
                           else ObservationsRefusal(modules[d].collectors, r.observations))
    ensures NoModule(modules, r.moduleId) ==> KnownReports(modules, reports + [r]) == KnownReports(modules, reports)
    ensures LastModule(modules, r.moduleId, d) ==>
              KnownReports(modules, reports + [r])
              == KnownReports(modules, reports)
                 + [Report(r.moduleId, r.kind, KnownObservations(modules[d].collectors, r.observations))]
  {
    assert (reports + [r])[..|reports|] == reports;
    if LastModule(modules, r.moduleId, d) {
      DefinitionIs(modules, r.moduleId, d);
    }
    NoModuleIff(modules, r.moduleId);
    assert r.moduleId in ModuleIds(reports) <==> HasReport(reports, r.moduleId);
    hide FindModule, ModuleIds, NoModule, HasReport, ObservationsRefusal, KnownObservations;
  }

  // ----- what acceptance means -----

  predicate DistinctObservations(observations: seq<Observation>) {
    forall i, j :: 0 <= i < j < |observations| ==> observations[i].id != observations[j].id
  }

  predicate DistinctModules(reports: seq<Report>) {
    forall i, j :: 0 <= i < j < |reports| ==> reports[i].moduleId != reports[j].moduleId
  }

  /** No collector twice, and every known one of its proper type. */
  predicate SoundObservations(collectors: seq<Collector>, observations: seq<Observation>) {
    && DistinctObservations(observations)
    && forall i :: 0 <= i < |observations| ==>
         var c := FindCollector(collectors, observations[i].id);
         c.Some? ==> c.value.collectorType == observations[i].collectorType
  }

  /** A report of a module Hub does not assign may hold anything. */
  predicate SoundReport(modules: seq<Module>, report: Report) {
    var m := FindModule(modules, report.moduleId);
    m.Some? ==> m.value.kind == report.kind && SoundObservations(m.value.collectors, report.observations)
  }

  predicate SoundReports(modules: seq<Module>, reports: seq<Report>) {
    DistinctModules(reports) && forall i :: 0 <= i < |reports| ==> SoundReport(modules, reports[i])
  }

  lemma {:induction false} ObservationsRefusedIff(collectors: seq<Collector>, observations: seq<Observation>)
    ensures ObservationsRefusal(collectors, observations).None? <==> SoundObservations(collectors, observations)
    decreases |observations|
  {
    if observations != [] {
      var n := |observations| - 1;
      var init, last := observations[..n], observations[n];
      ObservationsRefusedIff(collectors, init);
      assert forall i :: 0 <= i < n ==> init[i] == observations[i];
      if SoundObservations(collectors, observations) {
        assert forall i, j :: 0 <= i < j < n ==> init[i].id != init[j].id;
        assert SoundObservations(collectors, init);
      }
    }
  }

  /** Reports are refused exactly when a module repeats or a report of an assigned module is unsound. */
  lemma {:induction false} AcceptedIffSound(modules: seq<Module>, reports: seq<Report>)
    ensures ReportsRefusal(modules, reports).None? <==> SoundReports(modules, reports)
    decreases |reports|
  {
    hide SoundObservations, ObservationsRefusal;
    if reports != [] {
      var n := |reports| - 1;
      var init, last := reports[..n], reports[n];
      AcceptedIffSound(modules, init);
      assert forall i :: 0 <= i < n ==> init[i] == reports[i];
      var m := FindModule(modules, last.moduleId);
      if m.Some? {
        ObservationsRefusedIff(m.value.collectors, last.observations);
      }
      if SoundReports(modules, reports) {
        assert forall i, j :: 0 <= i < j < n ==> init[i].moduleId != init[j].moduleId;
        assert SoundReports(modules, init);
        assert SoundReport(modules, last);
      }
    }
  }

  lemma {:induction false} KnownObservationMembers(
      collectors: seq<Collector>, observations: seq<Observation>, o: Observation)
    ensures o in KnownObservations(collectors, observations)
            <==> o in observations && FindCollector(collectors, o.id).Some?
    decreases |observations|
  {
    hide FindCollector;
    if observations != [] {
      var init, last := observations[..|observations| - 1], observations[|observations| - 1];
      KnownObservationMembers(collectors, init, o);
      assert observations == init + [last];
    }
  }

  lemma {:induction false} KnownObservationsDistinct(collectors: seq<Collector>, observations: seq<Observation>)
    requires DistinctObservations(observations)
    ensures DistinctObservations(KnownObservations(collectors, observations))
    decreases |observations|
  {
    hide FindCollector;
    if observations != [] {
      var init, last := observations[..|observations| - 1], observations[|observations| - 1];
      KnownObservationsDistinct(collectors, init);
      var kept := KnownObservations(collectors, init);
      forall i | 0 <= i < |kept| ensures kept[i].id != last.id {
        KnownObservationMembers(collectors, init, kept[i]);
        var j :| 0 <= j < |init| && init[j] == kept[i];
        assert observations[j].id != last.id;
      }
    }
  }

  /** What one accepted report keeps of the one it comes from. */
  ghost predicate Kept(modules: seq<Module>, r: Report, kept: Report) {
    var m := FindModule(modules, r.moduleId);
    && m.Some? && kept.moduleId == r.moduleId && kept.kind == r.kind == m.value.kind
    && DistinctObservations(kept.observations)
    && forall o :: o in kept.observations <==> o in r.observations && FindCollector(m.value.collectors, o.id).Some?
  }

  lemma KeptReport(modules: seq<Module>, r: Report)
    requires SoundReport(modules, r) && FindModule(modules, r.moduleId).Some?
    ensures Kept(modules, r, r.(observations :=
            KnownObservations(FindModule(modules, r.moduleId).value.collectors, r.observations)))
  {
    var collectors := FindModule(modules, r.moduleId).value.collectors;
    KnownObservationsDistinct(collectors, r.observations);
    forall o ensures o in KnownObservations(collectors, r.observations)
      <==> o in r.observations && FindCollector(collectors, o.id).Some? {
      KnownObservationMembers(collectors, r.observations, o);
    }
  }

  lemma {:induction false} AcceptedDistinct(modules: seq<Module>, reports: seq<Report>)
    requires DistinctModules(reports)
    ensures DistinctModules(KnownReports(modules, reports))
    decreases |reports|
  {
    hide KnownObservations;
    if reports != [] {
      var init, last := reports[..|reports| - 1], reports[|reports| - 1];
      AcceptedDistinct(modules, init);
      KnownIds(modules, init);
      assert last.moduleId !in ModuleIds(init);
    }
  }

  lemma {:induction false} AcceptedComeFrom(modules: seq<Module>, reports: seq<Report>, k: Report)
    requires forall i :: 0 <= i < |reports| ==> SoundReport(modules, reports[i])
    requires k in KnownReports(modules, reports)
    ensures exists r :: r in reports && Kept(modules, r, k)
    decreases |reports|
  {
    hide Kept, SoundReport, KnownObservations;
    var init, last := reports[..|reports| - 1], reports[|reports| - 1];
    if k in KnownReports(modules, init) {
      AcceptedComeFrom(modules, init, k);
      var r :| r in init && Kept(modules, r, k);
      assert r in reports;
    } else {
      KeptReport(modules, last);
      assert Kept(modules, last, k);
    }
  }

  lemma {:induction false} AssignedComeThrough(modules: seq<Module>, reports: seq<Report>, i: nat)
    requires forall i :: 0 <= i < |reports| ==> SoundReport(modules, reports[i])
    requires i < |reports| && FindModule(modules, reports[i].moduleId).Some?
    ensures exists k :: k in KnownReports(modules, reports) && Kept(modules, reports[i], k)
    decreases |reports|
  {
    hide Kept, SoundReport, KnownObservations;
    var n := |reports| - 1;
    if i < n {
      AssignedComeThrough(modules, reports[..n], i);
      var k :| k in KnownReports(modules, reports[..n]) && Kept(modules, reports[i], k);
      assert k in KnownReports(modules, reports);
    } else {
      KeptReport(modules, reports[n]);
      var k := reports[n].(observations :=
        KnownObservations(FindModule(modules, reports[n].moduleId).value.collectors, reports[n].observations));
      assert k in KnownReports(modules, reports);
    }
  }

  /**
   Sound reports lose nothing but what Hub does not assign: each report of an assigned module
   comes through once, cut down to its known collectors, and nothing else does.
   */
  lemma AcceptedReports(modules: seq<Module>, reports: seq<Report>)
    requires SoundReports(modules, reports)
    ensures DistinctModules(KnownReports(modules, reports))
    ensures forall k :: k in KnownReports(modules, reports) ==> exists r :: r in reports && Kept(modules, r, k)
    ensures forall r :: r in reports && FindModule(modules, r.moduleId).Some? ==>
              exists k :: k in KnownReports(modules, reports) && Kept(modules, r, k)
  {
    hide Kept, SoundReport, KnownReports, FindModule;
    AcceptedDistinct(modules, reports);
    forall k | k in KnownReports(modules, reports) ensures exists r :: r in reports && Kept(modules, r, k) {
      AcceptedComeFrom(modules, reports, k);
    }
    forall r | r in reports && FindModule(modules, r.moduleId).Some?
      ensures exists k :: k in KnownReports(modules, reports) && Kept(modules, r, k)
    {
      var i :| 0 <= i < |reports| && reports[i] == r;
      AssignedComeThrough(modules, reports, i);
    }
  }

  lemma {:induction false} KnownIds(modules: seq<Module>, reports: seq<Report>)
    ensures forall i :: 0 <= i < |KnownReports(modules, reports)| ==>
            KnownReports(modules, reports)[i].moduleId in ModuleIds(reports)
    decreases |reports|
  {
    if reports != [] {
      KnownIds(modules, reports[..|reports| - 1]);
      ModulesOneMore(reports, |reports| - 1);
      assert reports[..|reports|] == reports;
    }
  }
}
