/**
 The life of alert rows and of the notices sent about them: raises, resolves, promotions,
 escalations and user actions, each cut into the statements between which other tasks can run
 (packages/api-contract/src/alerts.ts, routers/alerts.ts and alert-deliveries.ts,
 apps/worker/src/escalate.ts, packages/shared/src/alert-lifecycle.ts).
 */
module AlertProtocol {
  import opened Options

  datatype AlertStatus = Suppressed | Open | Acknowledged | Resolved

  datatype Event = AlertOpened | AlertEscalated | AlertResolved

  /** A row; `hasOrg` says whether it belongs to an organization. Its id is its place in the table. */
  datatype Alert = Alert(key: string, hasOrg: bool, status: AlertStatus, snoozedUntil: Option<int>,
                         escalatedAt: Option<int>, occurrences: nat, lastSeenAt: int)

  /** A notice to the one channel under watch. */
  datatype Notice = Notice(alert: nat, event: Event)

  predicate Snoozed(until: Option<int>, now: int) {
    until.Some? && until.value > now
  }

  predicate ShouldEnqueue(status: AlertStatus, snoozedUntil: Option<int>, event: Event, now: int) {
    if status == Suppressed then false
    else
      match event
      case AlertEscalated => status == Open && !Snoozed(snoozedUntil, now)
      case AlertOpened => status == Open && !Snoozed(snoozedUntil, now)
      case AlertResolved => status == Resolved
  }

  /** `matches` says whether the channel is enabled and wants this alert at the time. */
  function Notify(outbox: seq<Notice>, id: nat, row: Alert, event: Event, now: int, matches: bool): seq<Notice> {
    if ShouldEnqueue(row.status, row.snoozedUntil, event, now) && row.hasOrg && matches then
      outbox + [Notice(id, event)]
    else outbox
  }

  /** Events are counted one by one; a condition that persists is only seen again, once a minute. */
  datatype Mode = EventMode | ConditionMode

  const CONDITION_TOUCH_INTERVAL_MS: int := 60000

  /** What a raise decided before it read the table. */
  datatype RaiseInput = RaiseInput(key: string, hasOrg: bool, inWindow: bool, skip: bool, mode: Mode)

  /** A raise keeps the row it read, a resolve whether that row was suppressed. */
  datatype Task =
    | Raising(input: RaiseInput, existing: Option<(nat, Alert)>)
    | Resolving(id: nat, wasSuppressed: bool)

  datatype State = State(rows: seq<Alert>, outbox: seq<Notice>, tasks: map<int, Task>)

  datatype Step =
    | RaiseRead(task: int, input: RaiseInput)
    | RaiseWrite(task: int, now: int, matches: bool)
    | ResolveRead(task: int, key: string)
    | ResolveWrite(task: int, now: int, matches: bool)
    | Promote(id: nat, now: int, matches: bool)
    | Escalate(id: nat, now: int, matches: bool)
    | UserAcknowledge(id: nat)
    | UserResolve(id: nat, now: int, matches: bool)
    | UserSnooze(id: nat, until: Option<int>)

  /** The first unresolved row of a key. */
  function FindUnresolved(rows: seq<Alert>, key: string): (r: Option<nat>)
    ensures r.Some? ==> r.value < |rows| && rows[r.value].key == key && rows[r.value].status != Resolved
    ensures r.None? ==> forall i :: 0 <= i < |rows| && rows[i].key == key ==> rows[i].status == Resolved
  {
    if rows == [] then None
    else
      var r := FindUnresolved(rows[..|rows| - 1], key);
      if r.Some? then r
      else if rows[|rows| - 1].key == key && rows[|rows| - 1].status != Resolved then Some(|rows| - 1)
      else None
  }

  predicate Enabled(s: State, step: Step) {
    match step
    case RaiseRead(t, _) => t !in s.tasks
    case RaiseWrite(t, _, _) => t in s.tasks && s.tasks[t].Raising? &&
        (s.tasks[t].existing.Some? ==> s.tasks[t].existing.value.0 < |s.rows|)
    case ResolveRead(t, _) => t !in s.tasks
    case ResolveWrite(t, _, _) => t in s.tasks && s.tasks[t].Resolving? && s.tasks[t].id < |s.rows|
    case Promote(id, _, _) => id < |s.rows|
    case Escalate(id, _, _) => id < |s.rows|
    case UserAcknowledge(id) => id < |s.rows|
    case UserResolve(id, _, _) => id < |s.rows|
    case UserSnooze(id, _) => id < |s.rows|
  }

  /** The guarded promotion statement, with its notice. */
  function PromoteRow(s: State, id: nat, now: int, matches: bool): State
    requires id < |s.rows|
  {
    if s.rows[id].status != Suppressed then s
    else
      var row := s.rows[id].(status := Open);
      s.(rows := s.rows[id := row], outbox := Notify(s.outbox, id, row, AlertOpened, now, matches))
  }

  /** A raise that meets a suppressed row, with nothing left to hold it, promotes it. */
  function PromoteByRaise(s: State, id: nat, now: int, matches: bool): State
    requires id < |s.rows|
  {
    if s.rows[id].status != Suppressed then s
    else
      var row := s.rows[id].(status := Open, lastSeenAt := now);
      s.(rows := s.rows[id := row], outbox := Notify(s.outbox, id, row, AlertOpened, now, matches))
  }

  /** Otherwise it counts a repeat, on the row as it was read; a fresh condition is left alone. */
  function TouchRow(s: State, id: nat, read: Alert, mode: Mode, now: int): State
    requires id < |s.rows|
  {
    match mode
    case EventMode => s.(rows := s.rows[id := s.rows[id].(occurrences := read.occurrences + 1, lastSeenAt := now)])
    case ConditionMode =>
      if now - read.lastSeenAt < CONDITION_TOUCH_INTERVAL_MS then s
      else s.(rows := s.rows[id := s.rows[id].(lastSeenAt := now)])
  }

  function NewRow(input: RaiseInput, now: int): Alert {
    Alert(input.key, input.hasOrg, if input.inWindow then Suppressed else Open, None, None, 1, now)
  }

  /** Inserting under the unique index on unresolved keys; on a conflict nothing is written. */
  function InsertRow(s: State, input: RaiseInput, now: int, matches: bool): State {
    if FindUnresolved(s.rows, input.key).Some? then s
    else
      var row := NewRow(input, now);
      s.(rows := s.rows + [row],
         outbox := if row.status == Open then Notify(s.outbox, |s.rows|, row, AlertOpened, now, matches) else s.outbox)
  }

  function EscalateRow(s: State, id: nat, now: int, matches: bool): State
    requires id < |s.rows|
  {
    var row := s.rows[id];
    if row.status != Open || row.escalatedAt.Some? || Snoozed(row.snoozedUntil, now) then s
    else
      var done := row.(escalatedAt := Some(now));
      s.(rows := s.rows[id := done], outbox := Notify(s.outbox, id, done, AlertEscalated, now, matches))
  }

  /** The system's resolve statement names the row only; it does not look at its status again. */
  function ResolveRow(s: State, id: nat, wasSuppressed: bool, now: int, matches: bool): State
    requires id < |s.rows|
  {
    var row := s.rows[id].(status := Resolved);
    s.(rows := s.rows[id := row],
       outbox := if wasSuppressed then s.outbox else Notify(s.outbox, id, row, AlertResolved, now, matches))
  }

  function Next(s: State, step: Step): State
    requires Enabled(s, step)
  {
    match step
    case RaiseRead(t, input) =>
      var existing := FindUnresolved(s.rows, input.key);
      if existing.None? && input.skip then s
      else
        var read := if existing.Some? then Some((existing.value, s.rows[existing.value])) else None;
        s.(tasks := s.tasks[t := Raising(input, read)])
    case RaiseWrite(t, now, matches) =>
      var Raising(input, existing) := s.tasks[t];
      var done := s.(tasks := s.tasks - {t});
      if existing.None? then InsertRow(done, input, now, matches)
      else if existing.value.1.status == Suppressed && !input.inWindow && !input.skip then
        PromoteByRaise(done, existing.value.0, now, matches)
      else TouchRow(done, existing.value.0, existing.value.1, input.mode, now)
    case ResolveRead(t, key) =>
      var existing := FindUnresolved(s.rows, key);
      if existing.None? then s
      else s.(tasks := s.tasks[t := Resolving(existing.value, s.rows[existing.value].status == Suppressed)])
    case ResolveWrite(t, now, matches) =>
      var Resolving(id, wasSuppressed) := s.tasks[t];
      ResolveRow(s.(tasks := s.tasks - {t}), id, wasSuppressed, now, matches)
    case Promote(id, now, matches) => PromoteRow(s, id, now, matches)
    case Escalate(id, now, matches) => EscalateRow(s, id, now, matches)
    case UserAcknowledge(id) =>
      if s.rows[id].status == Open then s.(rows := s.rows[id := s.rows[id].(status := Acknowledged)]) else s
    case UserResolve(id, now, matches) =>
      if s.rows[id].status == Resolved then s else ResolveRow(s, id, false, now, matches)
    case UserSnooze(id, until) => s.(rows := s.rows[id := s.rows[id].(snoozedUntil := until)])
  }

  const EMPTY: State := State([], [], map[])

  predicate Runnable(s: State, steps: seq<Step>)
    decreases |steps|
  {
    steps == [] || (Enabled(s, steps[0]) && Runnable(Next(s, steps[0]), steps[1..]))
  }

  function Exec(s: State, steps: seq<Step>): State
    requires Runnable(s, steps)
    decreases |steps|
  {
    if steps == [] then s else Exec(Next(s, steps[0]), steps[1..])
  }

  // ----- what each step does, field by field -----

  /** A notice goes out for a resolved row, or for an open one outside its snooze. */
  lemma NotifiedIff(outbox: seq<Notice>, id: nat, row: Alert, event: Event, now: int, matches: bool)
    ensures Notify(outbox, id, row, event, now, matches)
            == outbox + (if && matches && row.hasOrg
                            && (if event == AlertResolved then row.status == Resolved
                                else row.status == Open && (row.snoozedUntil == None || row.snoozedUntil.value <= now))
                         then [Notice(id, event)] else [])
  {
    assert outbox + [] == outbox;
  }

  /** Row `i` is the first unresolved one of the key. */
  predicate FirstUnresolved(rows: seq<Alert>, key: string, i: nat) {
    && i < |rows| && rows[i].key == key && rows[i].status != Resolved
    && forall j :: 0 <= j < i && rows[j].key == key ==> rows[j].status == Resolved
  }

  predicate AllResolved(rows: seq<Alert>, key: string) {
    forall j :: 0 <= j < |rows| && rows[j].key == key ==> rows[j].status == Resolved
  }

  lemma {:induction false} FoundIsFirst(rows: seq<Alert>, key: string)
    ensures match FindUnresolved(rows, key)
            case Some(i) => FirstUnresolved(rows, key, i)
            case None => AllResolved(rows, key)
    decreases |rows|
  {
    if rows != [] {
      FoundIsFirst(rows[..|rows| - 1], key);
    }
  }

  lemma FirstIsFound(rows: seq<Alert>, key: string, i: nat)
    requires FirstUnresolved(rows, key, i)
    ensures FindUnresolved(rows, key) == Some(i)
  {
    FoundIsFirst(rows, key);
  }

  /** A raise reads the first unresolved row of its key; without one it may be skipped. */
  lemma RaiseReads(s: State, t: int, input: RaiseInput)
    requires t !in s.tasks
    ensures forall i: nat :: FirstUnresolved(s.rows, input.key, i) ==>
              Next(s, RaiseRead(t, input)) == s.(tasks := s.tasks[t := Raising(input, Some((i, s.rows[i])))])
    ensures AllResolved(s.rows, input.key) ==>
              Next(s, RaiseRead(t, input)) == if input.skip then s else s.(tasks := s.tasks[t := Raising(input, None)])
  {
    FoundIsFirst(s.rows, input.key);
    forall i: nat | FirstUnresolved(s.rows, input.key, i) ensures FindUnresolved(s.rows, input.key) == Some(i) {
      FirstIsFound(s.rows, input.key, i);
    }
  }

  /** A raise that found none adds one row, held and silent inside a window, unless another has come up since. */
  lemma RaiseInserts(s: State, t: int, input: RaiseInput, now: int, matches: bool)
    requires t in s.tasks && s.tasks[t] == Raising(input, None)
    ensures var after := Next(s, RaiseWrite(t, now, matches));
            && after.tasks == s.tasks - {t}
            && (!AllResolved(s.rows, input.key) ==> after.rows == s.rows && after.outbox == s.outbox)
            && (AllResolved(s.rows, input.key) ==>
                  && after.rows == s.rows + [Alert(input.key, input.hasOrg, if input.inWindow then Suppressed else Open,
                                                   None, None, 1, now)]
                  && after.outbox == s.outbox + if !input.inWindow && input.hasOrg && matches
                                                then [Notice(|s.rows|, AlertOpened)] else [])
  {
    FoundIsFirst(s.rows, input.key);
    hide FindUnresolved;
    assert s.outbox + [] == s.outbox;
  }

  /** One that found a row promotes it when it was held and nothing holds it now, and otherwise counts or touches it. */
  lemma RaiseRepeats(s: State, t: int, input: RaiseInput, i: nat, read: Alert, now: int, matches: bool)
    requires t in s.tasks && s.tasks[t] == Raising(input, Some((i, read))) && i < |s.rows|
    ensures var after, row := Next(s, RaiseWrite(t, now, matches)), s.rows[i];
            && after.tasks == s.tasks - {t}
            && (read.status == Suppressed && !input.inWindow && !input.skip ==>
                  if row.status != Suppressed then after.rows == s.rows && after.outbox == s.outbox
                  else
                    && after.rows == s.rows[i := row.(status := Open, lastSeenAt := now)]
                    && after.outbox == s.outbox + if row.hasOrg && matches
                                                     && (row.snoozedUntil == None || row.snoozedUntil.value <= now)
                                                  then [Notice(i, AlertOpened)] else [])
            && (read.status != Suppressed || input.inWindow || input.skip ==>
                  && after.outbox == s.outbox
                  && after.rows == s.rows[i := if input.mode == EventMode
                                               then row.(occurrences := read.occurrences + 1, lastSeenAt := now)
                                               else row.(lastSeenAt := if now - read.lastSeenAt < 60000
                                                                       then row.lastSeenAt else now)])
  {
    hide FindUnresolved;
    assert s.outbox + [] == s.outbox && s.rows[i := s.rows[i]] == s.rows;
  }

  lemma ResolveReads(s: State, t: int, key: string)
    requires t !in s.tasks
    ensures AllResolved(s.rows, key) ==> Next(s, ResolveRead(t, key)) == s
    ensures forall i: nat :: FirstUnresolved(s.rows, key, i) ==>
              Next(s, ResolveRead(t, key)) == s.(tasks := s.tasks[t := Resolving(i, s.rows[i].status == Suppressed)])
  {
    FoundIsFirst(s.rows, key);
    forall i: nat | FirstUnresolved(s.rows, key, i) ensures FindUnresolved(s.rows, key) == Some(i) {
      FirstIsFound(s.rows, key, i);
    }
  }

  /** A resolve closes the row it read, and says so unless it was held. */
  lemma ResolveWrites(s: State, t: int, id: nat, wasSuppressed: bool, now: int, matches: bool)
    requires t in s.tasks && s.tasks[t] == Resolving(id, wasSuppressed) && id < |s.rows|
    ensures var after := Next(s, ResolveWrite(t, now, matches));
            && after.rows == s.rows[id := s.rows[id].(status := Resolved)] && after.tasks == s.tasks - {t}
            && after.outbox == s.outbox + if !wasSuppressed && s.rows[id].hasOrg && matches
                                          then [Notice(id, AlertResolved)] else []
  {
    assert s.outbox + [] == s.outbox;
  }

  /** What the worker's two statements do to one row. */
  lemma WorkerDoes(s: State, id: nat, now: int, matches: bool)
    requires id < |s.rows|
    ensures var row, awake := s.rows[id], s.rows[id].snoozedUntil == None || s.rows[id].snoozedUntil.value <= now;
            && Next(s, Promote(id, now, matches))
               == (if row.status != Suppressed then s
                   else s.(rows := s.rows[id := row.(status := Open)],
                           outbox := s.outbox + if awake && row.hasOrg && matches
                                                then [Notice(id, AlertOpened)] else []))
            && Next(s, Escalate(id, now, matches))
               == (if row.status != Open || row.escalatedAt != None || !awake then s
                   else s.(rows := s.rows[id := row.(escalatedAt := Some(now))],
                           outbox := s.outbox + if row.hasOrg && matches then [Notice(id, AlertEscalated)] else []))
  {
    assert s.outbox + [] == s.outbox;
  }

  /** What a user's actions do to one row: only an open alert is acknowledged, only an unresolved one resolved. */
  lemma UserDoes(s: State, id: nat, now: int, matches: bool, until: Option<int>)
    requires id < |s.rows|
    ensures var row := s.rows[id];
            && Next(s, UserAcknowledge(id))
               == (if row.status == Open then s.(rows := s.rows[id := row.(status := Acknowledged)]) else s)
            && Next(s, UserResolve(id, now, matches))
               == (if row.status == Resolved then s
                   else s.(rows := s.rows[id := row.(status := Resolved)],
                           outbox := s.outbox + if row.hasOrg && matches then [Notice(id, AlertResolved)] else []))
            && Next(s, UserSnooze(id, until)) == s.(rows := s.rows[id := row.(snoozedUntil := until)])
  {
    assert s.outbox + [] == s.outbox;
  }

  // ----- one unresolved row per key -----

  predicate OneUnresolved(rows: seq<Alert>) {
    forall i, j :: 0 <= i < j < |rows| && rows[i].key == rows[j].key ==>
      rows[i].status == Resolved || rows[j].status == Resolved
  }

  function Stage(status: AlertStatus): nat {
    match status
    case Suppressed => 0
    case Open => 1
    case Acknowledged => 2
    case Resolved => 3
  }

  /** How a row may change: its key and owner stay, its status only moves on, and it is escalated once. */
  predicate RowStep(before: Alert, after: Alert) {
    && after.key == before.key && after.hasOrg == before.hasOrg
    && Stage(before.status) <= Stage(after.status)
    && (before.escalatedAt.Some? ==> after.escalatedAt == before.escalatedAt)
  }

  predicate RowsStep(before: seq<Alert>, after: seq<Alert>) {
    |before| <= |after| && forall i :: 0 <= i < |before| ==> RowStep(before[i], after[i])
  }

  lemma RaiseMovesRows(s: State, id: nat, input: RaiseInput, read: Alert, now: int, matches: bool)
    ensures RowsStep(s.rows, InsertRow(s, input, now, matches).rows)
    ensures id < |s.rows| ==> RowsStep(s.rows, PromoteByRaise(s, id, now, matches).rows)
    ensures id < |s.rows| ==> RowsStep(s.rows, TouchRow(s, id, read, input.mode, now).rows)
  {
    hide FindUnresolved, Notify;
  }

  lemma WorkMovesRows(s: State, id: nat, wasSuppressed: bool, now: int, matches: bool)
    requires id < |s.rows|
    ensures RowsStep(s.rows, PromoteRow(s, id, now, matches).rows)
    ensures RowsStep(s.rows, EscalateRow(s, id, now, matches).rows)
    ensures RowsStep(s.rows, ResolveRow(s, id, wasSuppressed, now, matches).rows)
  {
    hide Notify;
  }

  lemma StepMovesRows(s: State, step: Step)
    requires Enabled(s, step)
    ensures RowsStep(s.rows, Next(s, step).rows)
  {
    hide InsertRow, PromoteByRaise, TouchRow, PromoteRow, EscalateRow, ResolveRow, FindUnresolved;
    match step
    case RaiseWrite(t, now, matches) =>
      var done, existing := s.(tasks := s.tasks - {t}), s.tasks[t].existing;
      var read := if existing.Some? then existing.value else (0, NewRow(s.tasks[t].input, now));
      RaiseMovesRows(done, read.0, s.tasks[t].input, read.1, now, matches);
    case ResolveWrite(t, now, matches) =>
      WorkMovesRows(s.(tasks := s.tasks - {t}), s.tasks[t].id, s.tasks[t].wasSuppressed, now, matches);
    case Promote(id, now, matches) => WorkMovesRows(s, id, false, now, matches);
    case Escalate(id, now, matches) => WorkMovesRows(s, id, false, now, matches);
    case UserResolve(id, now, matches) => WorkMovesRows(s, id, false, now, matches);
    case _ =>
  }

  lemma RowsStepTwice(a: seq<Alert>, b: seq<Alert>, c: seq<Alert>)
    requires RowsStep(a, b) && RowsStep(b, c)
    ensures RowsStep(a, c)
  {
    forall i | 0 <= i < |a| ensures RowStep(a[i], c[i]) {
      assert RowStep(a[i], b[i]) && RowStep(b[i], c[i]);
    }
  }

  lemma StepKeepsUnique(s: State, step: Step)
    requires Enabled(s, step) && OneUnresolved(s.rows)
    ensures OneUnresolved(Next(s, step).rows)
  {
    StepMovesRows(s, step);
    var after := Next(s, step).rows;
    if |after| == |s.rows| {
      hide Next;
      forall i, j | 0 <= i < j < |after| && after[i].key == after[j].key
        ensures after[i].status == Resolved || after[j].status == Resolved
      {
        assert RowStep(s.rows[i], after[i]) && RowStep(s.rows[j], after[j]);
      }
    }
  }

  /** However raises, resolves and the rest interleave, a key never has two unresolved rows, and no row moves back. */
  lemma {:induction false} UnresolvedIsUnique(s: State, steps: seq<Step>)
    requires Runnable(s, steps) && OneUnresolved(s.rows)
    ensures OneUnresolved(Exec(s, steps).rows) && RowsStep(s.rows, Exec(s, steps).rows)
    decreases |steps|
  {
    if steps != [] {
      StepKeepsUnique(s, steps[0]);
      StepMovesRows(s, steps[0]);
      UnresolvedIsUnique(Next(s, steps[0]), steps[1..]);
      hide Next;
      RowsStepTwice(s.rows, Next(s, steps[0]).rows, Exec(s, steps).rows);
    }
  }

  // ----- the notices of one row -----

  function EventsOf(outbox: seq<Notice>, id: nat): seq<Event> {
    if outbox == [] then []
    else
      EventsOf(outbox[..|outbox| - 1], id)
      + if outbox[|outbox| - 1].alert == id then [outbox[|outbox| - 1].event] else []
  }

  function Rank(e: Event): nat {
    match e
    case AlertOpened => 0
    case AlertEscalated => 1
    case AlertResolved => 2
  }

  /** A subsequence of opened, escalated, resolved: each at most once and in that order. */
  predicate InOrder(events: seq<Event>) {
    forall i, j :: 0 <= i < j < |events| ==> Rank(events[i]) < Rank(events[j])
  }

  predicate AllBelow(events: seq<Event>, rank: nat) {
    forall i :: 0 <= i < |events| ==> Rank(events[i]) < rank
  }

  /** What a row's state says about the notices already sent for it. */
  predicate Matches(row: Alert, events: seq<Event>) {
    && (row.status == Suppressed ==> events == [] && row.escalatedAt.None?)
    && (!row.hasOrg ==> events == [])
    && (row.status != Resolved ==> AllBelow(events, if row.escalatedAt.None? then 1 else 2) && InOrder(events))
  }

  ghost predicate Consistent(s: State) {
    && (forall i :: 0 <= i < |s.rows| ==> Matches(s.rows[i], EventsOf(s.outbox, i)))
    && (forall k :: 0 <= k < |s.outbox| ==> s.outbox[k].alert < |s.rows|)
    && (forall t :: t in s.tasks && s.tasks[t].Resolving? && !s.tasks[t].wasSuppressed ==>
          s.tasks[t].id < |s.rows| && s.rows[s.tasks[t].id].status != Suppressed)
  }

  lemma AppendNotice(outbox: seq<Notice>, n: Notice, id: nat)
    ensures EventsOf(outbox + [n], id)
            == if n.alert == id then EventsOf(outbox, id) + [n.event] else EventsOf(outbox, id)
  {
    assert (outbox + [n])[..|outbox|] == outbox;
  }

  lemma {:induction false} NoNoticesYet(outbox: seq<Notice>, id: nat)
    requires forall k :: 0 <= k < |outbox| ==> outbox[k].alert < id
    ensures EventsOf(outbox, id) == []
    decreases |outbox|
  {
    if outbox != [] {
      NoNoticesYet(outbox[..|outbox| - 1], id);
    }
  }

  lemma InOrderAppend(events: seq<Event>, e: Event)
    ensures InOrder(events + [e]) <==> InOrder(events) && AllBelow(events, Rank(e))
  {
    var all := events + [e];
    if InOrder(all) {
      forall i, j | 0 <= i < j < |events| ensures Rank(events[i]) < Rank(events[j]) {
        assert all[i] == events[i] && all[j] == events[j];
      }
      forall i | 0 <= i < |events| ensures Rank(events[i]) < Rank(e) {
        assert all[i] == events[i] && all[|events|] == e;
      }
    }
  }

  /** The one row and the one notice a step is about. */
  function Touched(s: State, step: Step): Option<nat>
    requires Enabled(s, step)
  {
    match step
    case RaiseRead(_, _) => None
    case RaiseWrite(t, _, _) =>
      var Raising(input, existing) := s.tasks[t];
      if existing.Some? then Some(existing.value.0) else Some(|s.rows|)
    case ResolveRead(_, _) => None
    case ResolveWrite(t, _, _) => Some(s.tasks[t].id)
    case Promote(id, _, _) => Some(id)
    case Escalate(id, _, _) => Some(id)
    case UserAcknowledge(id) => Some(id)
    case UserResolve(id, _, _) => Some(id)
    case UserSnooze(id, _) => Some(id)
  }

  /** The event a step announces, if any. */
  function Announced(s: State, step: Step): Option<Event>
    requires Enabled(s, step)
  {
    var after := Next(s, step);
    if |after.outbox| > |s.outbox| then Some(after.outbox[|s.outbox|].event) else None
  }

  lemma StepTouchesOneRow(s: State, step: Step)
    requires Enabled(s, step)
    ensures var after, id := Next(s, step), Touched(s, step);
            && (forall i :: 0 <= i < |s.rows| && Some(i) != id ==> after.rows[i] == s.rows[i])
            && |after.rows| <= |s.rows| + 1 && (|after.rows| == |s.rows| + 1 ==> id == Some(|s.rows|))
            && match Announced(s, step)
               case None => after.outbox == s.outbox
               case Some(e) => id.Some? && id.value < |after.rows| && after.outbox == s.outbox + [Notice(id.value, e)]
  {
  }

  /** A row and what is announced about it change together. */
  predicate RowEvent(before: Alert, after: Alert, e: Option<Event>) {
    && RowStep(before, after)
    && (before.status == Suppressed ==> after.escalatedAt == before.escalatedAt)
    && (after.status == Suppressed ==> e.None?)
    && match e
       case None => true
       case Some(AlertOpened) => after.hasOrg && before.status == Suppressed && after.status == Open
       case Some(AlertEscalated) => after.hasOrg && before.status == Open && before.escalatedAt.None?
         && after.escalatedAt.Some?
       case Some(AlertResolved) => after.hasOrg && after.status == Resolved
  }

  /** A step announces something only when the row's own state allows it. */
  lemma AnnouncedWhen(s: State, step: Step, i: nat)
    requires Enabled(s, step) && Touched(s, step) == Some(i) && i < |Next(s, step).rows|
    ensures i < |s.rows| ==> RowEvent(s.rows[i], Next(s, step).rows[i], Announced(s, step))
    ensures i == |s.rows| ==>
              var row := Next(s, step).rows[i];
              && row.escalatedAt.None?
              && (Announced(s, step) == None
                  || (row.hasOrg && row.status == Open && Announced(s, step) == Some(AlertOpened)))
  {
    StepMovesRows(s, step);
  }

  lemma MatchesNext(before: Alert, after: Alert, events: seq<Event>, e: Option<Event>)
    requires Matches(before, events) && RowEvent(before, after, e)
    ensures Matches(after, Extended(events, e))
  {
    if e.Some? {
      InOrderAppend(events, e.value);
    }
  }

  function Extended(events: seq<Event>, e: Option<Event>): seq<Event> {
    if e.Some? then events + [e.value] else events
  }

  lemma TouchedEvents(s: State, step: Step, i: nat)
    requires Enabled(s, step) && Touched(s, step) == Some(i)
    ensures EventsOf(Next(s, step).outbox, i) == Extended(EventsOf(s.outbox, i), Announced(s, step))
  {
    StepTouchesOneRow(s, step);
    hide Next;
    if Announced(s, step).Some? {
      AppendNotice(s.outbox, Notice(i, Announced(s, step).value), i);
    }
  }

  lemma TouchedRow(s: State, step: Step, i: nat)
    requires Enabled(s, step) && Consistent(s) && i < |Next(s, step).rows| && Touched(s, step) == Some(i)
    ensures Matches(Next(s, step).rows[i], EventsOf(Next(s, step).outbox, i))
  {
    StepTouchesOneRow(s, step);
    AnnouncedWhen(s, step, i);
    TouchedEvents(s, step, i);
    hide Next, Announced, Touched, Enabled, EventsOf, RowEvent, Matches, Extended;
    if i < |s.rows| {
      assert Matches(s.rows[i], EventsOf(s.outbox, i));
      MatchesNext(s.rows[i], Next(s, step).rows[i], EventsOf(s.outbox, i), Announced(s, step));
    } else {
      NoNoticesYet(s.outbox, i);
      NewRowMatches(Next(s, step).rows[i], Announced(s, step));
    }
  }

  lemma NewRowMatches(row: Alert, e: Option<Event>)
    requires row.escalatedAt.None? && (e == None || (row.hasOrg && row.status == Open && e == Some(AlertOpened)))
    ensures Matches(row, Extended([], e))
  {
  }

  lemma StepKeepsConsistent(s: State, step: Step)
    requires Enabled(s, step) && Consistent(s)
    ensures Consistent(Next(s, step))
  {
    hide Matches, EventsOf;
    StepTouchesOneRow(s, step);
    StepMovesRows(s, step);
    var after := Next(s, step);
    forall i | 0 <= i < |after.rows| ensures Matches(after.rows[i], EventsOf(after.outbox, i)) {
      if Touched(s, step) == Some(i) {
        TouchedRow(s, step, i);
      } else {
        assert Matches(s.rows[i], EventsOf(s.outbox, i));
        if Announced(s, step).Some? {
          AppendNotice(s.outbox, after.outbox[|s.outbox|], i);
        }
      }
    }
    forall t | t in after.tasks && after.tasks[t].Resolving? && !after.tasks[t].wasSuppressed
      ensures after.tasks[t].id < |after.rows| && after.rows[after.tasks[t].id].status != Suppressed
    {
      if t in s.tasks && after.tasks[t] == s.tasks[t] {
        assert RowStep(s.rows[s.tasks[t].id], after.rows[s.tasks[t].id]);
      }
    }
  }

  /** While an alert is held nothing has been sent about it. */
  lemma {:induction false} NothingSentWhileSuppressed(s: State, steps: seq<Step>, id: nat)
    requires Runnable(s, steps) && Consistent(s)
    ensures Consistent(Exec(s, steps))
    ensures id < |Exec(s, steps).rows| && Exec(s, steps).rows[id].status == Suppressed ==>
            EventsOf(Exec(s, steps).outbox, id) == []
    decreases |steps|
  {
    if steps != [] {
      StepKeepsConsistent(s, steps[0]);
      hide Next;
      NothingSentWhileSuppressed(Next(s, steps[0]), steps[1..], id);
    }
  }

  predicate AllInOrder(s: State) {
    forall i :: 0 <= i < |s.rows| ==> InOrder(EventsOf(s.outbox, i))
  }

  /**
   The step is the late half of a system resolve: its row was open when read, but has been
   resolved since, and the channel was told so.
   */
  predicate LateResolve(s: State, step: Step) {
    && step.ResolveWrite? && step.task in s.tasks && s.tasks[step.task].Resolving?
    && !s.tasks[step.task].wasSuppressed && step.matches
    && s.tasks[step.task].id < |s.rows|
    && s.rows[s.tasks[step.task].id].status == Resolved
    && AlertResolved in EventsOf(s.outbox, s.tasks[step.task].id)
  }

  lemma ResolvedAmong(events: seq<Event>)
    ensures AllBelow(events, Rank(AlertResolved)) <==> AlertResolved !in events
  {
  }

  lemma EventInOrderIff(before: Alert, after: Alert, events: seq<Event>, e: Event)
    requires Matches(before, events) && InOrder(events) && RowEvent(before, after, Some(e))
    ensures InOrder(events + [e]) <==> !(e == AlertResolved && before.status == Resolved && AlertResolved in events)
  {
    InOrderAppend(events, e);
    ResolvedAmong(events);
  }

  /** A notice keeps its row's events in order exactly when it is not a late resolve. */
  lemma AnnouncementInOrderIff(s: State, step: Step)
    requires Enabled(s, step) && Consistent(s) && AllInOrder(s) && Announced(s, step).Some?
    ensures InOrder(EventsOf(Next(s, step).outbox, Touched(s, step).value)) <==> !LateResolve(s, step)
  {
    StepTouchesOneRow(s, step);
    LateResolveShape(s, step);
    var id, e := Touched(s, step).value, Announced(s, step).value;
    AnnouncedWhen(s, step, id);
    TouchedEvents(s, step, id);
    hide Next, Announced, Touched, Enabled, EventsOf, RowEvent, Matches, LateResolve, InOrder;
    if id == |s.rows| {
      NoNoticesYet(s.outbox, id);
      InOrderAppend([], e);
      EmptyInOrder();
    } else {
      assert Matches(s.rows[id], EventsOf(s.outbox, id)) && InOrder(EventsOf(s.outbox, id));
      EventInOrderIff(s.rows[id], Next(s, step).rows[id], EventsOf(s.outbox, id), e);
    }
  }

  lemma EmptyInOrder()
    ensures InOrder([])
  {
  }

  /** An announcing step is late exactly when its row was already resolved, and announced as such. */
  lemma LateResolveShape(s: State, step: Step)
    requires Enabled(s, step) && Announced(s, step).Some?
    ensures LateResolve(s, step) <==>
              var id := Touched(s, step).value;
              && Announced(s, step) == Some(AlertResolved)
              && id < |s.rows| && s.rows[id].status == Resolved && AlertResolved in EventsOf(s.outbox, id)
  {
    StepTouchesOneRow(s, step);
    hide EventsOf;
  }

  lemma StepKeepsOrderIff(s: State, step: Step)
    requires Enabled(s, step) && Consistent(s) && AllInOrder(s)
    ensures AllInOrder(Next(s, step)) <==> !LateResolve(s, step)
  {
    StepTouchesOneRow(s, step);
    var after := Next(s, step);
    if Announced(s, step).Some? {
      AnnouncementInOrderIff(s, step);
    } else if LateResolve(s, step) {
      LateResolveAnnounces(s, step);
    }
    hide Next, LateResolve;
    forall i | 0 <= i < |after.rows| && !(Announced(s, step).Some? && Touched(s, step) == Some(i))
      ensures InOrder(EventsOf(after.outbox, i))
    {
      if Announced(s, step).Some? {
        AppendNotice(s.outbox, after.outbox[|s.outbox|], i);
      }
      if i == |s.rows| {
        NoNoticesYet(s.outbox, i);
      } else {
        assert InOrder(EventsOf(s.outbox, i));
      }
    }
  }

  lemma LateResolveAnnounces(s: State, step: Step)
    requires Enabled(s, step) && Consistent(s) && LateResolve(s, step)
    ensures Announced(s, step) == Some(AlertResolved)
  {
    assert Matches(s.rows[s.tasks[step.task].id], EventsOf(s.outbox, s.tasks[step.task].id));
  }

  /** No system resolve of the run writes late. */
  predicate NoLateResolve(s: State, steps: seq<Step>)
    requires Runnable(s, steps)
    decreases |steps|
  {
    steps == [] || (!LateResolve(s, steps[0]) && NoLateResolve(Next(s, steps[0]), steps[1..]))
  }

  /** Notices are only ever added, so an order once broken stays broken. */
  lemma BrokenStaysBroken(s: State, step: Step)
    requires Enabled(s, step) && Consistent(s) && !AllInOrder(s)
    ensures !AllInOrder(Next(s, step))
  {
    StepTouchesOneRow(s, step);
    var after := Next(s, step);
    var i :| 0 <= i < |s.rows| && !InOrder(EventsOf(s.outbox, i));
    if Announced(s, step).Some? {
      AppendNotice(s.outbox, after.outbox[|s.outbox|], i);
      InOrderAppend(EventsOf(s.outbox, i), after.outbox[|s.outbox|].event);
    }
    StepMovesRows(s, step);
    assert i < |after.rows| && !InOrder(EventsOf(after.outbox, i));
  }

  lemma {:induction false} BrokenForGood(s: State, steps: seq<Step>)
    requires Runnable(s, steps) && Consistent(s) && !AllInOrder(s)
    ensures !AllInOrder(Exec(s, steps))
    decreases |steps|
  {
    if steps != [] {
      StepKeepsConsistent(s, steps[0]);
      BrokenStaysBroken(s, steps[0]);
      hide Next, AllInOrder;
      BrokenForGood(Next(s, steps[0]), steps[1..]);
    }
  }

  lemma {:induction false} RunInOrderIff(s: State, steps: seq<Step>)
    requires Runnable(s, steps) && Consistent(s) && AllInOrder(s)
    ensures AllInOrder(Exec(s, steps)) <==> NoLateResolve(s, steps)
    decreases |steps|
  {
    if steps != [] {
      var after := Next(s, steps[0]);
      StepKeepsConsistent(s, steps[0]);
      StepKeepsOrderIff(s, steps[0]);
      hide Next, AllInOrder, LateResolve;
      if LateResolve(s, steps[0]) {
        BrokenForGood(after, steps[1..]);
      } else {
        RunInOrderIff(after, steps[1..]);
      }
    }
  }

  /**
   Over every run from an empty table, each alert's notices are a subsequence of opened,
   escalated, resolved exactly when no system resolve writes after another resolve was announced.
   */
  lemma NoticesInOrderIff(steps: seq<Step>)
    requires Runnable(EMPTY, steps)
    ensures AllInOrder(Exec(EMPTY, steps)) <==> NoLateResolve(EMPTY, steps)
  {
    RunInOrderIff(EMPTY, steps);
  }

  /** A resolve whose two halves are not interrupted is never late. */
  lemma AtomicResolveIsNotLate(s: State, task: int, key: string, now: int, matches: bool)
    requires Enabled(s, ResolveRead(task, key))
    ensures !LateResolve(Next(s, ResolveRead(task, key)), ResolveWrite(task, now, matches))
  {
  }

  /** Every system resolve of the run writes directly after its read. */
  predicate ResolvesAtOnce(steps: seq<Step>) {
    forall k :: 0 <= k < |steps| && steps[k].ResolveWrite? ==>
      k > 0 && steps[k - 1].ResolveRead? && steps[k - 1].task == steps[k].task
  }

  lemma {:induction false} NeverLateAtOnce(s: State, steps: seq<Step>)
    requires Runnable(s, steps) && ResolvesAtOnce(steps)
    ensures NoLateResolve(s, steps)
    decreases |steps|
  {
    hide Next, Enabled, EventsOf;
    if steps != [] {
      var after := Next(s, steps[0]);
      assert !steps[0].ResolveWrite?;
      if |steps| > 1 && steps[1].ResolveWrite? {
        var read, write := steps[0], steps[1];
        assert steps[1..][0] == write && steps[1..][1..] == steps[2..];
        AtomicResolveIsNotLate(s, read.task, read.key, write.now, write.matches);
        forall k | 0 <= k < |steps[2..]| && steps[2..][k].ResolveWrite?
          ensures k > 0 && steps[2..][k - 1].ResolveRead? && steps[2..][k - 1].task == steps[2..][k].task
        {
          assert steps[2..][k] == steps[k + 2] && steps[k + 1].ResolveRead?;
        }
        NeverLateAtOnce(Next(after, write), steps[2..]);
      } else {
        forall k | 0 <= k < |steps[1..]| && steps[1..][k].ResolveWrite?
          ensures k > 0 && steps[1..][k - 1].ResolveRead? && steps[1..][k - 1].task == steps[1..][k].task
        {
          assert steps[1..][k] == steps[k + 1] && steps[k].ResolveRead?;
        }
        NeverLateAtOnce(after, steps[1..]);
      }
    }
  }

  /**
   With resolves done at once, however everything else interleaves, each alert's notices are a
   subsequence of opened, escalated, resolved.
   */
  lemma NoticesInOrderAtOnce(steps: seq<Step>)
    requires Runnable(EMPTY, steps) && ResolvesAtOnce(steps)
    ensures AllInOrder(Exec(EMPTY, steps))
  {
    NeverLateAtOnce(EMPTY, steps);
    NoticesInOrderIff(steps);
  }

  /** Two resolves of one open alert, the second reading before the first has written. */
  function OverlappingResolves(s: State, key: string, t: int, u: int, now: int): State
    requires t != u && t !in s.tasks && u !in s.tasks && FindUnresolved(s.rows, key).Some?
  {
    var s1 := Next(s, ResolveRead(t, key));
    var s2 := Next(s1, ResolveRead(u, key));
    Next(Next(s2, ResolveWrite(t, now, true)), ResolveWrite(u, now, true))
  }

  /** They tell the channel twice that the alert was resolved, whatever else is going on. */
  lemma OverlappingResolvesAnnounceTwice(s: State, key: string, t: int, u: int, now: int)
    requires t != u && t !in s.tasks && u !in s.tasks && FindUnresolved(s.rows, key).Some?
    requires var row := s.rows[FindUnresolved(s.rows, key).value]; row.hasOrg && row.status != Suppressed
    ensures OverlappingResolves(s, key, t, u, now).outbox
            == s.outbox + [Notice(FindUnresolved(s.rows, key).value, AlertResolved),
                            Notice(FindUnresolved(s.rows, key).value, AlertResolved)]
  {
    var id := FindUnresolved(s.rows, key).value;
    var s1 := Next(s, ResolveRead(t, key));
    var s2 := Next(s1, ResolveRead(u, key));
    assert s2.tasks[t] == Resolving(id, false) && s2.tasks[u] == Resolving(id, false);
    var s3 := Next(s2, ResolveWrite(t, now, true));
    assert s3.outbox == s.outbox + [Notice(id, AlertResolved)] && s3.tasks[u] == Resolving(id, false);
    assert s3.rows[id].hasOrg;
  }

  /** For instance on an alert raised into an empty table. */
  lemma ResolvedIsAnnouncedTwice(key: string)
    ensures var input := RaiseInput(key, true, false, false, EventMode);
            var raised := Next(Next(EMPTY, RaiseRead(0, input)), RaiseWrite(0, 0, true));
            && raised == State([Alert(key, true, Open, None, None, 1, 0)], [Notice(0, AlertOpened)], map[])
            && FindUnresolved(raised.rows, key) == Some(0)
            && EventsOf(OverlappingResolves(raised, key, 1, 2, 0).outbox, 0)
               == [AlertOpened, AlertResolved, AlertResolved]
  {
    hide OverlappingResolves;
    var input := RaiseInput(key, true, false, false, EventMode);
    var raised := State([Alert(key, true, Open, None, None, 1, 0)], [Notice(0, AlertOpened)], map[]);
    assert Next(EMPTY, RaiseRead(0, input)) == EMPTY.(tasks := map[0 := Raising(input, None)]);
    assert raised.rows[..0] == [];
    assert FindUnresolved(raised.rows, key) == Some(0);
    OverlappingResolvesAnnounceTwice(raised, key, 1, 2, 0);
    var first, second := [Notice(0, AlertOpened)], [Notice(0, AlertOpened), Notice(0, AlertResolved)];
    AppendNotice([], Notice(0, AlertOpened), 0);
    AppendNotice(first, Notice(0, AlertResolved), 0);
    AppendNotice(second, Notice(0, AlertResolved), 0);
    assert OverlappingResolves(raised, key, 1, 2, 0).outbox == second + [Notice(0, AlertResolved)];
    assert EventsOf([], 0) == [] && first == [] + [Notice(0, AlertOpened)]
           && second == first + [Notice(0, AlertResolved)];
  }

  // ----- counting repeats -----

  /** The step counts an event on row `i`: a raise that found it, and is not one that promotes it. */
  predicate CountsOn(s: State, step: Step, i: nat)
    requires Enabled(s, step)
  {
    step.RaiseWrite? &&
    var Raising(input, existing) := s.tasks[step.task];
    && existing.Some? && existing.value.0 == i && input.mode == EventMode
    && !(existing.value.1.status == Suppressed && !input.inWindow && !input.skip)
  }

  /** It does so though the row has been counted on since it was read. */
  predicate LateCount(s: State, step: Step, i: nat)
    requires Enabled(s, step)
  {
    CountsOn(s, step, i) && s.tasks[step.task].existing.value.1.occurrences != s.rows[i].occurrences
  }

  /** How many steps of the run count on row `i`. */
  function Counts(s: State, steps: seq<Step>, i: nat): nat
    requires Runnable(s, steps)
    decreases |steps|
  {
    if steps == [] then 0
    else (if CountsOn(s, steps[0], i) then 1 else 0) + Counts(Next(s, steps[0]), steps[1..], i)
  }

  predicate NoLateCount(s: State, steps: seq<Step>, i: nat)
    requires Runnable(s, steps)
    decreases |steps|
  {
    steps == [] || (!LateCount(s, steps[0], i) && NoLateCount(Next(s, steps[0]), steps[1..], i))
  }

  /** No raise under way has read a count on row `i` above the bound. */
  predicate ReadsWithin(s: State, i: nat, bound: nat) {
    forall t :: t in s.tasks && s.tasks[t].Raising? && s.tasks[t].existing.Some? && s.tasks[t].existing.value.0 == i ==>
      i < |s.rows| && s.tasks[t].existing.value.1.occurrences <= bound
  }

  /** All `n` repeats of row `i` so far are in its count. */
  predicate Exact(s: State, i: nat, n: nat) {
    (if i < |s.rows| then s.rows[i].occurrences == 1 + n else n == 0) && ReadsWithin(s, i, 1 + n)
  }

  /** Some are not, and no raise under way will bring them back. */
  predicate Short(s: State, i: nat, n: nat) {
    i < |s.rows| && s.rows[i].occurrences <= n && ReadsWithin(s, i, n)
  }

  lemma StepCount(s: State, step: Step, i: nat)
    requires Enabled(s, step)
    ensures |s.rows| <= |Next(s, step).rows|
    ensures i < |s.rows| ==> Next(s, step).rows[i].occurrences
                             == if CountsOn(s, step, i) then s.tasks[step.task].existing.value.1.occurrences + 1
                                else s.rows[i].occurrences
    ensures |s.rows| <= i < |Next(s, step).rows| ==> Next(s, step).rows[i].occurrences == 1
  {
    hide FindUnresolved, Notify;
  }

  lemma StepReads(s: State, step: Step, i: nat, bound: nat)
    requires Enabled(s, step) && ReadsWithin(s, i, bound) && (i < |s.rows| ==> s.rows[i].occurrences <= bound)
    ensures ReadsWithin(Next(s, step), i, bound)
  {
    StepCount(s, step, i);
    hide Notify, InsertRow, PromoteByRaise, TouchRow, PromoteRow, EscalateRow, ResolveRow, CountsOn;
  }

  lemma StepExact(s: State, step: Step, i: nat, n: nat)
    requires Enabled(s, step) && Exact(s, i, n)
    ensures !CountsOn(s, step, i) ==> Exact(Next(s, step), i, n)
    ensures CountsOn(s, step, i) && !LateCount(s, step, i) ==> Exact(Next(s, step), i, n + 1)
    ensures LateCount(s, step, i) ==> Short(Next(s, step), i, n + 1)
  {
    StepCount(s, step, i);
    StepReads(s, step, i, 1 + n);
    hide Next;
  }

  lemma StepShort(s: State, step: Step, i: nat, n: nat)
    requires Enabled(s, step) && Short(s, i, n)
    ensures Short(Next(s, step), i, if CountsOn(s, step, i) then n + 1 else n)
  {
    StepCount(s, step, i);
    StepReads(s, step, i, n);
    hide Next;
  }

  lemma {:induction false} ShortForGood(s: State, steps: seq<Step>, i: nat, n: nat)
    requires Runnable(s, steps) && Short(s, i, n)
    ensures Short(Exec(s, steps), i, n + Counts(s, steps, i))
    decreases |steps|
  {
    hide Next, Enabled, Short, CountsOn;
    if steps != [] {
      StepShort(s, steps[0], i, n);
      ShortForGood(Next(s, steps[0]), steps[1..], i, if CountsOn(s, steps[0], i) then n + 1 else n);
    }
  }

  lemma LateCountCounts(s: State, step: Step, i: nat)
    requires Enabled(s, step) && LateCount(s, step, i)
    ensures CountsOn(s, step, i)
  {
  }

  lemma {:induction false} RunCounts(s: State, steps: seq<Step>, i: nat, n: nat)
    requires Runnable(s, steps) && Exact(s, i, n)
    ensures if NoLateCount(s, steps, i) then Exact(Exec(s, steps), i, n + Counts(s, steps, i))
            else Short(Exec(s, steps), i, n + Counts(s, steps, i))
    decreases |steps|
  {
    hide Next, Enabled, Exact, Short, CountsOn, LateCount;
    if steps != [] {
      StepExact(s, steps[0], i, n);
      if LateCount(s, steps[0], i) {
        LateCountCounts(s, steps[0], i);
        ShortForGood(Next(s, steps[0]), steps[1..], i, n + 1);
      } else {
        RunCounts(Next(s, steps[0]), steps[1..], i, if CountsOn(s, steps[0], i) then n + 1 else n);
      }
    }
  }

  /**
   Over every run from an empty table, an alert's count never exceeds its first sighting and the
   repeats raised since, and is exactly that many when and only when no repeat is written over a
   count that has moved on since it was read.
   */
  lemma RepeatsCountedIff(steps: seq<Step>, i: nat)
    requires Runnable(EMPTY, steps) && i < |Exec(EMPTY, steps).rows|
    ensures var count, raised := Exec(EMPTY, steps).rows[i].occurrences, 1 + Counts(EMPTY, steps, i);
            count <= raised && (count == raised <==> NoLateCount(EMPTY, steps, i))
  {
    RunCounts(EMPTY, steps, i, 0);
  }

  /** Moving a row on without resolving it does not change which row is found. */
  lemma {:induction false} FindSame(a: seq<Alert>, b: seq<Alert>, key: string)
    requires |a| == |b|
    requires forall i :: 0 <= i < |a| ==> a[i].key == b[i].key && (a[i].status == Resolved <==> b[i].status == Resolved)
    ensures FindUnresolved(a, key) == FindUnresolved(b, key)
    decreases |a|
  {
    if a != [] {
      FindSame(a[..|a| - 1], b[..|b| - 1], key);
    }
  }

  /** The same event raised `k` times, one after the other. */
  function Raises(t: int, input: RaiseInput, now: int, k: nat): seq<Step> {
    if k == 0 then [] else [RaiseRead(t, input), RaiseWrite(t, now, true)] + Raises(t, input, now, k - 1)
  }

  /** Row `i` once `k` more repeats are counted on it. */
  function CountedUp(s: State, i: nat, now: int, k: nat): State
    requires i < |s.rows|
  {
    if k == 0 then s
    else s.(rows := s.rows[i := s.rows[i].(occurrences := s.rows[i].occurrences + k, lastSeenAt := now)])
  }

  /** Row `i` is the alert that an event of this kind repeats. */
  predicate Repeatable(s: State, t: int, input: RaiseInput, i: nat) {
    && t !in s.tasks && input.mode == EventMode
    && FindUnresolved(s.rows, input.key) == Some(i) && s.rows[i].status != Suppressed
  }

  lemma RaiseOnce(s: State, t: int, input: RaiseInput, now: int, i: nat)
    requires Repeatable(s, t, input, i)
    ensures Enabled(s, RaiseRead(t, input)) && !CountsOn(s, RaiseRead(t, input), i)
    ensures var read := Next(s, RaiseRead(t, input));
            && Enabled(read, RaiseWrite(t, now, true)) && CountsOn(read, RaiseWrite(t, now, true), i)
            && Next(read, RaiseWrite(t, now, true)) == CountedUp(s, i, now, 1)
    ensures Repeatable(CountedUp(s, i, now, 1), t, input, i)
  {
    FindSame(s.rows, CountedUp(s, i, now, 1).rows, input.key);
    hide FindUnresolved;
    assert s.tasks[t := Raising(input, Some((i, s.rows[i])))] - {t} == s.tasks;
  }

  lemma CountedUpAgain(s: State, i: nat, now: int, k: nat)
    requires i < |s.rows| && k > 0
    ensures CountedUp(CountedUp(s, i, now, 1), i, now, k - 1) == CountedUp(s, i, now, k)
  {
  }

  lemma RaisesInTurn(t: int, input: RaiseInput, now: int, k: nat, rest: seq<Step>)
    ensures Raises(t, input, now, k) + rest
            == if k == 0 then rest
               else [RaiseRead(t, input), RaiseWrite(t, now, true)] + (Raises(t, input, now, k - 1) + rest)
  {
  }

  /** Two steps taken off the front of a run. */
  lemma TwoSteps(s: State, a: Step, b: Step, rest: seq<Step>, i: nat)
    requires Enabled(s, a) && Enabled(Next(s, a), b) && Runnable(Next(Next(s, a), b), rest)
    ensures var end := Next(Next(s, a), b);
            && Runnable(s, [a, b] + rest) && Exec(s, [a, b] + rest) == Exec(end, rest)
            && Counts(s, [a, b] + rest, i)
               == (if CountsOn(s, a, i) then 1 else 0) + (if CountsOn(Next(s, a), b, i) then 1 else 0)
                  + Counts(end, rest, i)
  {
    hide Next, Enabled, CountsOn;
    var steps := [a, b] + rest;
    assert steps[1..] == [b] + rest && steps[1..][1..] == rest;
  }

  lemma RaiseThen(s: State, t: int, input: RaiseInput, now: int, i: nat, rest: seq<Step>)
    requires Repeatable(s, t, input, i) && Runnable(CountedUp(s, i, now, 1), rest)
    ensures var steps := [RaiseRead(t, input), RaiseWrite(t, now, true)] + rest;
            && Runnable(s, steps) && Exec(s, steps) == Exec(CountedUp(s, i, now, 1), rest)
            && Counts(s, steps, i) == 1 + Counts(CountedUp(s, i, now, 1), rest, i)
  {
    RaiseOnce(s, t, input, now, i);
    hide *;
    TwoSteps(s, RaiseRead(t, input), RaiseWrite(t, now, true), rest, i);
  }

  lemma {:induction false} RaisesThen(s: State, t: int, input: RaiseInput, now: int, k: nat, i: nat, rest: seq<Step>)
    requires Repeatable(s, t, input, i) && Runnable(CountedUp(s, i, now, k), rest)
    ensures Runnable(s, Raises(t, input, now, k) + rest)
    ensures Exec(s, Raises(t, input, now, k) + rest) == Exec(CountedUp(s, i, now, k), rest)
    ensures Counts(s, Raises(t, input, now, k) + rest, i) == k + Counts(CountedUp(s, i, now, k), rest, i)
    decreases k
  {
    RaisesInTurn(t, input, now, k, rest);
    if k > 0 {
      RaiseOnce(s, t, input, now, i);
      CountedUpAgain(s, i, now, k);
      hide *;
      RaisesThen(CountedUp(s, i, now, 1), t, input, now, k - 1, i, rest);
      RaiseThen(s, t, input, now, i, Raises(t, input, now, k - 1) + rest);
    }
  }

  /** One raise reads, `k` others run, and the first then writes. */
  function Overtaken(input: RaiseInput, t: int, u: int, now: int, k: nat): seq<Step> {
    [RaiseRead(u, input)] + (Raises(t, input, now, k) + [RaiseWrite(u, now, true)])
  }

  /** All that were raised in between are forgotten: the alert has counted one. */
  lemma OvertakenRaisesAreForgotten(s: State, input: RaiseInput, t: int, u: int, now: int, k: nat, i: nat)
    requires t != u && u !in s.tasks && Repeatable(s, t, input, i)
    ensures var steps := Overtaken(input, t, u, now, k);
            && Runnable(s, steps) && Counts(s, steps, i) == k + 1
            && Exec(s, steps) == CountedUp(s, i, now, 1)
  {
    var steps, last := Overtaken(input, t, u, now, k), [RaiseWrite(u, now, true)];
    var read := Next(s, RaiseRead(u, input));
    assert read == s.(tasks := s.tasks[u := Raising(input, Some((i, s.rows[i])))]);
    var counted := CountedUp(read, i, now, k);
    var done := Next(counted, last[0]);
    assert read.tasks - {u} == s.tasks;
    assert done == CountedUp(s, i, now, 1);
    assert CountsOn(counted, last[0], i);
    hide Next, CountsOn, CountedUp;
    assert last[1..] == [] && Runnable(done, []);
    assert Runnable(counted, last) && Exec(counted, last) == done && Counts(counted, last, i) == 1;
    RaisesThen(read, t, input, now, k, i, last);
    assert steps[1..] == Raises(t, input, now, k) + last;
  }

  /** For instance, on an alert raised into an empty table: however many repeats it had, its count is back at two. */
  lemma CountIsSetBack(key: string, k: nat)
    ensures var input := RaiseInput(key, true, false, false, EventMode);
            var steps := [RaiseRead(0, input), RaiseWrite(0, 0, true)] + Overtaken(input, 0, 1, 0, k);
            && Runnable(EMPTY, steps) && Counts(EMPTY, steps, 0) == k + 1
            && Exec(EMPTY, steps).rows == [Alert(key, true, Open, None, None, 2, 0)]
  {
    var input := RaiseInput(key, true, false, false, EventMode);
    var rest := Overtaken(input, 0, 1, 0, k);
    var steps := [RaiseRead(0, input), RaiseWrite(0, 0, true)] + rest;
    assert steps[1..] == [RaiseWrite(0, 0, true)] + rest && steps[1..][1..] == rest;
    var read := EMPTY.(tasks := map[0 := Raising(input, None)]);
    var raised := State([Alert(key, true, Open, None, None, 1, 0)], [Notice(0, AlertOpened)], map[]);
    assert Next(EMPTY, steps[0]) == read;
    assert read.tasks - {0} == map[];
    assert Next(read, steps[1]) == raised;
    assert raised.rows[..0] == [];
    assert FindUnresolved(raised.rows, key) == Some(0);
    OvertakenRaisesAreForgotten(raised, input, 0, 1, 0, k, 0);
  }
}
