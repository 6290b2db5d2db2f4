/**
 The alert jobs as they run when nothing interrupts them: raising and resolving one alert, and
 the worker's promotion and escalation loops (packages/api-contract/src/alerts.ts,
 apps/worker/src/escalate.ts, packages/shared/src/alert-lifecycle.ts).
 */
module AlertTable {
  import opened Options
  import opened AlertProtocol

  // ----- raise and resolve -----

  function RaiseAtOnce(s: State, input: RaiseInput, now: int, matches: bool): State
    requires s.tasks == map[]
  {
    var read := Next(s, RaiseRead(0, input));
    if 0 in read.tasks then Next(read, RaiseWrite(0, now, matches)) else read
  }

  function ResolveAtOnce(s: State, key: string, now: int, matches: bool): State
    requires s.tasks == map[]
  {
    var read := Next(s, ResolveRead(0, key));
    if 0 in read.tasks then Next(read, ResolveWrite(0, now, matches)) else read
  }

  lemma FindAppended(rows: seq<Alert>, row: Alert)
    ensures FindUnresolved(rows + [row], row.key)
            == if FindUnresolved(rows, row.key).Some? then FindUnresolved(rows, row.key)
               else if row.status != Resolved then Some(|rows|) else None
  {
    assert (rows + [row])[..|rows|] == rows;
  }

  lemma {:induction false} FindUnique(rows: seq<Alert>, key: string, i: nat)
    requires OneUnresolved(rows) && i < |rows| && rows[i].key == key && rows[i].status != Resolved
    ensures FindUnresolved(rows, key) == Some(i)
  {
    var r := FindUnresolved(rows, key);
    assert r.Some?;
  }

  /** What a repeat adds to the row it is about. */
  function Repeated(row: Alert, mode: Mode, now: int): Alert {
    if mode == EventMode then row.(occurrences := row.occurrences + 1, lastSeenAt := now)
    else if now - row.lastSeenAt >= CONDITION_TOUCH_INTERVAL_MS then row.(lastSeenAt := now)
    else row
  }

  /** A raise with nothing in between: insert, promote or count. */
  lemma RaiseAtOnceIs(s: State, input: RaiseInput, now: int, matches: bool)
    requires s.tasks == map[]
    ensures var r := FindUnresolved(s.rows, input.key);
            RaiseAtOnce(s, input, now, matches)
            == if r.None? then (if input.skip then s else InsertRow(s, input, now, matches))
               else if s.rows[r.value].status == Suppressed && !input.inWindow && !input.skip
                    then PromoteByRaise(s, r.value, now, matches)
               else s.(rows := s.rows[r.value := Repeated(s.rows[r.value], input.mode, now)])
  {
    hide InsertRow, PromoteByRaise, FindUnresolved;
    var r := FindUnresolved(s.rows, input.key);
    var read := Next(s, RaiseRead(0, input));
    if 0 in read.tasks {
      assert read.tasks - {0} == map[];
      assert read.(tasks := map[]) == s;
    }
  }

  lemma InsertedRow(s: State, input: RaiseInput, now: int, matches: bool)
    requires FindUnresolved(s.rows, input.key).None? && OneUnresolved(s.rows)
    ensures var after := InsertRow(s, input, now, matches);
            && after.rows == s.rows + [NewRow(input, now)] && OneUnresolved(after.rows) && after.tasks == s.tasks
            && FindUnresolved(after.rows, input.key) == Some(|s.rows|)
  {
    FindAppended(s.rows, NewRow(input, now));
    hide FindUnresolved;
    var found := FindUnresolved(s.rows, input.key);
    assert found.None?;
  }

  lemma PromotedRow(s: State, id: nat, now: int, matches: bool, key: string)
    requires id < |s.rows| && OneUnresolved(s.rows) && s.rows[id].status == Suppressed && s.rows[id].key == key
    ensures var after := PromoteByRaise(s, id, now, matches);
            && after.rows == s.rows[id := s.rows[id].(status := Open, lastSeenAt := now)] && OneUnresolved(after.rows)
            && after.tasks == s.tasks && FindUnresolved(after.rows, key) == Some(id)
  {
    FindUnique(PromoteByRaise(s, id, now, matches).rows, key, id);
  }

  lemma RepeatedRow(s: State, id: nat, mode: Mode, now: int, key: string)
    requires id < |s.rows| && OneUnresolved(s.rows) && FindUnresolved(s.rows, key) == Some(id)
    ensures var after := s.rows[id := Repeated(s.rows[id], mode, now)];
            OneUnresolved(after) && FindUnresolved(after, key) == Some(id) && after[id].status == s.rows[id].status
  {
    FindSame(s.rows, s.rows[id := Repeated(s.rows[id], mode, now)], key);
    hide FindUnresolved;
  }

  /**
   A raise outside windows and closed hours leaves one unresolved row of its key, not held; and
   repeating it, at any later time, writes no further row, sends no further notice, and only
   counts on that row.
   */
  lemma RaisedOnce(s: State, input: RaiseInput, now: int, later: int, matches: bool)
    requires s.tasks == map[] && OneUnresolved(s.rows) && !input.inWindow && !input.skip
    ensures var after := RaiseAtOnce(s, input, now, matches);
            var r := FindUnresolved(after.rows, input.key);
            && OneUnresolved(after.rows)
            && r.Some? && after.rows[r.value].status != Suppressed
            && after.tasks == map[]
            && RaiseAtOnce(after, input, later, matches)
               == after.(rows := after.rows[r.value := Repeated(after.rows[r.value], input.mode, later)])
  {
    var r := FindUnresolved(s.rows, input.key);
    RaiseAtOnceIs(s, input, now, matches);
    hide RaiseAtOnce, FindUnresolved, InsertRow, PromoteByRaise, OneUnresolved;
    if r.None? {
      InsertedRow(s, input, now, matches);
    } else if s.rows[r.value].status == Suppressed {
      PromotedRow(s, r.value, now, matches, input.key);
    } else {
      RepeatedRow(s, r.value, input.mode, now, input.key);
    }
    RaiseAtOnceIs(RaiseAtOnce(s, input, now, matches), input, later, matches);
  }

  /** Resolving leaves no unresolved row of the key, and resolving again changes nothing. */
  lemma ResolvedOnce(s: State, key: string, now: int, later: int, matches: bool)
    requires s.tasks == map[] && OneUnresolved(s.rows)
    ensures var after := ResolveAtOnce(s, key, now, matches);
            && FindUnresolved(after.rows, key) == None && after.tasks == map[]
            && ResolveAtOnce(after, key, later, matches) == after
  {
    var existing := FindUnresolved(s.rows, key);
    var after := ResolveAtOnce(s, key, now, matches);
    if existing.Some? {
      var read := Next(s, ResolveRead(0, key));
      assert read.tasks - {0} == map[];
      var i := existing.value;
      forall j | 0 <= j < |after.rows| && after.rows[j].key == key ensures after.rows[j].status == Resolved {
        if j != i {
          assert after.rows[j] == s.rows[j];
          assert s.rows[i].key == s.rows[j].key;
        }
      }
      assert FindUnresolved(after.rows, key) == None;
    }
  }

  /**
   Raising an alert that has no unresolved row: exactly one row is added, held inside a window and
   announced outside one; in closed hours nothing happens.
   */
  lemma RaisedNew(s: State, input: RaiseInput, now: int, matches: bool)
    requires s.tasks == map[] && AllResolved(s.rows, input.key)
    ensures var after := RaiseAtOnce(s, input, now, matches);
            if input.skip then after == s
            else
              && |after.rows| == |s.rows| + 1 && after.rows[..|s.rows|] == s.rows && after.tasks == map[]
              && (var row := after.rows[|s.rows|];
                  && row.key == input.key && row.hasOrg == input.hasOrg
                  && (row.status == Suppressed <==> input.inWindow) && (row.status == Open <==> !input.inWindow)
                  && row.snoozedUntil == None && row.escalatedAt == None
                  && row.occurrences == 1 && row.lastSeenAt == now)
              && after.outbox == if !input.inWindow && input.hasOrg && matches
                                 then s.outbox + [Notice(|s.rows|, AlertOpened)] else s.outbox
  {
    var read := Next(s, RaiseRead(0, input));
    RaiseReads(s, 0, input);
    hide Next, FindUnresolved;
    if !input.skip {
      RaiseInserts(read, 0, input, now, matches);
      assert read.tasks - {0} == map[];
    }
  }

  /**
   Raising one that has an unresolved row: a held row is released and announced outside windows and
   closed hours; otherwise an event counts once more, a condition is touched when a minute has gone
   by, and nothing is sent. No other row changes.
   */
  lemma RaisedAgain(s: State, input: RaiseInput, i: nat, now: int, matches: bool)
    requires s.tasks == map[] && FirstUnresolved(s.rows, input.key, i)
    ensures var after, row := RaiseAtOnce(s, input, now, matches), s.rows[i];
            var released := row.status == Suppressed && !input.inWindow && !input.skip;
            && |after.rows| == |s.rows| && after.tasks == map[]
            && (forall j :: 0 <= j < |s.rows| && j != i ==> after.rows[j] == s.rows[j])
            && after.rows[i].key == row.key && after.rows[i].hasOrg == row.hasOrg
            && after.rows[i].snoozedUntil == row.snoozedUntil && after.rows[i].escalatedAt == row.escalatedAt
            && after.rows[i].status == (if released then Open else row.status)
            && after.rows[i].occurrences
               == (if !released && input.mode == EventMode then row.occurrences + 1 else row.occurrences)
            && after.rows[i].lastSeenAt
               == (if released || input.mode == EventMode || now - row.lastSeenAt >= 60000 then now else row.lastSeenAt)
            && after.outbox
               == if && released && row.hasOrg && matches
                     && (row.snoozedUntil == None || row.snoozedUntil.value <= now)
                  then s.outbox + [Notice(i, AlertOpened)] else s.outbox
  {
    var read := Next(s, RaiseRead(0, input));
    RaiseReads(s, 0, input);
    hide Next, FindUnresolved, FirstUnresolved;
    assert i < |s.rows| by { FirstIsRow(s.rows, input.key, i); }
    assert read == s.(tasks := map[0 := Raising(input, Some((i, s.rows[i])))]);
    RaiseRepeats(read, 0, input, i, s.rows[i], now, matches);
    assert read.tasks - {0} == map[];
    assert s.outbox + [] == s.outbox;
  }

  lemma FirstIsRow(rows: seq<Alert>, key: string, i: nat)
    requires FirstUnresolved(rows, key, i)
    ensures i < |rows|
  {
  }

  /** Resolving closes the key's unresolved row, announces it unless it was held, and touches nothing else. */
  lemma ResolvedRow(s: State, key: string, now: int, matches: bool)
    requires s.tasks == map[]
    ensures AllResolved(s.rows, key) ==> ResolveAtOnce(s, key, now, matches) == s
    ensures forall i: nat :: FirstUnresolved(s.rows, key, i) ==>
              ResolveAtOnce(s, key, now, matches)
              == s.(rows := s.rows[i := s.rows[i].(status := Resolved)],
                    outbox := s.outbox + if s.rows[i].status != Suppressed && s.rows[i].hasOrg && matches
                                         then [Notice(i, AlertResolved)] else [])
  {
    ResolveReads(s, 0, key);
    var read := Next(s, ResolveRead(0, key));
    hide Next, FindUnresolved;
    forall i: nat | FirstUnresolved(s.rows, key, i)
      ensures ResolveAtOnce(s, key, now, matches)
              == s.(rows := s.rows[i := s.rows[i].(status := Resolved)],
                    outbox := s.outbox + if s.rows[i].status != Suppressed && s.rows[i].hasOrg && matches
                                         then [Notice(i, AlertResolved)] else [])
    {
      assert read == s.(tasks := map[0 := Resolving(i, s.rows[i].status == Suppressed)]);
      ResolveWrites(read, 0, i, s.rows[i].status == Suppressed, now, matches);
      assert read.tasks - {0} == map[];
    }
  }

  // ----- worker loops -----

  function WithStatus(rows: seq<Alert>, status: AlertStatus): (ids: seq<nat>)
    ensures forall k :: 0 <= k < |ids| ==> ids[k] < |rows| && rows[ids[k]].status == status
    ensures forall k, m :: 0 <= k < m < |ids| ==> ids[k] < ids[m]
    ensures forall i :: 0 <= i < |rows| && rows[i].status == status ==> i in ids
  {
    if rows == [] then []
    else
      var n := |rows| - 1;
      var init := WithStatus(rows[..n], status);
      assert forall i :: 0 <= i < n ==> rows[..n][i] == rows[i];
      if rows[n].status == status then init + [n] else init
  }

  predicate Ascending(ids: seq<nat>, bound: nat) {
    && (forall k :: 0 <= k < |ids| ==> ids[k] < bound)
    && (forall k, m :: 0 <= k < m < |ids| ==> ids[k] < ids[m])
  }

  /** The promotion loop over the selected rows; also the number of rows it changed. */
  function PromoteEach(s: State, ids: seq<nat>, held: nat -> bool, now: int, matches: nat -> bool): (r: (State, nat))
    requires forall k :: 0 <= k < |ids| ==> ids[k] < |s.rows|
    ensures |r.0.rows| == |s.rows| && r.0.tasks == s.tasks
  {
    if ids == [] then (s, 0)
    else
      var id := ids[|ids| - 1];
      var (before, n) := PromoteEach(s, ids[..|ids| - 1], held, now, matches);
      if held(id) then (before, n)
      else (PromoteRow(before, id, now, matches(id)), if Promotes(before.rows[id]) then n + 1 else n)
  }

  function EscalateEach(
      s: State, ids: seq<nat>, selected: nat -> bool, now: int, matches: nat -> bool): (r: (State, nat))
    requires forall k :: 0 <= k < |ids| ==> ids[k] < |s.rows|
    ensures |r.0.rows| == |s.rows| && r.0.tasks == s.tasks
  {
    if ids == [] then (s, 0)
    else
      var id := ids[|ids| - 1];
      var (before, n) := EscalateEach(s, ids[..|ids| - 1], selected, now, matches);
      if !selected(id) then (before, n)
      else (EscalateRow(before, id, now, matches(id)), if Escalates(before.rows[id], now) then n + 1 else n)
  }

  lemma NothingPromoted(s: State, held: nat -> bool, now: int, matches: nat -> bool)
    ensures PromoteEach(s, [], held, now, matches) == (s, 0)
  {
  }

  lemma NothingEscalated(s: State, selected: nat -> bool, now: int, matches: nat -> bool)
    ensures EscalateEach(s, [], selected, now, matches) == (s, 0)
  {
  }

  lemma PromoteOneMore(s: State, ids: seq<nat>, i: nat, held: nat -> bool, now: int, matches: nat -> bool)
    requires i < |ids| && forall k :: 0 <= k < |ids| ==> ids[k] < |s.rows|
    ensures PromoteEach(s, ids[..i + 1], held, now, matches)
            == var (before, n) := PromoteEach(s, ids[..i], held, now, matches);
               if held(ids[i]) then (before, n)
               else (PromoteRow(before, ids[i], now, matches(ids[i])),
                     if Promotes(before.rows[ids[i]]) then n + 1 else n)
  {
    hide PromoteRow, Promotes;
    assert ids[..i + 1][..i] == ids[..i];
  }

  lemma EscalateOneMore(s: State, ids: seq<nat>, i: nat, selected: nat -> bool, now: int, matches: nat -> bool)
    requires i < |ids| && forall k :: 0 <= k < |ids| ==> ids[k] < |s.rows|
    ensures EscalateEach(s, ids[..i + 1], selected, now, matches)
            == var (before, n) := EscalateEach(s, ids[..i], selected, now, matches);
               if !selected(ids[i]) then (before, n)
               else (EscalateRow(before, ids[i], now, matches(ids[i])),
                     if Escalates(before.rows[ids[i]], now) then n + 1 else n)
  {
    hide EscalateRow, Escalates;
    assert ids[..i + 1][..i] == ids[..i];
  }

  predicate Among(ids: seq<nat>, i: nat) {
    exists k :: 0 <= k < |ids| && ids[k] == i
  }

  lemma AmongLast(ids: seq<nat>, i: nat)
    requires ids != []
    ensures Among(ids, i) <==> Among(ids[..|ids| - 1], i) || ids[|ids| - 1] == i
  {
    var init := ids[..|ids| - 1];
    if k :| 0 <= k < |ids| && ids[k] == i {
      if k < |ids| - 1 {
        assert init[k] == i;
      }
    }
    if k :| 0 <= k < |init| && init[k] == i {
      assert ids[k] == i;
    }
  }

  function Sent(events: seq<Event>, e: Event, send: bool): seq<Event> {
    if send then events + [e] else events
  }

  /** Whether a promotion, or an escalation, of this row happens, and whether the channel hears of it. */
  predicate Promotes(row: Alert) {
    row.status == Suppressed
  }

  predicate Escalates(row: Alert, now: int) {
    row.status == Open && row.escalatedAt.None? && !Snoozed(row.snoozedUntil, now)
  }

  predicate Hears(row: Alert, now: int, matches: bool) {
    row.hasOrg && matches && !Snoozed(row.snoozedUntil, now)
  }

  lemma PromoteRowAt(s: State, id: nat, now: int, matches: bool, i: nat)
    requires id < |s.rows| && i < |s.rows|
    ensures var after, done := PromoteRow(s, id, now, matches), i == id && Promotes(s.rows[id]);
            && after.rows[i] == (if done then s.rows[i].(status := Open) else s.rows[i])
            && EventsOf(after.outbox, i)
               == Sent(EventsOf(s.outbox, i), AlertOpened, done && Hears(s.rows[id], now, matches))
  {
    AppendNotice(s.outbox, Notice(id, AlertOpened), i);
    hide EventsOf;
  }

  lemma EscalateRowAt(s: State, id: nat, now: int, matches: bool, i: nat)
    requires id < |s.rows| && i < |s.rows|
    ensures var after, done := EscalateRow(s, id, now, matches), i == id && Escalates(s.rows[id], now);
            && after.rows[i] == (if done then s.rows[i].(escalatedAt := Some(now)) else s.rows[i])
            && EventsOf(after.outbox, i)
               == Sent(EventsOf(s.outbox, i), AlertEscalated, done && Hears(s.rows[id], now, matches))
  {
    AppendNotice(s.outbox, Notice(id, AlertEscalated), i);
    hide EventsOf;
  }

  lemma LastIsNew(ids: seq<nat>, bound: nat)
    requires ids != [] && Ascending(ids, bound)
    ensures Ascending(ids[..|ids| - 1], bound) && !Among(ids[..|ids| - 1], ids[|ids| - 1])
  {
  }

  /** The loop reaches exactly the listed rows that are suppressed and not held, and announces each once. */
  lemma {:induction false} PromoteEachRow(
      s: State, ids: seq<nat>, held: nat -> bool, now: int, matches: nat -> bool, i: nat)
    requires Ascending(ids, |s.rows|) && i < |s.rows|
    ensures var after, row := PromoteEach(s, ids, held, now, matches).0, s.rows[i];
            var done := Among(ids, i) && !held(i) && Promotes(row);
            && after.rows[i] == (if done then row.(status := Open) else row)
            && EventsOf(after.outbox, i)
               == Sent(EventsOf(s.outbox, i), AlertOpened, done && Hears(row, now, matches(i)))
    decreases |ids|
  {
    if ids != [] {
      var id, init := ids[|ids| - 1], ids[..|ids| - 1];
      var before := PromoteEach(s, init, held, now, matches).0;
      LastIsNew(ids, |s.rows|);
      AmongLast(ids, i);
      PromoteEachRow(s, init, held, now, matches, i);
      PromoteRowAt(before, id, now, matches(id), i);
      hide EventsOf, Among, Ascending, Promotes, Hears, PromoteRow;
    }
  }

  /** What the selection looks at besides the row. */
  datatype Facts = Facts(firstSeenAt: int, inWindow: bool, closedHours: bool, escalateAfterMinutes: Option<int>)

  predicate ShouldEscalate(row: Alert, f: Facts, now: int) {
    && row.status == Open && row.escalatedAt.None? && !f.inWindow && !f.closedHours
    && !Snoozed(row.snoozedUntil, now)
    && f.escalateAfterMinutes.Some? && f.escalateAfterMinutes.value >= 1
    && now >= f.firstSeenAt + f.escalateAfterMinutes.value * 60000
  }

  /** Likewise for escalation: listed, selected, and still due when its turn comes. */
  lemma {:induction false} EscalateEachRow(
      s: State, ids: seq<nat>, selected: nat -> bool, now: int, matches: nat -> bool, i: nat)
    requires Ascending(ids, |s.rows|) && i < |s.rows|
    ensures var after, row := EscalateEach(s, ids, selected, now, matches).0, s.rows[i];
            var done := Among(ids, i) && selected(i) && Escalates(row, now);
            && after.rows[i] == (if done then row.(escalatedAt := Some(now)) else row)
            && EventsOf(after.outbox, i)
               == Sent(EventsOf(s.outbox, i), AlertEscalated, done && Hears(row, now, matches(i)))
    decreases |ids|
  {
    if ids != [] {
      var id, init := ids[|ids| - 1], ids[..|ids| - 1];
      var before := EscalateEach(s, init, selected, now, matches).0;
      LastIsNew(ids, |s.rows|);
      AmongLast(ids, i);
      EscalateEachRow(s, init, selected, now, matches, i);
      EscalateRowAt(before, id, now, matches(id), i);
      hide EventsOf, Among, Ascending, Escalates, Hears, EscalateRow;
    }
  }

  /** After a promotion pass only alerts still held are suppressed, and those are untouched. */
  lemma {:induction false} NoneLeftHeld(s: State, held: nat -> bool, now: int, matches: nat -> bool)
    ensures var after := PromoteEach(s, WithStatus(s.rows, Suppressed), held, now, matches).0;
            forall i :: 0 <= i < |s.rows| && after.rows[i].status == Suppressed ==>
              held(i) && after.rows[i] == s.rows[i]
  {
    hide PromoteEach, EventsOf;
    var ids := WithStatus(s.rows, Suppressed);
    forall i | 0 <= i < |s.rows|
      ensures var row := PromoteEach(s, ids, held, now, matches).0.rows[i];
              row.status == Suppressed ==> held(i) && row == s.rows[i]
    {
      PromoteEachRow(s, ids, held, now, matches, i);
      if s.rows[i].status == Suppressed {
        assert i in ids;
      }
    }
  }

  function Selected(rows: seq<Alert>, facts: nat -> Facts, now: int): nat -> bool {
    (i: nat) => i < |rows| && ShouldEscalate(rows[i], facts(i), now)
  }

  /** After an escalation pass no alert is due. */
  lemma NoneLeftDue(s: State, facts: nat -> Facts, now: int, matches: nat -> bool)
    ensures var after := EscalateEach(s, WithStatus(s.rows, Open), Selected(s.rows, facts, now), now, matches).0;
            forall i :: 0 <= i < |s.rows| ==> !ShouldEscalate(after.rows[i], facts(i), now)
  {
    hide EscalateEach, EventsOf;
    var ids := WithStatus(s.rows, Open);
    forall i | 0 <= i < |s.rows|
      ensures !ShouldEscalate(EscalateEach(s, ids, Selected(s.rows, facts, now), now, matches).0.rows[i], facts(i), now)
    {
      EscalateEachRow(s, ids, Selected(s.rows, facts, now), now, matches, i);
      if s.rows[i].status == Open {
        assert i in ids;
      }
    }
  }

  /** What a promotion pass does to a row: opened and announced when held no longer, else as it was. */
  ghost predicate Released(before: Alert, after: Alert, sent: seq<Event>, told: seq<Event>, stillHeld: bool, now: int,
                           matches: bool) {
    if before.status != Suppressed || stillHeld then after == before && told == sent
    else
      && after == before.(status := Open)
      && told == if before.hasOrg && matches && (before.snoozedUntil == None || before.snoozedUntil.value <= now)
                 then sent + [AlertOpened] else sent
  }

  lemma PassReleases(s: State, held: nat -> bool, now: int, matches: nat -> bool, i: nat)
    requires i < |s.rows|
    ensures var after := PromoteEach(s, WithStatus(s.rows, Suppressed), held, now, matches).0;
            Released(s.rows[i], after.rows[i], EventsOf(s.outbox, i), EventsOf(after.outbox, i), held(i), now,
                     matches(i))
  {
    hide PromoteEach, EventsOf;
    var ids := WithStatus(s.rows, Suppressed);
    PromoteEachRow(s, ids, held, now, matches, i);
    if s.rows[i].status == Suppressed {
      assert i in ids;
    }
  }

  /**
   When an alert escalates: open, not yet escalated, outside windows, closed hours and its snooze,
   and first seen at least as many minutes ago as its policy asks for, at least one.
   */
  ghost predicate DueFor(row: Alert, f: Facts, now: int) {
    && row.status == Open && row.escalatedAt == None && !f.inWindow && !f.closedHours
    && (row.snoozedUntil == None || row.snoozedUntil.value <= now)
    && f.escalateAfterMinutes.Some? && f.escalateAfterMinutes.value > 0
    && now - f.firstSeenAt >= f.escalateAfterMinutes.value * 60000
  }

  /** What an escalation pass does to a row: marked and announced when due, else as it was. */
  ghost predicate Escalated(before: Alert, after: Alert, sent: seq<Event>, told: seq<Event>, f: Facts, now: int,
                            matches: bool) {
    if !DueFor(before, f, now) then after == before && told == sent
    else
      && after == before.(escalatedAt := Some(now))
      && told == if before.hasOrg && matches then sent + [AlertEscalated] else sent
  }

  lemma PassEscalates(s: State, facts: nat -> Facts, now: int, matches: nat -> bool, i: nat)
    requires i < |s.rows|
    ensures var after := EscalateEach(s, WithStatus(s.rows, Open), Selected(s.rows, facts, now), now, matches).0;
            Escalated(s.rows[i], after.rows[i], EventsOf(s.outbox, i), EventsOf(after.outbox, i), facts(i), now,
                      matches(i))
  {
    hide EscalateEach, EventsOf;
    var ids := WithStatus(s.rows, Open);
    EscalateEachRow(s, ids, Selected(s.rows, facts, now), now, matches, i);
    if s.rows[i].status == Open {
      assert i in ids;
    }
  }

  /** How many of the listed rows a test picks. */
  function CountOf(ids: seq<nat>, picked: nat -> bool): nat {
    if ids == [] then 0
    else CountOf(ids[..|ids| - 1], picked) + if picked(ids[|ids| - 1]) then 1 else 0
  }

  /** The number returned is that of the rows changed: the suppressed ones no longer held. */
  lemma {:induction false} PromotedCount(s: State, ids: seq<nat>, held: nat -> bool, now: int, matches: nat -> bool)
    requires Ascending(ids, |s.rows|) && forall k :: 0 <= k < |ids| ==> s.rows[ids[k]].status == Suppressed
    ensures PromoteEach(s, ids, held, now, matches).1 == CountOf(ids, (i: nat) => !held(i))
    decreases |ids|
  {
    if ids != [] {
      var init := ids[..|ids| - 1];
      LastIsNew(ids, |s.rows|);
      PromotedCount(s, init, held, now, matches);
      PromoteEachRow(s, init, held, now, matches, ids[|ids| - 1]);
      hide EventsOf, Among, Hears, PromoteRow, Ascending;
    }
  }

  /** Likewise the selected ones. */
  lemma {:induction false} EscalatedCount(s: State, ids: seq<nat>, facts: nat -> Facts, now: int, matches: nat -> bool)
    requires Ascending(ids, |s.rows|)
    ensures EscalateEach(s, ids, Selected(s.rows, facts, now), now, matches).1
            == CountOf(ids, (i: nat) => i < |s.rows| && DueFor(s.rows[i], facts(i), now))
    decreases |ids|
  {
    if ids != [] {
      var init, last := ids[..|ids| - 1], ids[|ids| - 1];
      LastIsNew(ids, |s.rows|);
      EscalatedCount(s, init, facts, now, matches);
      EscalateEachRow(s, init, Selected(s.rows, facts, now), now, matches, last);
      hide EventsOf, Among, Hears, EscalateRow, Ascending;
      assert Selected(s.rows, facts, now)(last) <==> DueFor(s.rows[last], facts(last), now);
    }
  }

  lemma RepeatKeeps(row: Alert, mode: Mode, now: int)
    ensures Repeated(row, mode, now).key == row.key && Repeated(row, mode, now).status == row.status
  {
  }

  class AlertStore {
    var rows: seq<Alert>
    var outbox: seq<Notice>

    constructor ()
      ensures rows == [] && outbox == []
    {
      rows, outbox := [], [];
    }

    ghost function Contents(): State
      reads this
    {
      State(rows, outbox, map[])
    }

    /** `enqueueAlertNotifications`, seen from one channel. */
    method EnqueueAlertNotifications(id: nat, event: Event, now: int, matches: bool)
      requires id < |rows|
      modifies this`outbox
      ensures outbox == Notify(old(outbox), id, rows[id], event, now, matches)
    {
      if !ShouldEnqueue(rows[id].status, rows[id].snoozedUntil, event, now) {
        return;
      }
      if !rows[id].hasOrg || !matches {
        return;
      }
      outbox := outbox + [Notice(id, event)];
    }

    /** The insert of a new alert, with its notice unless it is held. */
    method InsertRaised(input: RaiseInput, now: int, matches: bool)
      requires FindUnresolved(rows, input.key).None?
      modifies this
      ensures Contents() == InsertRow(old(Contents()), input, now, matches)
      ensures |rows| == |old(rows)| + 1 && FindUnresolved(rows, input.key) == Some(|old(rows)|)
    {
      hide FindUnresolved;
      FindAppended(rows, NewRow(input, now));
      rows := rows + [NewRow(input, now)];
      if rows[|rows| - 1].status == Open {
        EnqueueAlertNotifications(|rows| - 1, AlertOpened, now, matches);
      }
    }

    /** The promotion a raise makes, in its own transaction. */
    method PromoteRaised(id: nat, now: int, matches: bool)
      requires id < |rows| && rows[id].status == Suppressed
      modifies this
      ensures Contents() == PromoteByRaise(old(Contents()), id, now, matches)
      ensures rows == old(rows)[id := old(rows)[id].(status := Open, lastSeenAt := now)]
    {
      rows := rows[id := rows[id].(status := Open, lastSeenAt := now)];
      EnqueueAlertNotifications(id, AlertOpened, now, matches);
    }

    /** A repeat of an alert that is already there. */
    method Touch(id: nat, mode: Mode, now: int)
      requires id < |rows|
      modifies this`rows
      ensures rows == old(rows)[id := Repeated(old(rows)[id], mode, now)]
    {
      var existing := rows[id];
      if mode == ConditionMode {
        var recent := now - existing.lastSeenAt < CONDITION_TOUCH_INTERVAL_MS;
        if !recent {
          rows := rows[id := rows[id].(lastSeenAt := now)];
        }
        return;
      }
      rows := rows[id := rows[id].(occurrences := existing.occurrences + 1, lastSeenAt := now)];
    }

    /** The id of the row that now stands for the condition, and whether it is new. */
    method RaiseAlert(enabled: bool, input: RaiseInput, now: int, matches: bool)
      returns (id: Option<nat>, created: bool)
      modifies this
      ensures Contents() == if enabled then RaiseAtOnce(old(Contents()), input, now, matches) else old(Contents())
      ensures created <==> |rows| == |old(rows)| + 1
      ensures id == if enabled then FindUnresolved(rows, input.key) else None
    {
      if !enabled {
        return None, false;
      }
      RaiseAtOnceIs(Contents(), input, now, matches);
      hide RaiseAtOnce, Repeated, PromoteByRaise, InsertRow, FindUnresolved;
      var existing := FindUnresolved(rows, input.key);
      if input.skip && existing.None? {
        return None, false;
      }
      if existing.Some? {
        var found := existing.value;
        if rows[found].status == Suppressed && !input.inWindow && !input.skip {
          PromoteRaised(found, now, matches);
          FindSame(old(rows), rows, input.key);
        } else {
          Touch(found, input.mode, now);
          RepeatKeeps(old(rows)[found], input.mode, now);
          FindSame(old(rows), rows, input.key);
        }
        return existing, false;
      }
      InsertRaised(input, now, matches);
      return Some(|rows| - 1), true;
    }

    /** The row it resolved, if there was one. */
    method ResolveAlert(key: string, now: int, matches: bool) returns (resolved: Option<nat>)
      modifies this
      ensures Contents() == ResolveAtOnce(old(Contents()), key, now, matches)
      ensures resolved == FindUnresolved(old(rows), key)
    {
      resolved := FindUnresolved(rows, key);
      if resolved.None? {
        return;
      }
      var id := resolved.value;
      var wasSuppressed := rows[id].status == Suppressed;
      rows := rows[id := rows[id].(status := Resolved)];
      if !wasSuppressed {
        EnqueueAlertNotifications(id, AlertResolved, now, matches);
      }
      assert map[0 := Resolving(id, wasSuppressed)] - {0} == map[];
    }

    /** One transaction of the promotion loop. */
    method PromoteGuarded(id: nat, now: int, matches: bool) returns (updated: bool)
      requires id < |rows|
      modifies this
      ensures Contents() == PromoteRow(old(Contents()), id, now, matches) && updated == Promotes(old(rows)[id])
    {
      updated := rows[id].status == Suppressed;
      if updated {
        rows := rows[id := rows[id].(status := Open)];
        EnqueueAlertNotifications(id, AlertOpened, now, matches);
      }
    }

    /** One transaction of the escalation loop; its guard looks at the row again. */
    method EscalateGuarded(id: nat, now: int, matches: bool) returns (updated: bool)
      requires id < |rows|
      modifies this
      ensures Contents() == EscalateRow(old(Contents()), id, now, matches) && updated == Escalates(old(rows)[id], now)
    {
      var row := rows[id];
      updated := row.status == Open && row.escalatedAt.None? && !Snoozed(row.snoozedUntil, now);
      if updated {
        rows := rows[id := row.(escalatedAt := Some(now))];
        EnqueueAlertNotifications(id, AlertEscalated, now, matches);
      }
    }

    /** Releases every held alert whose hold is over; the number released. */
    method PromoteSuppressedAlerts(held: nat -> bool, now: int, matches: nat -> bool) returns (promoted: nat)
      modifies this
      ensures (Contents(), promoted)
              == PromoteEach(old(Contents()), WithStatus(old(rows), Suppressed), held, now, matches)
      ensures promoted == CountOf(WithStatus(old(rows), Suppressed), (i: nat) => !held(i))
      ensures |rows| == |old(rows)|
      ensures forall i :: 0 <= i < |rows| && rows[i].status == Suppressed ==> held(i) && rows[i] == old(rows)[i]
      ensures forall i :: 0 <= i < |rows| ==>
                Released(old(rows)[i], rows[i], EventsOf(old(outbox), i), EventsOf(outbox, i), held(i), now, matches(i))
    {
      ghost var start := Contents();
      var suppressed := WithStatus(rows, Suppressed);
      hide WithStatus, Promotes, PromoteRow, PromoteEach;
      NothingPromoted(start, held, now, matches);
      promoted := 0;
      for i := 0 to |suppressed|
        invariant (Contents(), promoted) == PromoteEach(start, suppressed[..i], held, now, matches)
      {
        PromoteOneMore(start, suppressed, i, held, now, matches);
        var id := suppressed[i];
        if held(id) {
          continue;
        }
        var updated := PromoteGuarded(id, now, matches(id));
        if updated {
          promoted := promoted + 1;
        }
      }
      assert suppressed[..|suppressed|] == suppressed;
      NoneLeftHeld(start, held, now, matches);
      PromotedCount(start, suppressed, held, now, matches);
      hide Released, EventsOf;
      forall i | 0 <= i < |rows|
        ensures Released(start.rows[i], rows[i], EventsOf(start.outbox, i), EventsOf(outbox, i), held(i), now,
                         matches(i))
      {
        PassReleases(start, held, now, matches, i);
      }
    }

    /** Escalates every alert that is due; the number escalated. Afterwards none is due. */
    method EscalateOpenAlerts(facts: nat -> Facts, now: int, matches: nat -> bool) returns (escalated: nat)
      modifies this
      ensures (Contents(), escalated)
              == EscalateEach(old(Contents()), WithStatus(old(rows), Open), Selected(old(rows), facts, now), now,
                 matches)
      ensures var start := old(rows);
              escalated == CountOf(WithStatus(start, Open), (i: nat) => i < |start| && DueFor(start[i], facts(i), now))
      ensures |rows| == |old(rows)|
      ensures forall i :: 0 <= i < |rows| ==> !ShouldEscalate(rows[i], facts(i), now)
      ensures forall i :: 0 <= i < |rows| ==>
                Escalated(old(rows)[i], rows[i], EventsOf(old(outbox), i), EventsOf(outbox, i), facts(i), now,
                          matches(i))
    {
      ghost var start := Contents();
      var open := WithStatus(rows, Open);
      var selected := Selected(rows, facts, now);
      hide Selected, ShouldEscalate, WithStatus, Escalates, EscalateRow, EscalateEach;
      NothingEscalated(start, selected, now, matches);
      escalated := 0;
      for i := 0 to |open|
        invariant (Contents(), escalated) == EscalateEach(start, open[..i], selected, now, matches)
      {
        EscalateOneMore(start, open, i, selected, now, matches);
        var id := open[i];
        if !selected(id) {
          continue;
        }
        var updated := EscalateGuarded(id, now, matches(id));
        if updated {
          escalated := escalated + 1;
        }
      }
      assert open[..|open|] == open;
      NoneLeftDue(start, facts, now, matches);
      EscalatedCount(start, open, facts, now, matches);
      hide Escalated, EventsOf;
      forall i | 0 <= i < |rows|
        ensures Escalated(start.rows[i], rows[i], EventsOf(start.outbox, i), EventsOf(outbox, i), facts(i), now,
                          matches(i))
      {
        PassEscalates(start, facts, now, matches, i);
      }
    }
  }
}
