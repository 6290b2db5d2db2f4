/**
 Device commands: the rows, the single statements and transactions that change them, and the
 receipts after-hours runs keep about them (apps/web/lib/agent-fleet.ts,
 packages/api-contract/src/playbook-engine.ts and after-hours-engine.ts,
 packages/shared/src/fleet.ts and after-hours.ts).
 */
module DeviceCommands {
  import opened Options

  datatype Status = Pending | Sent | Succeeded | Failed | Refused | Cancelled

  datatype Kind = Reboot | Restart | Update | RestartService

  datatype Command = Command(id: string, deviceId: string, kind: Kind, serviceName: Option<string>, status: Status)

  /** An agent's report on one command; its status is one of the three outcomes. */
  datatype Ack = Ack(id: string, status: Status)

  /** The actions playbooks and after-hours runs may use. */
  predicate Playbook(steps: seq<Kind>) {
    forall i :: 0 <= i < |steps| ==> steps[i] != RestartService
  }

  predicate Outcome(s: Status) {
    s == Succeeded || s == Failed || s == Refused
  }

  predicate Reports(results: seq<Ack>) {
    forall i :: 0 <= i < |results| ==> Outcome(results[i].status)
  }

  predicate Open(c: Command) {
    c.status == Pending || c.status == Sent
  }

  predicate DistinctIds(rows: seq<Command>) {
    forall i, j :: 0 <= i < j < |rows| ==> rows[i].id != rows[j].id
  }

  // ----- one check-in -----

  /** The status reported for a command; the last report for an id wins. */
  function Reported(id: string, results: seq<Ack>): (r: Option<Status>)
  {
    if results == [] then None
    else if results[|results| - 1].id == id then Some(results[|results| - 1].status)
    else Reported(id, results[..|results| - 1])
  }

  /** `applyCommandAcks` on one row: settled commands are left alone. */
  function Acked(c: Command, results: seq<Ack>): Command {
    var r := Reported(c.id, results);
    if r.None? || !Open(c) then c else c.(status := r.value)
  }

  /**
   Whether a check-in of `device` hands this row over. `encodes` is the allowlist the encoder
   applies to what it would send.
   */
  predicate HandedOver(c: Command, device: string, results: seq<Ack>, encodes: Command -> bool) {
    c.deviceId == device && Open(c) && Acked(c, results).status == Pending && encodes(Acked(c, results))
  }

  function RowAfterCheckIn(c: Command, device: string, results: seq<Ack>, encodes: Command -> bool): Command {
    if c.deviceId != device then c
    else if HandedOver(c, device, results, encodes) then c.(status := Sent)
    else Acked(c, results)
  }

  function AfterCheckIn(rows: seq<Command>, device: string, results: seq<Ack>, encodes: Command -> bool): seq<Command> {
    seq(|rows|, i requires 0 <= i < |rows| => RowAfterCheckIn(rows[i], device, results, encodes))
  }

  /** Ids of the commands the check-in answers with, in row order. */
  function Payload(rows: seq<Command>, device: string, results: seq<Ack>, encodes: Command -> bool): seq<string> {
    if rows == [] then []
    else
      Payload(rows[..|rows| - 1], device, results, encodes)
      + if HandedOver(rows[|rows| - 1], device, results, encodes) then [rows[|rows| - 1].id] else []
  }

  /** The `k`-th report is the last one on the command. */
  predicate LastReport(results: seq<Ack>, id: string, k: nat) {
    k < |results| && results[k].id == id && forall j :: k < j < |results| ==> results[j].id != id
  }

  predicate Unreported(results: seq<Ack>, id: string) {
    forall j :: 0 <= j < |results| ==> results[j].id != id
  }

  lemma {:induction false} ReportedIs(id: string, results: seq<Ack>)
    ensures Reported(id, results).None? <==> Unreported(results, id)
    ensures forall k: nat :: LastReport(results, id, k) ==> Reported(id, results) == Some(results[k].status)
    decreases |results|
  {
    if results != [] {
      var init := results[..|results| - 1];
      ReportedIs(id, init);
      if results[|results| - 1].id != id {
        assert Unreported(init, id) ==> Unreported(results, id);
        forall k: nat | LastReport(results, id, k) ensures Reported(id, results) == Some(results[k].status) {
          assert LastReport(init, id, k);
        }
      }
    }
  }

  /** A command is handed over exactly when it waits for this device, is not reported on, and encodes. */
  lemma HandedOverIff(c: Command, device: string, results: seq<Ack>, encodes: Command -> bool)
    requires Reports(results)
    ensures HandedOver(c, device, results, encodes)
            <==> c.deviceId == device && c.status == Pending && Unreported(results, c.id) && encodes(c)
    ensures Unreported(results, c.id) <==> Reported(c.id, results) == None
    ensures Open(c) && Reported(c.id, results).Some? ==> Outcome(Acked(c, results).status)
  {
    ReportedOutcome(c.id, results);
    ReportedIs(c.id, results);
  }

  /**
   What a check-in makes of a row: an open command of the device takes the status of its last
   report; without one it is sent if it waits and encodes, and every other row stays as it is.
   */
  ghost predicate Recorded(
      before: Command, after: Command, device: string, results: seq<Ack>, encodes: Command -> bool) {
    if before.deviceId != device || (before.status != Pending && before.status != Sent) then after == before
    else
      && after.(status := before.status) == before
      && (forall k: nat :: LastReport(results, before.id, k) ==> after.status == results[k].status)
      && (Unreported(results, before.id) ==>
            after.status == if before.status == Pending && encodes(before) then Sent else before.status)
  }

  lemma RowRecords(c: Command, device: string, results: seq<Ack>, encodes: Command -> bool)
    requires Reports(results)
    ensures Recorded(c, RowAfterCheckIn(c, device, results, encodes), device, results, encodes)
  {
    ReportedIs(c.id, results);
    HandedOverIff(c, device, results, encodes);
    assert c.(status := c.status) == c;
    hide Reported, LastReport, Unreported;
  }

  /** A check-in records exactly that on every row. */
  lemma CheckInRecords(rows: seq<Command>, device: string, results: seq<Ack>, encodes: Command -> bool)
    requires Reports(results)
    ensures |AfterCheckIn(rows, device, results, encodes)| == |rows|
    ensures forall i :: 0 <= i < |rows| ==>
              Recorded(rows[i], AfterCheckIn(rows, device, results, encodes)[i], device, results, encodes)
  {
    hide Recorded, RowAfterCheckIn;
    forall i | 0 <= i < |rows|
      ensures Recorded(rows[i], AfterCheckIn(rows, device, results, encodes)[i], device, results, encodes)
    {
      RowRecords(rows[i], device, results, encodes);
    }
  }

  lemma {:induction false} ReportedOutcome(id: string, results: seq<Ack>)
    requires Reports(results)
    ensures Reported(id, results).Some? ==> Outcome(Reported(id, results).value)
  {
    if results != [] {
      ReportedOutcome(id, results[..|results| - 1]);
    }
  }

  lemma {:induction false} PayloadMembers(
      rows: seq<Command>, device: string, results: seq<Ack>, encodes: Command -> bool, id: string)
    ensures id in Payload(rows, device, results, encodes)
            <==> exists i :: 0 <= i < |rows| && rows[i].id == id && HandedOver(rows[i], device, results, encodes)
    decreases |rows|
  {
    hide HandedOver;
    if rows != [] {
      var init, last := rows[..|rows| - 1], rows[|rows| - 1];
      PayloadMembers(init, device, results, encodes, id);
      if id in Payload(rows, device, results, encodes) {
        if id in Payload(init, device, results, encodes) {
          var i :| 0 <= i < |init| && init[i].id == id && HandedOver(init[i], device, results, encodes);
          assert rows[i] == init[i];
        } else {
          assert last.id == id && HandedOver(last, device, results, encodes);
        }
      }
      if i :| 0 <= i < |rows| && rows[i].id == id && HandedOver(rows[i], device, results, encodes) {
        if i < |rows| - 1 {
          assert init[i] == rows[i];
        } else {
          assert last.id == id && HandedOver(last, device, results, encodes);
        }
      }
    }
  }

  predicate NoRepeat(ids: seq<string>) {
    forall i, j :: 0 <= i < j < |ids| ==> ids[i] != ids[j]
  }

  lemma {:induction false} PayloadDistinct(
      rows: seq<Command>, device: string, results: seq<Ack>, encodes: Command -> bool)
    requires DistinctIds(rows)
    ensures NoRepeat(Payload(rows, device, results, encodes))
    decreases |rows|
  {
    hide HandedOver;
    if rows != [] {
      var init := rows[..|rows| - 1];
      PayloadDistinct(init, device, results, encodes);
      var p := Payload(init, device, results, encodes);
      forall i | 0 <= i < |p| ensures p[i] != rows[|rows| - 1].id {
        assert p[i] in p;
        PayloadMembers(init, device, results, encodes, p[i]);
        var k :| 0 <= k < |init| && init[k].id == p[i] && HandedOver(init[k], device, results, encodes);
        assert rows[k].id != rows[|rows| - 1].id;
      }
      AppendNew(p, rows[|rows| - 1].id);
    }
  }

  lemma AppendNew(ids: seq<string>, id: string)
    requires NoRepeat(ids) && forall i :: 0 <= i < |ids| ==> ids[i] != id
    ensures NoRepeat(ids + [id])
  {
  }

  // ----- receipts of after-hours runs -----

  datatype DeviceOutcome = Queued | Archived | Offline | Revoked | NotEnrolled | OpenCommand | CancelledBeforePickup

  datatype DeviceResult = DeviceResult(deviceId: string, outcome: DeviceOutcome, commandIds: seq<string>)

  datatype RunStatus = PendingApproval | RunQueued | Skipped | Denied | Expired | RunCancelled

  datatype Run = Run(status: RunStatus, results: seq<DeviceResult>)

  predicate Active(s: RunStatus) {
    s == PendingApproval || s == RunQueued
  }

  predicate AllIn(ids: seq<string>, these: set<string>) {
    forall i :: 0 <= i < |ids| ==> ids[i] in these
  }

  function ApplyCancelled(results: seq<DeviceResult>, cancelled: set<string>): seq<DeviceResult> {
    seq(|results|, i requires 0 <= i < |results| =>
      var e := results[i];
      if e.outcome == Queued && e.commandIds != [] && AllIn(e.commandIds, cancelled)
      then e.(outcome := CancelledBeforePickup) else e)
  }

  function CommandIds(results: seq<DeviceResult>): set<string> {
    set i, j | 0 <= i < |results| && 0 <= j < |results[i].commandIds| :: results[i].commandIds[j]
  }

  /** Ids the guarded cancel statement reports back: those it found pending. */
  function CancelledIds(rows: seq<Command>, ids: set<string>): set<string> {
    set i | 0 <= i < |rows| && rows[i].id in ids && rows[i].status == Pending :: rows[i].id
  }

  function CancelPending(rows: seq<Command>, ids: set<string>): seq<Command> {
    seq(|rows|, i requires 0 <= i < |rows| =>
      if rows[i].id in ids && rows[i].status == Pending then rows[i].(status := Cancelled) else rows[i])
  }

  function CountOutcome(results: seq<DeviceResult>, queued: bool): nat {
    if results == [] then 0
    else CountOutcome(results[..|results| - 1], queued)
         + if (results[|results| - 1].outcome == Queued) == queued then 1 else 0
  }

  /** The two counters of a receipt always add up to its devices. */
  lemma {:induction false} CountsAddUp(results: seq<DeviceResult>)
    ensures CountOutcome(results, true) + CountOutcome(results, false) == |results|
    decreases |results|
  {
    if results != [] {
      CountsAddUp(results[..|results| - 1]);
    }
  }

  /** One device more adds one to the counter of its outcome and none to the other. */
  lemma CountsInOrder(results: seq<DeviceResult>, e: DeviceResult, queued: bool)
    ensures CountOutcome([], queued) == 0
    ensures CountOutcome(results + [e], queued)
            == CountOutcome(results, queued) + if queued then (if e.outcome == Queued then 1 else 0)
                                               else (if e.outcome != Queued then 1 else 0)
  {
    assert (results + [e])[..|results|] == results;
  }

  // ----- interleaved steps -----

  /** `serviceName` is set only for restarts of a service. */
  datatype Waiting = Waiting(deviceId: string, kind: Kind, serviceName: Option<string>)

  /** A cancel under way: the run as read, and, once its commands are dealt with, those taken back. */
  datatype Cancelling = Cancelling(run: string, read: Run, taken: Option<set<string>>)

  /**
   The shared tables and what running tasks remember between statements: enqueues that found no
   open command and have yet to insert, and cancels. `delivered` logs every command handed to an
   agent.
   */
  datatype State = State(rows: seq<Command>, delivered: seq<string>, waiting: map<int, Waiting>,
                         runs: map<string, Run>, cancelling: map<int, Cancelling>)

  datatype Step =
    | EnqueueRead(task: int, deviceId: string, kind: Kind, serviceName: Option<string>)
    | EnqueueInsert(task: int, id: string)
    | CheckIn(deviceId: string, results: seq<Ack>, encodes: Command -> bool)
    | StoreRun(run: string, stored: Run)
    | CancelRead(task: int, run: string)
    | CancelCommands(task: int)
    | CancelClose(task: int)

  /** An open command stands in the way of another of its kind; restarts of two named services do not. */
  predicate Blocks(c: Command, kind: Kind, serviceName: Option<string>) {
    && c.kind == kind && Open(c)
    && (kind == RestartService && serviceName.Some? && serviceName.value != "" ==> c.serviceName == serviceName)
  }

  predicate HasOpenOfKind(rows: seq<Command>, device: string, kind: Kind, serviceName: Option<string>) {
    exists i :: 0 <= i < |rows| && rows[i].deviceId == device && Blocks(rows[i], kind, serviceName)
  }

  predicate IdTaken(rows: seq<Command>, id: string) {
    exists i :: 0 <= i < |rows| && rows[i].id == id
  }

  /** Queueing writes receipts that have not yet been cancelled. */
  predicate FreshReceipt(r: Run) {
    forall i :: 0 <= i < |r.results| ==> r.results[i].outcome != CancelledBeforePickup
  }

  predicate Enabled(s: State, step: Step) {
    match step
    case EnqueueRead(t, _, _, _) => t !in s.waiting
    case EnqueueInsert(t, id) => t in s.waiting && !IdTaken(s.rows, id)
    case CheckIn(_, results, _) => Reports(results)
    case StoreRun(_, stored) => FreshReceipt(stored)
    case CancelRead(t, run) => t !in s.cancelling && run in s.runs
    case CancelCommands(t) => t in s.cancelling && s.cancelling[t].taken.None?
    case CancelClose(t) => t in s.cancelling && s.cancelling[t].taken.Some? && s.cancelling[t].run in s.runs
  }

  /** A cancel closes the run as it now stands, unless nothing was taken back or it is closed already. */
  predicate Closes(runs: map<string, Run>, run: string, read: Run, cancelled: set<string>)
    requires run in runs
  {
    (read.status == PendingApproval || cancelled != {}) && Active(runs[run].status)
  }

  function CancelWriteRuns(runs: map<string, Run>, run: string, read: Run, cancelled: set<string>): map<string, Run>
    requires run in runs
  {
    if Closes(runs, run, read, cancelled) then runs[run := Run(RunCancelled, ApplyCancelled(read.results, cancelled))]
    else runs
  }

  function Next(s: State, step: Step): State
    requires Enabled(s, step)
  {
    match step
    case EnqueueRead(t, device, kind, service) =>
      if HasOpenOfKind(s.rows, device, kind, service) then s
      else s.(waiting := s.waiting[t := Waiting(device, kind, service)])
    case EnqueueInsert(t, id) =>
      var w := s.waiting[t];
      s.(rows := s.rows + [Command(id, w.deviceId, w.kind, w.serviceName, Pending)], waiting := s.waiting - {t})
    case CheckIn(device, results, encodes) =>
      s.(rows := AfterCheckIn(s.rows, device, results, encodes),
         delivered := s.delivered + Payload(s.rows, device, results, encodes))
    case StoreRun(run, stored) => s.(runs := s.runs[run := stored])
    case CancelRead(t, run) => s.(cancelling := s.cancelling[t := Cancelling(run, s.runs[run], None)])
    case CancelCommands(t) =>
      var ids := CommandIds(s.cancelling[t].read.results);
      s.(rows := CancelPending(s.rows, ids),
         cancelling := s.cancelling[t := s.cancelling[t].(taken := Some(CancelledIds(s.rows, ids)))])
    case CancelClose(t) =>
      var Cancelling(run, read, taken) := s.cancelling[t];
      s.(runs := CancelWriteRuns(s.runs, run, read, taken.value), cancelling := s.cancelling - {t})
  }

  const EMPTY: State := State([], [], map[], map[], map[])

  predicate Runnable(s: State, steps: seq<Step>)
    decreases |steps|
  {
    steps == [] || (Enabled(s, steps[0]) && Runnable(Next(s, steps[0]), steps[1..]))
  }

  /** The state after a whole run of interleaved steps. */
  function Exec(s: State, steps: seq<Step>): State
    requires Runnable(s, steps)
    decreases |steps|
  {
    if steps == [] then s else Exec(Next(s, steps[0]), steps[1..])
  }

  // ----- what every step keeps -----

  /** Handed over at least once. */
  predicate Delivered(s: State, id: string) {
    exists k :: 0 <= k < |s.delivered| && s.delivered[k] == id
  }

  predicate IsCancelledRow(rows: seq<Command>, id: string) {
    exists i :: 0 <= i < |rows| && rows[i].id == id && rows[i].status == Cancelled
  }

  /** A device is shown as cancelled only if it had commands and every one of them was cancelled. */
  ghost predicate HonestReceipt(rows: seq<Command>, r: Run) {
    forall i :: 0 <= i < |r.results| && r.results[i].outcome == CancelledBeforePickup ==>
      && r.results[i].commandIds != []
      && forall j :: 0 <= j < |r.results[i].commandIds| ==> IsCancelledRow(rows, r.results[i].commandIds[j])
  }

  ghost predicate DeliveryInvariant(s: State) {
    && DistinctIds(s.rows)
    && (forall i :: 0 <= i < |s.rows| && (s.rows[i].status == Pending || s.rows[i].status == Cancelled) ==>
          !Delivered(s, s.rows[i].id))
    && (forall i :: 0 <= i < |s.rows| && s.rows[i].status == Sent ==> Delivered(s, s.rows[i].id))
    && (forall k :: 0 <= k < |s.delivered| ==> IdTaken(s.rows, s.delivered[k]))
    && NoRepeat(s.delivered)
  }

  predicate AllCancelled(rows: seq<Command>, ids: set<string>) {
    forall id :: id in ids ==> IsCancelledRow(rows, id)
  }

  ghost predicate ReceiptInvariant(s: State) {
    && (forall run :: run in s.runs ==> HonestReceipt(s.rows, s.runs[run]))
    && (forall t :: t in s.cancelling ==> HonestReceipt(s.rows, s.cancelling[t].read))
    && (forall t :: t in s.cancelling && s.cancelling[t].taken.Some? ==>
       AllCancelled(s.rows, s.cancelling[t].taken.value))
  }

  /** How one row may change: a settled row never does, and ids and devices stay. */
  predicate RowStep(before: Command, after: Command) {
    && after.id == before.id && after.deviceId == before.deviceId
    && after.kind == before.kind && after.serviceName == before.serviceName
    && (!Open(before) ==> after == before)
    && (after.status == Pending ==> before.status == Pending)
    && (after.status == Cancelled ==> before.status == Pending || before.status == Cancelled)
  }

  predicate RowsStep(before: seq<Command>, after: seq<Command>) {
    |before| <= |after| && forall i :: 0 <= i < |before| ==> RowStep(before[i], after[i])
  }

  lemma StepMovesRows(s: State, step: Step)
    requires Enabled(s, step)
    ensures RowsStep(s.rows, Next(s, step).rows)
  {
    if step.CheckIn? {
      forall i | 0 <= i < |s.rows| ensures RowStep(s.rows[i], Next(s, step).rows[i]) {
        HandedOverIff(s.rows[i], step.deviceId, step.results, step.encodes);
      }
    }
  }

  lemma PayloadWasPending(rows: seq<Command>, device: string, results: seq<Ack>, encodes: Command -> bool, id: string)
    requires Reports(results) && id in Payload(rows, device, results, encodes)
    ensures exists i :: 0 <= i < |rows| && rows[i].id == id && rows[i].status == Pending
  {
    PayloadMembers(rows, device, results, encodes, id);
    var i :| 0 <= i < |rows| && rows[i].id == id && HandedOver(rows[i], device, results, encodes);
    HandedOverIff(rows[i], device, results, encodes);
  }

  /** In a table with distinct ids a row's id is in the payload exactly when that row is handed over. */
  lemma PayloadRow(rows: seq<Command>, device: string, results: seq<Ack>, encodes: Command -> bool, i: nat)
    requires DistinctIds(rows) && i < |rows|
    ensures rows[i].id in Payload(rows, device, results, encodes) <==> HandedOver(rows[i], device, results, encodes)
  {
    hide HandedOver;
    PayloadMembers(rows, device, results, encodes, rows[i].id);
  }

  lemma CheckInStatuses(s: State, step: Step, i: nat)
    requires step.CheckIn? && Enabled(s, step) && DeliveryInvariant(s) && i < |s.rows|
    ensures var next := Next(s, step); var c := next.rows[i];
            && c.id == s.rows[i].id
            && (c.status == Sent ==> Delivered(next, c.id))
            && (c.status == Pending || c.status == Cancelled ==> !Delivered(next, c.id))
  {
    PayloadRow(s.rows, step.deviceId, step.results, step.encodes, i);
    DeliveredAfter(s, Payload(s.rows, step.deviceId, step.results, step.encodes), s.rows[i].id);
    HandedOverIff(s.rows[i], step.deviceId, step.results, step.encodes);
    hide Payload, Delivered, HandedOver;
    assert s.rows[i].status == Sent ==> Delivered(s, s.rows[i].id);
  }

  lemma PayloadWasUndelivered(s: State, step: Step, id: string)
    requires step.CheckIn? && Enabled(s, step) && DeliveryInvariant(s)
    requires id in Payload(s.rows, step.deviceId, step.results, step.encodes)
    ensures IdTaken(s.rows, id) && !Delivered(s, id)
  {
    hide Payload, Delivered;
    PayloadWasPending(s.rows, step.deviceId, step.results, step.encodes, id);
    var i :| 0 <= i < |s.rows| && s.rows[i].id == id && s.rows[i].status == Pending;
    assert !Delivered(s, s.rows[i].id);
  }

  lemma CheckInDelivers(s: State, step: Step)
    requires step.CheckIn? && Enabled(s, step) && DeliveryInvariant(s)
    ensures DeliveryInvariant(Next(s, step))
  {
    var next := Next(s, step);
    var p := Payload(s.rows, step.deviceId, step.results, step.encodes);
    PayloadDistinct(s.rows, step.deviceId, step.results, step.encodes);
    forall i | 0 <= i < |s.rows|
      ensures next.rows[i].id == s.rows[i].id
      ensures next.rows[i].status == Sent ==> Delivered(next, next.rows[i].id)
      ensures next.rows[i].status == Pending || next.rows[i].status == Cancelled ==> !Delivered(next, next.rows[i].id)
    {
      CheckInStatuses(s, step, i);
    }
    hide RowAfterCheckIn, Payload;
    forall k | 0 <= k < |p| ensures IdTaken(s.rows, p[k]) && !Delivered(s, p[k]) {
      assert p[k] in p;
      PayloadWasUndelivered(s, step, p[k]);
    }
    forall k | 0 <= k < |next.delivered| ensures IdTaken(next.rows, next.delivered[k]) {
      assert IdTaken(s.rows, next.delivered[k]);
      var i :| 0 <= i < |s.rows| && s.rows[i].id == next.delivered[k];
      assert next.rows[i].id == s.rows[i].id;
    }
    forall j, k | 0 <= j < |s.delivered| && 0 <= k < |p| ensures s.delivered[j] != p[k] {
      assert Delivered(s, s.delivered[j]) && !Delivered(s, p[k]);
    }
    AppendAll(s.delivered, p);
  }

  lemma AppendAll(ids: seq<string>, more: seq<string>)
    requires NoRepeat(ids) && NoRepeat(more)
    requires forall j, k :: 0 <= j < |ids| && 0 <= k < |more| ==> ids[j] != more[k]
    ensures NoRepeat(ids + more)
  {
    forall j, k | 0 <= j < k < |ids + more| ensures (ids + more)[j] != (ids + more)[k] {
      if k >= |ids| && j < |ids| {
        assert ids[j] != more[k - |ids|];
      } else if j >= |ids| {
        assert more[j - |ids|] != more[k - |ids|];
      }
    }
  }

  lemma DeliveredAfter(s: State, more: seq<string>, id: string)
    ensures Delivered(s.(delivered := s.delivered + more), id) <==> Delivered(s, id) || id in more
  {
    var after := s.delivered + more;
    if k :| 0 <= k < |s.delivered| && s.delivered[k] == id {
      assert after[k] == id;
    }
    if k :| 0 <= k < |more| && more[k] == id {
      assert after[|s.delivered| + k] == id;
    }
  }

  lemma InsertKeepsDelivery(s: State, step: Step)
    requires step.EnqueueInsert? && Enabled(s, step) && DeliveryInvariant(s)
    ensures DeliveryInvariant(Next(s, step))
  {
    var next := Next(s, step);
    forall k | 0 <= k < |next.delivered| ensures IdTaken(next.rows, next.delivered[k]) && next.delivered[k] != step.id {
      assert IdTaken(s.rows, s.delivered[k]);
      var i :| 0 <= i < |s.rows| && s.rows[i].id == s.delivered[k];
      assert next.rows[i] == s.rows[i];
    }
    forall i | 0 <= i < |next.rows|
      ensures next.rows[i].status == Pending || next.rows[i].status == Cancelled ==> !Delivered(next, next.rows[i].id)
      ensures next.rows[i].status == Sent ==> Delivered(next, next.rows[i].id)
    {
      if i < |s.rows| {
        assert next.rows[i] == s.rows[i] && Delivered(next, s.rows[i].id) == Delivered(s, s.rows[i].id);
      }
    }
  }

  lemma CancelKeepsDelivery(s: State, step: Step)
    requires step.CancelCommands? && Enabled(s, step) && DeliveryInvariant(s)
    ensures DeliveryInvariant(Next(s, step))
  {
    var next := Next(s, step);
    forall k | 0 <= k < |next.delivered| ensures IdTaken(next.rows, next.delivered[k]) {
      assert IdTaken(s.rows, s.delivered[k]);
      var i :| 0 <= i < |s.rows| && s.rows[i].id == s.delivered[k];
      assert next.rows[i].id == s.rows[i].id;
    }
  }

  lemma StepKeepsDelivery(s: State, step: Step)
    requires Enabled(s, step) && DeliveryInvariant(s)
    ensures DeliveryInvariant(Next(s, step))
  {
    if step.CheckIn? {
      CheckInDelivers(s, step);
    } else if step.EnqueueInsert? {
      InsertKeepsDelivery(s, step);
    } else if step.CancelCommands? {
      CancelKeepsDelivery(s, step);
    }
  }

  lemma HonestAfterRowsMove(before: seq<Command>, after: seq<Command>, r: Run)
    requires RowsStep(before, after) && HonestReceipt(before, r)
    ensures HonestReceipt(after, r)
  {
    forall i, j | 0 <= i < |r.results| && r.results[i].outcome == CancelledBeforePickup
      && 0 <= j < |r.results[i].commandIds|
      ensures IsCancelledRow(after, r.results[i].commandIds[j])
    {
      assert IsCancelledRow(before, r.results[i].commandIds[j]);
      var k :| 0 <= k < |before| && before[k].id == r.results[i].commandIds[j] && before[k].status == Cancelled;
      assert RowStep(before[k], after[k]);
    }
  }

  lemma CancelledAfterRowsMove(before: seq<Command>, after: seq<Command>, ids: set<string>)
    requires RowsStep(before, after) && AllCancelled(before, ids)
    ensures AllCancelled(after, ids)
  {
    forall id | id in ids ensures IsCancelledRow(after, id) {
      assert IsCancelledRow(before, id);
      var k :| 0 <= k < |before| && before[k].id == id && before[k].status == Cancelled;
      assert RowStep(before[k], after[k]);
    }
  }

  lemma TakenAreCancelled(rows: seq<Command>, ids: set<string>)
    ensures AllCancelled(CancelPending(rows, ids), CancelledIds(rows, ids))
  {
    var after := CancelPending(rows, ids);
    forall id | id in CancelledIds(rows, ids) ensures IsCancelledRow(after, id) {
      var k :| 0 <= k < |rows| && rows[k].id in ids && rows[k].status == Pending && rows[k].id == id;
      assert after[k] == rows[k].(status := Cancelled);
    }
  }

  lemma CancelledReceiptIsHonest(rows: seq<Command>, r: Run, taken: set<string>)
    requires HonestReceipt(rows, r) && AllCancelled(rows, taken)
    ensures HonestReceipt(rows, Run(RunCancelled, ApplyCancelled(r.results, taken)))
  {
    hide IsCancelledRow;
    var results := ApplyCancelled(r.results, taken);
    forall i, j | 0 <= i < |results| && results[i].outcome == CancelledBeforePickup && 0 <= j < |results[i].commandIds|
      ensures IsCancelledRow(rows, results[i].commandIds[j])
    {
      assert results[i].commandIds == r.results[i].commandIds;
      if r.results[i].outcome != CancelledBeforePickup {
        assert r.results[i].commandIds[j] in taken;
      }
    }
  }

  lemma StepKeepsReceipts(s: State, step: Step)
    requires Enabled(s, step) && ReceiptInvariant(s)
    ensures ReceiptInvariant(Next(s, step))
  {
    var next := Next(s, step);
    StepMovesRows(s, step);
    forall run | run in s.runs ensures HonestReceipt(next.rows, s.runs[run]) {
      HonestAfterRowsMove(s.rows, next.rows, s.runs[run]);
    }
    forall t | t in s.cancelling ensures HonestReceipt(next.rows, s.cancelling[t].read) {
      HonestAfterRowsMove(s.rows, next.rows, s.cancelling[t].read);
    }
    forall t | t in s.cancelling && s.cancelling[t].taken.Some?
      ensures AllCancelled(next.rows, s.cancelling[t].taken.value) {
      CancelledAfterRowsMove(s.rows, next.rows, s.cancelling[t].taken.value);
    }
    hide HonestReceipt, AllCancelled, RowsStep, CommandIds, CancelledIds, ApplyCancelled;
    if step.CancelCommands? {
      TakenAreCancelled(s.rows, CommandIds(s.cancelling[step.task].read.results));
    } else if step.CancelClose? {
      CancelledReceiptIsHonest(s.rows, s.cancelling[step.task].read, s.cancelling[step.task].taken.value);
    } else if step.StoreRun? {
      FreshReceiptIsHonest(next.rows, step.stored);
    }
  }

  lemma FreshReceiptIsHonest(rows: seq<Command>, r: Run)
    requires FreshReceipt(r)
    ensures HonestReceipt(rows, r)
  {
  }

  lemma {:induction false} RunKeepsInvariants(s: State, steps: seq<Step>)
    requires Runnable(s, steps) && DeliveryInvariant(s) && ReceiptInvariant(s)
    ensures DeliveryInvariant(Exec(s, steps)) && ReceiptInvariant(Exec(s, steps))
    decreases |steps|
  {
    if steps != [] {
      StepKeepsDelivery(s, steps[0]);
      StepKeepsReceipts(s, steps[0]);
      RunKeepsInvariants(Next(s, steps[0]), steps[1..]);
    }
  }

  /** A command once cancelled stays cancelled, whatever happens next. */
  lemma {:induction false} SettledForGood(s: State, steps: seq<Step>, i: nat)
    requires Runnable(s, steps) && i < |s.rows| && !Open(s.rows[i])
    ensures i < |Exec(s, steps).rows| && Exec(s, steps).rows[i] == s.rows[i]
    decreases |steps|
  {
    if steps != [] {
      StepMovesRows(s, steps[0]);
      assert RowStep(s.rows[i], Next(s, steps[0]).rows[i]);
      SettledForGood(Next(s, steps[0]), steps[1..], i);
    }
  }

  lemma {:induction false} ExecSplit(s: State, steps: seq<Step>, n: nat)
    requires Runnable(s, steps) && n <= |steps|
    ensures Runnable(s, steps[..n]) && Runnable(Exec(s, steps[..n]), steps[n..])
    ensures Exec(Exec(s, steps[..n]), steps[n..]) == Exec(s, steps)
    decreases |steps|
  {
    if n == 0 {
      assert steps[..0] == [] && steps[0..] == steps;
    } else {
      ExecSplit(Next(s, steps[0]), steps[1..], n - 1);
      assert steps[..n][1..] == steps[1..][..n - 1] && steps[1..][n - 1..] == steps[n..];
    }
  }

  /**
   Over every interleaving, each command is handed to its agent at most once, and a command
   that is cancelled at some point has not been handed over by the end either.
   */
  lemma DeliveredAtMostOnce(steps: seq<Step>, n: nat, i: nat)
    requires Runnable(EMPTY, steps) && n <= |steps|
    ensures Runnable(EMPTY, steps[..n])
    ensures NoRepeat(Exec(EMPTY, steps).delivered)
    ensures var mid := Exec(EMPTY, steps[..n]);
            i < |mid.rows| && mid.rows[i].status == Cancelled ==> !Delivered(Exec(EMPTY, steps), mid.rows[i].id)
  {
    RunKeepsInvariants(EMPTY, steps);
    ExecSplit(EMPTY, steps, n);
    var mid := Exec(EMPTY, steps[..n]);
    if i < |mid.rows| && mid.rows[i].status == Cancelled {
      SettledForGood(mid, steps[n..], i);
    }
  }

  /** A device that a run's receipt shows as cancelled was never handed any of that run's commands. */
  lemma CancelledDeviceGotNothing(steps: seq<Step>, run: string, i: nat, j: nat)
    requires Runnable(EMPTY, steps)
    requires var end := Exec(EMPTY, steps);
             && run in end.runs && i < |end.runs[run].results|
             && end.runs[run].results[i].outcome == CancelledBeforePickup
             && j < |end.runs[run].results[i].commandIds|
    ensures var end := Exec(EMPTY, steps);
            var id := end.runs[run].results[i].commandIds[j];
            IsCancelledRow(end.rows, id) && !Delivered(end, id)
  {
    RunKeepsInvariants(EMPTY, steps);
    var end := Exec(EMPTY, steps);
    assert HonestReceipt(end.rows, end.runs[run]);
    var id := end.runs[run].results[i].commandIds[j];
    assert IsCancelledRow(end.rows, id);
    var k :| 0 <= k < |end.rows| && end.rows[k].id == id && end.rows[k].status == Cancelled;
  }

  /** The receipt lists the command for some device. */
  ghost predicate Listed(results: seq<DeviceResult>, id: string) {
    exists i, j :: 0 <= i < |results| && 0 <= j < |results[i].commandIds| && results[i].commandIds[j] == id
  }

  ghost predicate PendingRow(rows: seq<Command>, id: string) {
    exists i :: 0 <= i < |rows| && rows[i].id == id && rows[i].status == Pending
  }

  /** What a cancel makes of the commands: those listed and still pending are cancelled. */
  ghost predicate TakenBack(before: seq<Command>, after: seq<Command>, results: seq<DeviceResult>) {
    && |after| == |before|
    && forall i :: 0 <= i < |before| ==>
         after[i] == if before[i].status == Pending && Listed(results, before[i].id)
                     then before[i].(status := Cancelled) else before[i]
  }

  /** What it makes of a receipt: a device none of whose commands was collected is shown as cancelled. */
  ghost predicate ShownCancelled(before: seq<DeviceResult>, after: seq<DeviceResult>, rows: seq<Command>) {
    && |after| == |before|
    && forall i :: 0 <= i < |before| ==>
         && after[i].deviceId == before[i].deviceId && after[i].commandIds == before[i].commandIds
         && after[i].outcome
            == if && before[i].outcome == Queued && |before[i].commandIds| > 0
                  && forall j :: 0 <= j < |before[i].commandIds| ==> PendingRow(rows, before[i].commandIds[j])
               then CancelledBeforePickup else before[i].outcome
  }

  ghost predicate SomethingToTake(rows: seq<Command>, results: seq<DeviceResult>) {
    exists i :: 0 <= i < |rows| && rows[i].status == Pending && Listed(results, rows[i].id)
  }

  /** What it makes of the run: closed if it is still active and was waiting, or something was taken back. */
  ghost predicate ClosedAsRead(before: map<string, Run>, after: map<string, Run>, run: string, read: Run,
                               rows: seq<Command>) {
    && after.Keys == before.Keys && run in before
    && (forall r :: r in before && r != run ==> after[r] == before[r])
    && if && (before[run].status == PendingApproval || before[run].status == RunQueued)
          && (read.status == PendingApproval || SomethingToTake(rows, read.results))
       then after[run].status == RunCancelled && ShownCancelled(read.results, after[run].results, rows)
       else after[run] == before[run]
  }

  lemma ListedIds(results: seq<DeviceResult>, id: string)
    ensures id in CommandIds(results) <==> Listed(results, id)
  {
  }

  lemma CancelTakesBack(rows: seq<Command>, results: seq<DeviceResult>)
    ensures TakenBack(rows, CancelPending(rows, CommandIds(results)), results)
    ensures forall id :: id in CancelledIds(rows, CommandIds(results)) <==> Listed(results, id) && PendingRow(rows, id)
    ensures CancelledIds(rows, CommandIds(results)) != {} <==> SomethingToTake(rows, results)
  {
    var ids := CommandIds(results);
    hide CommandIds, Listed;
    forall id ensures id in ids <==> Listed(results, id) {
      ListedIds(results, id);
    }
    if SomethingToTake(rows, results) {
      var i :| 0 <= i < |rows| && rows[i].status == Pending && Listed(results, rows[i].id);
      assert rows[i].id in CancelledIds(rows, ids);
    }
    if id :| id in CancelledIds(rows, ids) {
      assert PendingRow(rows, id);
    }
  }

  lemma CancelShows(results: seq<DeviceResult>, rows: seq<Command>)
    ensures ShownCancelled(results, ApplyCancelled(results, CancelledIds(rows, CommandIds(results))), rows)
  {
    CancelTakesBack(rows, results);
    var taken := CancelledIds(rows, CommandIds(results));
    hide CommandIds, CancelledIds, TakenBack, PendingRow, SomethingToTake;
    forall i | 0 <= i < |results|
      ensures AllIn(results[i].commandIds, taken)
              <==> forall j :: 0 <= j < |results[i].commandIds| ==> PendingRow(rows, results[i].commandIds[j])
    {
      forall j | 0 <= j < |results[i].commandIds| ensures Listed(results, results[i].commandIds[j]) {
      }
    }
  }

  /** A cancel, on the run as it was read, does exactly that. */
  lemma CancelDoes(rows: seq<Command>, runs: map<string, Run>, run: string, read: Run)
    requires run in runs
    ensures TakenBack(rows, CancelPending(rows, CommandIds(read.results)), read.results)
    ensures ClosedAsRead(runs, CancelWriteRuns(runs, run, read, CancelledIds(rows, CommandIds(read.results))),
                         run, read, rows)
  {
    CancelTakesBack(rows, read.results);
    CancelShows(read.results, rows);
    hide CommandIds, CancelledIds, ApplyCancelled, ShownCancelled, SomethingToTake, TakenBack;
  }

  /** A cancel from its read to its last statement. */
  function WholeCancel(s: State, task: int, run: string): State
    requires task !in s.cancelling && run in s.runs
  {
    Next(Next(Next(s, CancelRead(task, run)), CancelCommands(task)), CancelClose(task))
  }

  /**
   A cancel closes a queued run exactly when it finds one of its commands still pending. So one
   that dies after taking the commands back leaves the run queued, and no later cancel closes it.
   */
  lemma QueuedRunClosesIff(s: State, task: int, run: string)
    requires task !in s.cancelling && run in s.runs && s.runs[run].status == RunQueued
    ensures WholeCancel(s, task, run).runs[run].status == RunCancelled
            <==> exists i :: && 0 <= i < |s.rows| && s.rows[i].id in CommandIds(s.runs[run].results)
                             && s.rows[i].status == Pending
  {
    var ids := CommandIds(s.runs[run].results);
    hide CommandIds;
    if i :| 0 <= i < |s.rows| && s.rows[i].id in ids && s.rows[i].status == Pending {
      assert s.rows[i].id in CancelledIds(s.rows, ids);
    } else {
      assert CancelledIds(s.rows, ids) == {};
    }
  }

  lemma InterruptedCancelIsNotRepaired(s: State, dead: int, task: int, run: string)
    requires dead != task && dead !in s.cancelling && task !in s.cancelling
    requires run in s.runs && s.runs[run].status == RunQueued
    ensures var half := Next(Next(s, CancelRead(dead, run)), CancelCommands(dead));
            half.runs == s.runs && WholeCancel(half, task, run).runs[run].status == RunQueued
  {
    var half := Next(Next(s, CancelRead(dead, run)), CancelCommands(dead));
    hide CommandIds;
    QueuedRunClosesIff(half, task, run);
    assert CancelledIds(half.rows, CommandIds(s.runs[run].results)) == {};
  }

  /** The step belongs to the cancel that died, or stores a new receipt for the run. */
  predicate Revives(step: Step, dead: int, run: string) {
    (step.CancelClose? && step.task == dead) || (step.StoreRun? && step.run == run)
  }

  predicate NeverRevived(steps: seq<Step>, dead: int, run: string) {
    forall k :: 0 <= k < |steps| ==> !Revives(steps[k], dead, run)
  }

  /** A cancel of the run, if this is one, has read it as it is and taken nothing back. */
  predicate EmptyHanded(c: Cancelling, run: string, queued: Run) {
    c.run == run ==> c.read == queued && (c.taken.Some? ==> c.taken.value == {})
  }

  ghost predicate OthersEmptyHanded(s: State, dead: int, run: string, queued: Run) {
    forall t :: t in s.cancelling && t != dead ==> EmptyHanded(s.cancelling[t], run, queued)
  }

  /** Every command of the receipt has its row. */
  ghost predicate HasRows(rows: seq<Command>, queued: Run) {
    forall id :: id in CommandIds(queued.results) ==> IdTaken(rows, id)
  }

  predicate NonePending(rows: seq<Command>, ids: set<string>) {
    forall i :: 0 <= i < |rows| && rows[i].id in ids ==> rows[i].status != Pending
  }

  /** The run is queued and nothing of it is left to take back. */
  ghost predicate Stuck(s: State, dead: int, run: string, queued: Run) {
    && run in s.runs && s.runs[run] == queued && queued.status == RunQueued
    && dead in s.cancelling && OthersEmptyHanded(s, dead, run, queued)
    && HasRows(s.rows, queued) && NonePending(s.rows, CommandIds(queued.results))
  }

  lemma NothingToTake(rows: seq<Command>, ids: set<string>)
    requires NonePending(rows, ids)
    ensures CancelledIds(rows, ids) == {}
  {
  }

  lemma RowsStayTaken(s: State, step: Step, queued: Run)
    requires Enabled(s, step) && HasRows(s.rows, queued)
    ensures HasRows(Next(s, step).rows, queued)
  {
    StepMovesRows(s, step);
    var after := Next(s, step).rows;
    hide Next, CommandIds;
    forall id | id in CommandIds(queued.results) ensures IdTaken(after, id) {
      var i :| 0 <= i < |s.rows| && s.rows[i].id == id;
      assert RowStep(s.rows[i], after[i]);
    }
  }

  lemma StillNonePending(s: State, step: Step, queued: Run)
    requires Enabled(s, step) && HasRows(s.rows, queued) && NonePending(s.rows, CommandIds(queued.results))
    ensures NonePending(Next(s, step).rows, CommandIds(queued.results))
  {
    StepMovesRows(s, step);
    NewRowIsNew(s, step);
    var after := Next(s, step).rows;
    hide Next, CommandIds;
    forall i | 0 <= i < |after| && after[i].id in CommandIds(queued.results) ensures after[i].status != Pending {
      if i < |s.rows| {
        assert RowStep(s.rows[i], after[i]);
      }
    }
  }

  lemma NewRowIsNew(s: State, step: Step)
    requires Enabled(s, step)
    ensures forall i :: |s.rows| <= i < |Next(s, step).rows| ==> !IdTaken(s.rows, Next(s, step).rows[i].id)
  {
  }

  lemma StepKeepsStuck(s: State, step: Step, dead: int, run: string, queued: Run)
    requires Enabled(s, step) && Stuck(s, dead, run, queued) && !Revives(step, dead, run)
    ensures Stuck(Next(s, step), dead, run, queued)
  {
    RowsStayTaken(s, step, queued);
    StillNonePending(s, step, queued);
    NothingToTake(s.rows, CommandIds(queued.results));
    hide HasRows, NonePending, CommandIds, CancelledIds, CancelPending, AfterCheckIn, Payload, IdTaken, HasOpenOfKind;
    if step.CancelClose? {
      assert EmptyHanded(s.cancelling[step.task], run, queued);
    }
  }

  lemma {:induction false} StuckForGood(s: State, steps: seq<Step>, dead: int, run: string, queued: Run)
    requires Runnable(s, steps) && Stuck(s, dead, run, queued) && NeverRevived(steps, dead, run)
    ensures Stuck(Exec(s, steps), dead, run, queued)
    decreases |steps|
  {
    if steps != [] {
      StepKeepsStuck(s, steps[0], dead, run, queued);
      hide Next, Stuck, Revives;
      StuckForGood(Next(s, steps[0]), steps[1..], dead, run, queued);
    }
  }

  /**
   Nor does any later one, however long things go on: a run whose cancel died after taking its
   commands back stays as it was until a new receipt is stored for it.
   */
  lemma NoLaterCancelCloses(s: State, dead: int, run: string, steps: seq<Step>)
    requires dead !in s.cancelling && run in s.runs && s.runs[run].status == RunQueued
    requires OthersEmptyHanded(s, dead, run, s.runs[run]) && HasRows(s.rows, s.runs[run])
    requires var half := Next(Next(s, CancelRead(dead, run)), CancelCommands(dead));
             Runnable(half, steps) && NeverRevived(steps, dead, run)
    ensures var end := Exec(Next(Next(s, CancelRead(dead, run)), CancelCommands(dead)), steps);
            run in end.runs && end.runs[run] == s.runs[run]
  {
    var read := Next(s, CancelRead(dead, run));
    var half := Next(read, CancelCommands(dead));
    hide CommandIds;
    RowsStayTaken(read, CancelCommands(dead), s.runs[run]);
    assert Stuck(half, dead, run, s.runs[run]);
    StuckForGood(half, steps, dead, run, s.runs[run]);
  }

  // ----- what each step does, field by field -----

  /**
   What stands in the way of an enqueue: the device's own command of the kind, waiting or sent;
   for a restart of a named service only one of that service.
   */
  ghost predicate InTheWay(rows: seq<Command>, device: string, kind: Kind, service: Option<string>) {
    exists i :: 0 <= i < |rows| && rows[i].deviceId == device && rows[i].kind == kind
                && (rows[i].status == Pending || rows[i].status == Sent)
                && (kind != RestartService || service == None || service == Some("") || rows[i].serviceName == service)
  }

  lemma InTheWayIff(rows: seq<Command>, device: string, kind: Kind, service: Option<string>)
    ensures HasOpenOfKind(rows, device, kind, service) <==> InTheWay(rows, device, kind, service)
  {
    if i :| && 0 <= i < |rows| && rows[i].deviceId == device && rows[i].kind == kind
            && (rows[i].status == Pending || rows[i].status == Sent)
            && (kind != RestartService || service == None || service == Some("") || rows[i].serviceName == service) {
      assert Blocks(rows[i], kind, service);
    }
  }

  /** The statuses an agent may report. */
  lemma OutcomeIff(status: Status)
    ensures Outcome(status) <==> status == Succeeded || status == Failed || status == Refused
    ensures !Outcome(status) <==> status == Pending || status == Sent || status == Cancelled
  {
  }

  /** An enqueue waits when nothing is in its way, and then inserts what it read, whatever has come since. */
  lemma EnqueueDoes(s: State, t: int, device: string, kind: Kind, service: Option<string>, id: string)
    requires t !in s.waiting
    ensures Next(s, EnqueueRead(t, device, kind, service))
            == if InTheWay(s.rows, device, kind, service) then s
               else s.(waiting := s.waiting[t := Waiting(device, kind, service)])
    ensures forall u, w :: u in s.waiting && s.waiting[u] == w && Enabled(s, EnqueueInsert(u, id)) ==>
              Next(s, EnqueueInsert(u, id))
              == s.(rows := s.rows + [Command(id, w.deviceId, w.kind, w.serviceName, Pending)],
                    waiting := s.waiting - {u})
  {
    InTheWayIff(s.rows, device, kind, service);
    hide HasOpenOfKind, InTheWay;
  }

  /** A check-in records its reports and logs what it hands over. */
  lemma CheckInDoes(s: State, device: string, results: seq<Ack>, encodes: Command -> bool)
    requires Reports(results)
    ensures var after := Next(s, CheckIn(device, results, encodes));
            && |after.rows| == |s.rows|
            && (forall i :: 0 <= i < |s.rows| ==> Recorded(s.rows[i], after.rows[i], device, results, encodes))
            && after.delivered == s.delivered + Payload(s.rows, device, results, encodes)
            && after.waiting == s.waiting && after.runs == s.runs && after.cancelling == s.cancelling
  {
    CheckInRecords(s.rows, device, results, encodes);
    hide Recorded, AfterCheckIn, Payload;
  }

  /** A stored receipt is there as given; a cancel remembers the run as read, then takes back, then closes. */
  lemma ReceiptStepsDo(s: State, t: int, run: string, stored: Run)
    ensures FreshReceipt(stored) ==> Next(s, StoreRun(run, stored)) == s.(runs := s.runs[run := stored])
    ensures t !in s.cancelling && run in s.runs ==>
              Next(s, CancelRead(t, run)) == s.(cancelling := s.cancelling[t := Cancelling(run, s.runs[run], None)])
    ensures t in s.cancelling && s.cancelling[t].taken.None? ==>
              var after, c := Next(s, CancelCommands(t)), s.cancelling[t];
              && TakenBack(s.rows, after.rows, c.read.results)
              && after.delivered == s.delivered && after.waiting == s.waiting && after.runs == s.runs
              && after.cancelling.Keys == s.cancelling.Keys && after.cancelling[t].run == c.run
              && after.cancelling[t].read == c.read && after.cancelling[t].taken.Some?
              && (forall id :: id in after.cancelling[t].taken.value <==>
                    Listed(c.read.results, id) && PendingRow(s.rows, id))
              && (forall u :: u in s.cancelling && u != t ==> after.cancelling[u] == s.cancelling[u])
    ensures t in s.cancelling && s.cancelling[t].taken.Some? && s.cancelling[t].run in s.runs ==>
              var after := Next(s, CancelClose(t));
              && after.rows == s.rows && after.delivered == s.delivered && after.waiting == s.waiting
              && after.cancelling == s.cancelling - {t}
  {
    if t in s.cancelling && s.cancelling[t].taken.None? {
      CancelTakesBack(s.rows, s.cancelling[t].read.results);
    }
    hide TakenBack, Listed, PendingRow, CommandIds, CancelPending, CancelledIds;
  }

  // ----- one open command of a kind per device -----

  predicate UniqueOpen(rows: seq<Command>) {
    forall i, j :: 0 <= i < j < |rows| && Open(rows[j]) && rows[i].deviceId == rows[j].deviceId ==>
      !Blocks(rows[i], rows[j].kind, rows[j].serviceName)
  }

  /** So two open commands of one kind on one device can only be restarts of different services. */
  lemma OnlyServicesRepeat(rows: seq<Command>, i: nat, j: nat)
    requires UniqueOpen(rows) && i < j < |rows| && Open(rows[i]) && Open(rows[j])
             && rows[i].deviceId == rows[j].deviceId
    ensures rows[i].kind == rows[j].kind ==>
            rows[i].kind == RestartService && rows[i].serviceName != rows[j].serviceName
  {
  }

  predicate WouldCollide(rows: seq<Command>, w: Waiting) {
    HasOpenOfKind(rows, w.deviceId, w.kind, w.serviceName)
  }

  /** At an insert, the guard read earlier is still true. */
  predicate GuardStillHolds(s: State, step: Step)
    requires Enabled(s, step)
  {
    step.EnqueueInsert? ==> !WouldCollide(s.rows, s.waiting[step.task])
  }

  lemma StepKeepsUniqueIff(s: State, step: Step)
    requires Enabled(s, step) && UniqueOpen(s.rows)
    ensures UniqueOpen(Next(s, step).rows) <==> GuardStillHolds(s, step)
  {
    var next := Next(s, step);
    StepMovesRows(s, step);
    if step.EnqueueInsert? {
      var w := s.waiting[step.task];
      if WouldCollide(s.rows, w) {
        var i :| 0 <= i < |s.rows| && s.rows[i].deviceId == w.deviceId && Blocks(s.rows[i], w.kind, w.serviceName);
        var n := |s.rows|;
        assert next.rows[i] == s.rows[i]
               && next.rows[n] == Command(step.id, w.deviceId, w.kind, w.serviceName, Pending);
        assert Blocks(next.rows[i], next.rows[n].kind, next.rows[n].serviceName);
      }
    } else {
      forall i | 0 <= i < |next.rows|
        ensures Open(next.rows[i]) ==> Open(s.rows[i]) && RowStep(s.rows[i], next.rows[i]) {
        assert RowStep(s.rows[i], next.rows[i]);
      }
    }
  }

  predicate GuardsHold(s: State, steps: seq<Step>)
    requires Runnable(s, steps)
    decreases |steps|
  {
    steps == [] || (GuardStillHolds(s, steps[0]) && GuardsHold(Next(s, steps[0]), steps[1..]))
  }

  predicate AlwaysUnique(s: State, steps: seq<Step>)
    requires Runnable(s, steps)
    decreases |steps|
  {
    UniqueOpen(s.rows) && (steps == [] || AlwaysUnique(Next(s, steps[0]), steps[1..]))
  }

  /**
   A device never has two open commands of one kind, in any state of a run, exactly when every
   insert still finds the guard true that its enqueue had read.
   */
  lemma {:induction false} UniqueOpenIff(s: State, steps: seq<Step>)
    requires Runnable(s, steps) && UniqueOpen(s.rows)
    ensures AlwaysUnique(s, steps) <==> GuardsHold(s, steps)
    decreases |steps|
  {
    if steps != [] {
      StepKeepsUniqueIff(s, steps[0]);
      if GuardStillHolds(s, steps[0]) {
        UniqueOpenIff(Next(s, steps[0]), steps[1..]);
      } else {
        assert !UniqueOpen(Next(s, steps[0]).rows);
      }
    }
  }

  /** Two enqueues that both read before either inserts leave two open restarts on one device. */
  lemma OverlappingEnqueuesCollide()
    ensures var steps := [EnqueueRead(1, "d", Reboot, None), EnqueueRead(2, "d", Reboot, None),
                          EnqueueInsert(1, "a"), EnqueueInsert(2, "b")];
            Runnable(EMPTY, steps) && !UniqueOpen(Exec(EMPTY, steps).rows)
  {
    var steps := [EnqueueRead(1, "d", Reboot, None), EnqueueRead(2, "d", Reboot, None),
                  EnqueueInsert(1, "a"), EnqueueInsert(2, "b")];
    var s1 := Next(EMPTY, steps[0]);
    var s2 := Next(s1, steps[1]);
    var s3 := Next(s2, steps[2]);
    assert s3.rows == [Command("a", "d", Reboot, None, Pending)];
    assert "a" != "b";
    var s4 := Next(s3, steps[3]);
    assert Blocks(s4.rows[0], s4.rows[1].kind, s4.rows[1].serviceName) && !UniqueOpen(s4.rows);
    assert steps[1..][0] == steps[1] && steps[1..][1..] == steps[2..] && steps[2..][1..] == steps[3..]
           && steps[3..][1..] == [];
    assert Exec(s3, steps[3..]) == s4;
    assert Exec(s2, steps[2..]) == s4;
    assert Exec(s1, steps[1..]) == s4;
  }

  /** No two enqueues for one device and kind are between their read and their insert. */
  predicate Serialized(waiting: map<int, Waiting>) {
    forall t, u :: t in waiting && u in waiting && t != u ==>
      waiting[t].deviceId != waiting[u].deviceId || waiting[t].kind != waiting[u].kind
  }

  predicate AlwaysSerialized(s: State, steps: seq<Step>)
    requires Runnable(s, steps)
    decreases |steps|
  {
    Serialized(s.waiting) && (steps == [] || AlwaysSerialized(Next(s, steps[0]), steps[1..]))
  }

  ghost predicate WaitingIsFree(s: State) {
    forall t :: t in s.waiting ==> !WouldCollide(s.rows, s.waiting[t])
  }

  /** Enqueues that take turns per device and kind never break the rule. */
  lemma {:induction false} SerializedEnqueuesAreUnique(s: State, steps: seq<Step>)
    requires Runnable(s, steps) && UniqueOpen(s.rows) && WaitingIsFree(s) && AlwaysSerialized(s, steps)
    ensures AlwaysUnique(s, steps)
    decreases |steps|
  {
    if steps != [] {
      var next := Next(s, steps[0]);
      StepMovesRows(s, steps[0]);
      forall t | t in next.waiting
        ensures !WouldCollide(next.rows, next.waiting[t])
      {
        forall i | 0 <= i < |next.rows| && next.rows[i].deviceId == next.waiting[t].deviceId
          ensures !Blocks(next.rows[i], next.waiting[t].kind, next.waiting[t].serviceName)
        {
          if i < |s.rows| {
            assert RowStep(s.rows[i], next.rows[i]);
          }
        }
      }
      StepKeepsUniqueIff(s, steps[0]);
      SerializedEnqueuesAreUnique(next, steps[1..]);
    }
  }
}
