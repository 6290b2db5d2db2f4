/**
 The stored command and run rows and the calls that work through them: an agent's check-in
 (apps/web/lib/agent-fleet.ts), the guarded enqueue (packages/api-contract/src/playbook-engine.ts),
 and queueing and cancelling an after-hours run (packages/api-contract/src/after-hours-engine.ts).
 Each call is one transaction here; DeviceCommands.State interleaves their statements.
 */
module CommandTables {
  import opened Options
  import opened DeviceCommands

  // ----- what the selects return -----

  /** The open rows of one device, in table order. */
  function OpenRows(rows: seq<Command>, device: string): seq<Command> {
    if rows == [] then []
    else
      OpenRows(rows[..|rows| - 1], device)
      + if rows[|rows| - 1].deviceId == device && Open(rows[|rows| - 1]) then [rows[|rows| - 1]] else []
  }

  lemma {:induction false} OpenRowsMember(rows: seq<Command>, device: string, c: Command)
    ensures c in OpenRows(rows, device) <==> c in rows && c.deviceId == device && Open(c)
    decreases |rows|
  {
    if rows != [] {
      var init := rows[..|rows| - 1];
      OpenRowsMember(init, device, c);
      assert rows == init + [rows[|rows| - 1]];
    }
  }

  /** Ids handed over, read off the selected rows. */
  function HandedIds(open: seq<Command>, device: string, results: seq<Ack>, encodes: Command -> bool): seq<string> {
    if open == [] then []
    else
      HandedIds(open[..|open| - 1], device, results, encodes)
      + if HandedOver(open[|open| - 1], device, results, encodes) then [open[|open| - 1].id] else []
  }

  lemma {:induction false} PayloadFromOpenRows(
      rows: seq<Command>, device: string, results: seq<Ack>, encodes: Command -> bool)
    ensures HandedIds(OpenRows(rows, device), device, results, encodes) == Payload(rows, device, results, encodes)
    decreases |rows|
  {
    if rows != [] {
      var init, last := rows[..|rows| - 1], rows[|rows| - 1];
      PayloadFromOpenRows(init, device, results, encodes);
      var before, after := OpenRows(init, device), OpenRows(rows, device);
      if last.deviceId == device && Open(last) {
        assert after[..|after| - 1] == before;
      } else {
        assert after == before;
      }
    }
  }

  /** `set status where id = ...` */
  function WithStatus(rows: seq<Command>, ids: set<string>, status: Status): seq<Command> {
    seq(|rows|, i requires 0 <= i < |rows| => if rows[i].id in ids then rows[i].(status := status) else rows[i])
  }

  predicate InFirst(open: seq<Command>, n: nat, id: string)
    requires n <= |open|
  {
    exists j :: 0 <= j < n && open[j].id == id
  }

  function Longest(rows: seq<Command>): nat {
    if rows == [] then 0
    else
      var rest := Longest(rows[1..]);
      if |rows[0].id| > rest then |rows[0].id| else rest
  }

  /** An id no row has yet, as the database's default would give. */
  function FreshId(rows: seq<Command>): (id: string)
    ensures !IdTaken(rows, id)
  {
    LongestBounds(rows);
    seq(Longest(rows) + 1, _ => 'x')
  }

  lemma {:induction false} LongestBounds(rows: seq<Command>)
    ensures forall i :: 0 <= i < |rows| ==> |rows[i].id| <= Longest(rows)
    decreases |rows|
  {
    if rows != [] {
      LongestBounds(rows[1..]);
      forall i | 0 <= i < |rows| ensures |rows[i].id| <= Longest(rows) {
        if i > 0 {
          assert rows[i] == rows[1..][i - 1];
        }
      }
    }
  }

  // ----- queueing a run -----

  function Enqueue(rows: seq<Command>, device: string, kind: Kind): (seq<Command>, Option<string>) {
    if kind == RestartService || HasOpenOfKind(rows, device, kind, None) then (rows, None)
    else (rows + [Command(FreshId(rows), device, kind, None, Pending)], Some(FreshId(rows)))
  }

  function EnqueueSteps(rows: seq<Command>, device: string, steps: seq<Kind>): (seq<Command>, seq<string>) {
    if steps == [] then (rows, [])
    else
      var (before, ids) := EnqueueSteps(rows, device, steps[..|steps| - 1]);
      var (after, id) := Enqueue(before, device, steps[|steps| - 1]);
      (after, if id.Some? then ids + [id.value] else ids)
  }

  function QueueDevices(rows: seq<Command>, devices: seq<string>, steps: seq<Kind>): (seq<Command>, seq<DeviceResult>) {
    if devices == [] then (rows, [])
    else
      var device := devices[|devices| - 1];
      var (before, results) := QueueDevices(rows, devices[..|devices| - 1], steps);
      var (after, ids) := EnqueueSteps(before, device, steps);
      (after, results + [DeviceResult(device, if ids != [] then Queued else OpenCommand, ids)])
  }

  /** Old rows stay as they are; new ones are waiting. */
  predicate OnlyAdds(before: seq<Command>, after: seq<Command>) {
    && |before| <= |after| && after[..|before|] == before
    && forall i :: |before| <= i < |after| ==> after[i].status == Pending
  }

  predicate Covered(rows: seq<Command>, device: string, steps: seq<Kind>) {
    forall k :: 0 <= k < |steps| ==> HasOpenOfKind(rows, device, steps[k], None)
  }

  predicate WaitingFor(rows: seq<Command>, id: string, device: string) {
    exists i :: 0 <= i < |rows| && rows[i].id == id && rows[i].deviceId == device && rows[i].status == Pending
  }

  predicate AllWaiting(rows: seq<Command>, ids: seq<string>, device: string) {
    forall k :: 0 <= k < |ids| ==> WaitingFor(rows, ids[k], device)
  }

  lemma MoreRows(before: seq<Command>, after: seq<Command>, device: string, kind: Kind)
    requires OnlyAdds(before, after) && HasOpenOfKind(before, device, kind, None)
    ensures HasOpenOfKind(after, device, kind, None)
  {
    var i :| 0 <= i < |before| && before[i].deviceId == device && Blocks(before[i], kind, None);
    assert after[i] == after[..|before|][i];
  }

  lemma StillWaiting(before: seq<Command>, after: seq<Command>, ids: seq<string>, device: string)
    requires OnlyAdds(before, after) && AllWaiting(before, ids, device)
    ensures AllWaiting(after, ids, device)
  {
    forall k | 0 <= k < |ids| ensures WaitingFor(after, ids[k], device) {
      assert WaitingFor(before, ids[k], device);
      var i :| 0 <= i < |before| && before[i].id == ids[k] && before[i].deviceId == device
        && before[i].status == Pending;
      assert after[i] == after[..|before|][i];
    }
  }

  lemma EnqueueAdds(rows: seq<Command>, device: string, kind: Kind)
    ensures var (after, id) := Enqueue(rows, device, kind);
            && OnlyAdds(rows, after)
            && (kind != RestartService ==> HasOpenOfKind(after, device, kind, None))
            && (id.Some? ==> WaitingFor(after, id.value, device))
  {
    var (after, id) := Enqueue(rows, device, kind);
    if id.Some? {
      assert after[|rows|] == Command(id.value, device, kind, None, Pending);
    }
  }

  /** What stands in the way of queueing an action on a device: the same action, waiting or sent. */
  ghost predicate AlreadyOpen(rows: seq<Command>, device: string, kind: Kind) {
    exists i :: 0 <= i < |rows| && rows[i].deviceId == device && rows[i].kind == kind
                && (rows[i].status == Pending || rows[i].status == Sent)
  }

  /** An enqueue adds one row, with a new id and waiting, exactly when nothing stands in its way. */
  lemma EnqueueInserts(rows: seq<Command>, device: string, kind: Kind)
    ensures var (after, id) := Enqueue(rows, device, kind);
            && (id.Some? <==> kind != RestartService && !AlreadyOpen(rows, device, kind))
            && after == (if id.Some? then rows + [Command(id.value, device, kind, None, Pending)] else rows)
            && (id.Some? ==> forall i :: 0 <= i < |rows| ==> rows[i].id != id.value)
  {
    if AlreadyOpen(rows, device, kind) {
      var i :| 0 <= i < |rows| && rows[i].deviceId == device && rows[i].kind == kind
        && (rows[i].status == Pending || rows[i].status == Sent);
      assert kind != RestartService ==> Blocks(rows[i], kind, None);
    }
  }

  function Ids(rows: seq<Command>): seq<string> {
    seq(|rows|, i requires 0 <= i < |rows| => rows[i].id)
  }

  /** All commands a receipt lists, device by device. */
  function AllListed(results: seq<DeviceResult>): seq<string> {
    if results == [] then []
    else AllListed(results[..|results| - 1]) + results[|results| - 1].commandIds
  }

  lemma IdsOfMore(a: seq<Command>, b: seq<Command>, c: seq<Command>)
    requires a <= b <= c
    ensures Ids(c[|a|..]) == Ids(b[|a|..]) + Ids(c[|b|..])
  {
  }

  lemma {:induction false} StepsListed(rows: seq<Command>, device: string, steps: seq<Kind>)
    ensures var (after, ids) := EnqueueSteps(rows, device, steps);
            rows <= after && ids == Ids(after[|rows|..])
    decreases |steps|
  {
    if steps != [] {
      var n := |steps| - 1;
      StepsListed(rows, device, steps[..n]);
      var (before, ids) := EnqueueSteps(rows, device, steps[..n]);
      var (after, id) := Enqueue(before, device, steps[n]);
      EnqueueInserts(before, device, steps[n]);
      hide Enqueue, AlreadyOpen, Ids;
      assert before <= after;
      IdsOfMore(rows, before, after);
      if id.Some? {
        OneId(after[|before|..], id.value);
      } else {
        OneId([], "");
        assert after[|before|..] == [];
      }
    } else {
      assert rows[|rows|..] == [];
    }
  }

  lemma OneId(rows: seq<Command>, id: string)
    ensures |rows| == 1 && rows[0].id == id ==> Ids(rows) == [id]
    ensures rows == [] ==> Ids(rows) == []
  {
  }

  /** A receipt lists every command that queueing inserted, in the order inserted, and no other. */
  lemma {:induction false} ReceiptListsInserted(rows: seq<Command>, devices: seq<string>, steps: seq<Kind>)
    ensures var (after, results) := QueueDevices(rows, devices, steps);
            rows <= after && AllListed(results) == Ids(after[|rows|..])
    decreases |devices|
  {
    if devices != [] {
      var n := |devices| - 1;
      ReceiptListsInserted(rows, devices[..n], steps);
      var (before, results) := QueueDevices(rows, devices[..n], steps);
      StepsListed(before, devices[n], steps);
      var (after, ids) := EnqueueSteps(before, devices[n], steps);
      hide EnqueueSteps, Ids;
      IdsOfMore(rows, before, after);
      var entry := DeviceResult(devices[n], if ids != [] then Queued else OpenCommand, ids);
      assert (results + [entry])[..|results|] == results;
    } else {
      assert rows[|rows|..] == [];
    }
  }

  predicate Tidy(rows: seq<Command>) {
    DistinctIds(rows) && UniqueOpen(rows)
  }

  lemma EnqueueKeepsTidy(rows: seq<Command>, device: string, kind: Kind)
    requires Tidy(rows)
    ensures Tidy(Enqueue(rows, device, kind).0)
  {
  }

  lemma {:induction false} EnqueueStepsKeepTidy(rows: seq<Command>, device: string, steps: seq<Kind>)
    requires Tidy(rows)
    ensures Tidy(EnqueueSteps(rows, device, steps).0)
    decreases |steps|
  {
    if steps != [] {
      EnqueueStepsKeepTidy(rows, device, steps[..|steps| - 1]);
      EnqueueKeepsTidy(EnqueueSteps(rows, device, steps[..|steps| - 1]).0, device, steps[|steps| - 1]);
      hide Tidy, Enqueue;
    }
  }

  /** Queueing opens no second command of a kind where there was none. */
  lemma {:induction false} QueueingKeepsTidy(rows: seq<Command>, devices: seq<string>, steps: seq<Kind>)
    requires Tidy(rows)
    ensures Tidy(QueueDevices(rows, devices, steps).0)
    decreases |devices|
  {
    if devices != [] {
      QueueingKeepsTidy(rows, devices[..|devices| - 1], steps);
      EnqueueStepsKeepTidy(QueueDevices(rows, devices[..|devices| - 1], steps).0, devices[|devices| - 1], steps);
      hide Tidy, EnqueueSteps;
    }
  }

  lemma CoveredMore(before: seq<Command>, after: seq<Command>, device: string, steps: seq<Kind>)
    requires steps != [] && OnlyAdds(before, after) && Covered(before, device, steps[..|steps| - 1])
    requires HasOpenOfKind(after, device, steps[|steps| - 1], None)
    ensures Covered(after, device, steps)
  {
    hide HasOpenOfKind, OnlyAdds;
    forall k | 0 <= k < |steps| ensures HasOpenOfKind(after, device, steps[k], None) {
      if k < |steps| - 1 {
        assert HasOpenOfKind(before, device, steps[..|steps| - 1][k], None);
        MoreRows(before, after, device, steps[k]);
      }
    }
  }

  lemma {:induction false} EnqueueStepsCover(rows: seq<Command>, device: string, steps: seq<Kind>)
    requires Playbook(steps)
    ensures var (after, ids) := EnqueueSteps(rows, device, steps);
            && OnlyAdds(rows, after)
            && Covered(after, device, steps) && AllWaiting(after, ids, device)
    decreases |steps|
  {
    if steps != [] {
      var n := |steps| - 1;
      assert steps[n] != RestartService && Playbook(steps[..n]);
      var (before, ids) := EnqueueSteps(rows, device, steps[..n]);
      hide Enqueue, HasOpenOfKind, WaitingFor, OnlyAdds, Covered, Playbook;
      EnqueueStepsCover(rows, device, steps[..n]);
      EnqueueAdds(before, device, steps[n]);
      var (after, id) := Enqueue(before, device, steps[n]);
      StillWaiting(before, after, ids, device);
      OnlyAddsTwice(rows, before, after);
      CoveredMore(before, after, device, steps);
    } else {
      assert rows[..|rows|] == rows;
    }
  }

  lemma OnlyAddsTwice(a: seq<Command>, b: seq<Command>, c: seq<Command>)
    requires OnlyAdds(a, b) && OnlyAdds(b, c)
    ensures OnlyAdds(a, c)
  {
    assert c[..|a|] == c[..|b|][..|a|];
    forall i | |a| <= i < |c| ensures c[i].status == Pending {
      if i < |b| {
        assert c[i] == c[..|b|][i];
      }
    }
  }

  /** Each device's receipt lists commands now waiting for it, and every step is open on it. */
  ghost predicate Receipted(rows: seq<Command>, devices: seq<string>, results: seq<DeviceResult>, steps: seq<Kind>) {
    && |results| == |devices|
    && forall k :: 0 <= k < |devices| ==>
         && results[k].deviceId == devices[k]
         && results[k].outcome == (if results[k].commandIds != [] then Queued else OpenCommand)
         && AllWaiting(rows, results[k].commandIds, devices[k])
         && Covered(rows, devices[k], steps)
  }

  lemma ReceiptedLater(
      before: seq<Command>, after: seq<Command>, devices: seq<string>, results: seq<DeviceResult>, steps: seq<Kind>)
    requires OnlyAdds(before, after) && Receipted(before, devices, results, steps)
    ensures Receipted(after, devices, results, steps)
  {
    forall k | 0 <= k < |devices|
      ensures AllWaiting(after, results[k].commandIds, devices[k]) && Covered(after, devices[k], steps)
    {
      StillWaiting(before, after, results[k].commandIds, devices[k]);
      forall j | 0 <= j < |steps| ensures HasOpenOfKind(after, devices[k], steps[j], None) {
        MoreRows(before, after, devices[k], steps[j]);
      }
    }
  }

  lemma OneMoreReceipt(rows: seq<Command>, devices: seq<string>, results: seq<DeviceResult>, steps: seq<Kind>,
                       entry: DeviceResult)
    requires devices != [] && Receipted(rows, devices[..|devices| - 1], results, steps)
    requires entry.deviceId == devices[|devices| - 1]
    requires entry.outcome == if entry.commandIds != [] then Queued else OpenCommand
    requires AllWaiting(rows, entry.commandIds, entry.deviceId) && Covered(rows, entry.deviceId, steps)
    ensures Receipted(rows, devices, results + [entry], steps)
  {
    hide AllWaiting, Covered;
    var all, n := results + [entry], |devices| - 1;
    forall k | 0 <= k < |devices|
      ensures && all[k].deviceId == devices[k]
              && all[k].outcome == (if all[k].commandIds != [] then Queued else OpenCommand)
              && AllWaiting(rows, all[k].commandIds, devices[k]) && Covered(rows, devices[k], steps)
    {
      if k < n {
        assert devices[..n][k] == devices[k] && all[k] == results[k];
      }
    }
  }

  /**
   Whatever the table holds, queueing a run leaves every eligible device with each step waiting
   or already open, lists exactly commands that now wait for that device, and touches no existing
   row.
   */
  lemma {:induction false} QueueingCovers(rows: seq<Command>, devices: seq<string>, steps: seq<Kind>)
    requires Playbook(steps)
    ensures var (after, results) := QueueDevices(rows, devices, steps);
            && OnlyAdds(rows, after)
            && Receipted(after, devices, results, steps)
    decreases |devices|
  {
    if devices != [] {
      var n := |devices| - 1;
      QueueingCovers(rows, devices[..n], steps);
      var (before, results) := QueueDevices(rows, devices[..n], steps);
      EnqueueStepsCover(before, devices[n], steps);
      var (after, ids) := EnqueueSteps(before, devices[n], steps);
      OnlyAddsTwice(rows, before, after);
      ReceiptedLater(before, after, devices[..n], results, steps);
      var entry := DeviceResult(devices[n], if ids != [] then Queued else OpenCommand, ids);
      hide EnqueueSteps, AllWaiting, Covered, OnlyAdds, QueueDevices;
      OneMoreReceipt(after, devices, results, steps, entry);
    }
  }

  class Tables {
    var rows: seq<Command>
    var runs: map<string, Run>

    constructor (rows: seq<Command>, runs: map<string, Run>)
      ensures this.rows == rows && this.runs == runs
    {
      this.rows := rows;
      this.runs := runs;
    }

    /** A check-in: settle what the agent reports, then mark sent and return what waits. */
    method SettleDeviceCommands(device: string, results: seq<Ack>, encodes: Command -> bool)
      returns (payload: seq<string>)
      requires DistinctIds(rows) && Reports(results)
      modifies this`rows
      ensures rows == AfterCheckIn(old(rows), device, results, encodes)
      ensures payload == Payload(old(rows), device, results, encodes)
      ensures |rows| == |old(rows)|
      ensures forall i :: 0 <= i < |rows| ==> Recorded(old(rows)[i], rows[i], device, results, encodes)
    {
      ghost var start := rows;
      var openRows := OpenRows(rows, device);
      payload := [];
      hide OpenRows, WithStatus, Acked, Payload, AfterCheckIn, DistinctIds, Recorded;
      assert rows == SettledUpTo(start, openRows, 0, results);
      for i := 0 to |openRows|
        invariant rows == SettledUpTo(start, openRows, i, results)
        invariant payload == HandedIds(openRows[..i], device, results, encodes)
      {
        assert openRows[..i + 1][..i] == openRows[..i];
        var row := openRows[i];
        var acked := Acked(row, results);
        SettleNext(start, device, results, i);
        if acked.status != row.status {
          rows := WithStatus(rows, {row.id}, acked.status);
        }
        if acked.status == Pending && encodes(acked) {
          payload := payload + [row.id];
        }
        OpenRowsMember(start, device, row);
      }
      assert openRows[..|openRows|] == openRows;
      PayloadFromOpenRows(start, device, results, encodes);
      AllSettled(start, device, results, encodes);
      if |payload| > 0 {
        rows := WithStatus(rows, (set id | id in payload), Sent);
      }
      CheckInRecords(start, device, results, encodes);
    }

    /** `enqueueAllowlistedCommand`; None when the same action is already open, or is not one playbooks may use. */
    method EnqueueAllowlistedCommand(device: string, kind: Kind) returns (id: Option<string>)
      modifies this`rows
      ensures (rows, id) == Enqueue(old(rows), device, kind)
    {
      if kind == RestartService {
        return None;
      }
      var open := HasOpenOfKind(OpenRows(rows, device), device, kind, None);
      OpenOfKindSelected(rows, device, kind);
      if open {
        return None;
      }
      var newId := FreshId(rows);
      rows := rows + [Command(newId, device, kind, None, Pending)];
      id := Some(newId);
    }

    /** The step loop for one device; the ids of what was inserted. */
    method EnqueueEach(device: string, steps: seq<Kind>) returns (commandIds: seq<string>)
      modifies this`rows
      ensures (rows, commandIds) == EnqueueSteps(old(rows), device, steps)
    {
      commandIds := [];
      for j := 0 to |steps|
        invariant (rows, commandIds) == EnqueueSteps(old(rows), device, steps[..j])
      {
        assert steps[..j + 1][..j] == steps[..j];
        var id := EnqueueAllowlistedCommand(device, steps[j]);
        if id.Some? {
          commandIds := commandIds + [id.value];
        }
      }
      assert steps[..|steps|] == steps;
    }

    /** Queue every (sanitized) step on every eligible device and store the run's receipt. */
    method QueueAfterHoursRunCommands(run: string, steps: seq<Kind>, eligible: seq<string>, skipped: seq<DeviceResult>)
      returns (queuedDevices: nat)
      requires Playbook(steps)
      modifies this
      ensures var (after, results) := QueueDevices(old(rows), eligible, steps);
              && rows == after && OnlyAdds(old(rows), rows) && (Tidy(old(rows)) ==> Tidy(rows))
              && Receipted(rows, eligible, results, steps)
              && queuedDevices == CountOutcome(results, true)
              && runs == old(runs)[run := Run(if queuedDevices > 0 then RunQueued else Skipped, skipped + results)]
    {
      QueueingCovers(rows, eligible, steps);
      if Tidy(rows) {
        QueueingKeepsTidy(rows, eligible, steps);
      }
      var start := rows;
      hide Tidy, OnlyAdds, Receipted;
      var results: seq<DeviceResult> := [];
      queuedDevices := 0;
      for i := 0 to |eligible|
        invariant (rows, results) == QueueDevices(start, eligible[..i], steps)
        invariant queuedDevices == CountOutcome(results, true) && runs == old(runs)
      {
        assert eligible[..i + 1][..i] == eligible[..i];
        var device := eligible[i];
        var commandIds := EnqueueEach(device, steps);
        if |commandIds| > 0 {
          queuedDevices := queuedDevices + 1;
        }
        var entry := DeviceResult(device, if |commandIds| > 0 then Queued else OpenCommand, commandIds);
        assert (results + [entry])[..|results|] == results;
        results := results + [entry];
      }
      assert eligible[..|eligible|] == eligible;
      runs := runs[run := Run(if queuedDevices > 0 then RunQueued else Skipped, skipped + results)];
    }

    /**
     `cancelAfterHoursRun` on a run as it was read earlier: take back what no agent has
     collected, then close the run if it is still active. Returns how many were taken back, or
     None when nothing was left to cancel.
     */
    method CancelAfterHoursRun(run: string, read: Run) returns (cancelledCommands: Option<nat>)
      requires run in runs
      modifies this
      ensures rows == CancelPending(old(rows), CommandIds(read.results))
      ensures runs == CancelWriteRuns(old(runs), run, read, CancelledIds(old(rows), CommandIds(read.results)))
      ensures var taken := CancelledIds(old(rows), CommandIds(read.results));
              cancelledCommands == if Closes(old(runs), run, read, taken) then Some(|taken|) else None
      ensures TakenBack(old(rows), rows, read.results) && ClosedAsRead(old(runs), runs, run, read, old(rows))
    {
      CancelDoes(rows, runs, run, read);
      hide TakenBack, ClosedAsRead;
      var ids := CommandIds(read.results);
      var cancelledIds := CancelledIds(rows, ids);
      rows := CancelPending(rows, ids);
      if read.status != PendingApproval && |cancelledIds| == 0 {
        return None;
      }
      var results := ApplyCancelled(read.results, cancelledIds);
      if !Active(runs[run].status) {
        return None;
      }
      runs := runs[run := Run(RunCancelled, results)];
      cancelledCommands := Some(|cancelledIds|);
    }
  }

  /** In a table with distinct ids only `row` itself carries its id. */
  lemma SameRow(rows: seq<Command>, row: Command)
    requires DistinctIds(rows) && row in rows
    ensures forall k :: 0 <= k < |rows| && rows[k].id == row.id ==> rows[k] == row
  {
    var i :| 0 <= i < |rows| && rows[i] == row;
    forall k | 0 <= k < |rows| && rows[k].id == row.id ensures rows[k] == row {
      assert k == i;
    }
  }

  /** The table once the first `n` selected rows have been settled. */
  function SettledUpTo(start: seq<Command>, open: seq<Command>, n: nat, results: seq<Ack>): seq<Command>
    requires n <= |open|
  {
    seq(|start|, k requires 0 <= k < |start| =>
      if InFirst(open, n, start[k].id) then Acked(start[k], results) else start[k])
  }

  lemma SettleNext(start: seq<Command>, device: string, results: seq<Ack>, n: nat)
    requires DistinctIds(start) && n < |OpenRows(start, device)|
    ensures var open := OpenRows(start, device);
            var rows, acked := SettledUpTo(start, open, n, results), Acked(open[n], results);
            (if acked.status != open[n].status then WithStatus(rows, {open[n].id}, acked.status) else rows)
              == SettledUpTo(start, open, n + 1, results)
  {
    var open := OpenRows(start, device);
    OpenRowsMember(start, device, open[n]);
    SameRow(start, open[n]);
    var rows, next := SettledUpTo(start, open, n, results), SettledUpTo(start, open, n + 1, results);
    hide OpenRows, DistinctIds, Reported, InFirst;
    forall k | 0 <= k < |start|
      ensures next[k] == if start[k].id == open[n].id then rows[k].(status := Acked(open[n], results).status)
              else rows[k]
    {
      InFirstNext(open, n, start[k].id);
    }
  }

  lemma InFirstNext(open: seq<Command>, n: nat, id: string)
    requires n < |open|
    ensures InFirst(open, n + 1, id) <==> InFirst(open, n, id) || open[n].id == id
  {
  }

  lemma AllSettled(start: seq<Command>, device: string, results: seq<Ack>, encodes: Command -> bool)
    requires DistinctIds(start)
    ensures var open, payload := OpenRows(start, device), Payload(start, device, results, encodes);
            var settled := SettledUpTo(start, open, |open|, results);
            (if |payload| > 0 then WithStatus(settled, (set id | id in payload), Sent) else settled)
              == AfterCheckIn(start, device, results, encodes)
  {
    var open, payload := OpenRows(start, device), Payload(start, device, results, encodes);
    forall k | 0 <= k < |start|
      ensures InFirst(open, |open|, start[k].id) <==> start[k].deviceId == device && Open(start[k])
      ensures start[k].id in payload <==> HandedOver(start[k], device, results, encodes)
    {
      SelectedIff(start, device, k);
      PayloadRow(start, device, results, encodes, k);
    }
    hide OpenRows, Payload, DistinctIds, InFirst, Reported;
  }

  lemma SelectedIff(rows: seq<Command>, device: string, k: nat)
    requires DistinctIds(rows) && k < |rows|
    ensures InFirst(OpenRows(rows, device), |OpenRows(rows, device)|, rows[k].id)
            <==> rows[k].deviceId == device && Open(rows[k])
  {
    var open := OpenRows(rows, device);
    OpenRowsMember(rows, device, rows[k]);
    if j :| 0 <= j < |open| && open[j].id == rows[k].id {
      OpenRowsMember(rows, device, open[j]);
      SameRow(rows, open[j]);
    }
    if rows[k] in open {
      var j :| 0 <= j < |open| && open[j] == rows[k];
      assert open[j].id == rows[k].id;
    }
  }

  lemma OpenOfKindSelected(rows: seq<Command>, device: string, kind: Kind)
    ensures HasOpenOfKind(OpenRows(rows, device), device, kind, None) <==> HasOpenOfKind(rows, device, kind, None)
  {
    var open := OpenRows(rows, device);
    if i :| 0 <= i < |rows| && rows[i].deviceId == device && rows[i].kind == kind && Open(rows[i]) {
      OpenRowsMember(rows, device, rows[i]);
      var j :| 0 <= j < |open| && open[j] == rows[i];
      assert open[j].kind == kind;
    }
    if j :| 0 <= j < |open| && open[j].deviceId == device && open[j].kind == kind && Open(open[j]) {
      OpenRowsMember(rows, device, open[j]);
    }
  }
}
