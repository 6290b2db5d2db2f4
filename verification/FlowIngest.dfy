/**
 The ingest job itself (apps/worker/src/flows.ts): turning lines into rows in batches, noting
 dropped attempts to reach the hub, and saving the cursor last.
 */
module FlowIngest {
  import opened Options
  import opened FlowLog
  import Text

  /** What a parsed line says; `hubDrop` when it was a dropped connection to the hub itself. */
  datatype Record = Record(srcIp: string, hubDrop: bool, target: string)

  datatype Subject = Device(deviceId: string) | Admin(profileId: string)

  datatype EventRow = EventRow(record: Record, subject: Option<Subject>)

  datatype Probe = Probe(deviceId: string, targets: set<string>)

  type Parser = string -> Option<Record>

  const INSERT_BATCH_SIZE: nat := 500

  function SubjectOf(subjects: map<string, Subject>, ip: string): Option<Subject> {
    if ip in subjects then Some(subjects[ip]) else None
  }

  function RowsOf(lines: seq<string>, parse: Parser, subjects: map<string, Subject>): seq<EventRow> {
    if lines == [] then []
    else
      var rows, record := RowsOf(lines[..|lines| - 1], parse, subjects), parse(lines[|lines| - 1]);
      if record.None? then rows else rows + [EventRow(record.value, SubjectOf(subjects, record.value.srcIp))]
  }

  function CountSkipped(lines: seq<string>, parse: Parser): nat {
    if lines == [] then 0
    else
      var last := lines[|lines| - 1];
      CountSkipped(lines[..|lines| - 1], parse) + if parse(last).None? && Text.Trim(last) != "" then 1 else 0
  }

  function CountBlank(lines: seq<string>, parse: Parser): nat {
    if lines == [] then 0
    else
      var last := lines[|lines| - 1];
      CountBlank(lines[..|lines| - 1], parse) + if parse(last).None? && Text.Trim(last) == "" then 1 else 0
  }

  /** A dropped attempt of a known device to reach the hub. */
  predicate Probes(row: EventRow, deviceId: string) {
    row.record.hubDrop && row.subject == Some(Device(deviceId))
  }

  /** Adding a target to a device's entry, which is made on first use. */
  function NoteProbe(probes: seq<Probe>, deviceId: string, target: string): seq<Probe> {
    if probes == [] then [Probe(deviceId, {target})]
    else if probes[0].deviceId == deviceId then [probes[0].(targets := probes[0].targets + {target})] + probes[1..]
    else [probes[0]] + NoteProbe(probes[1..], deviceId, target)
  }

  function NoteRow(probes: seq<Probe>, row: EventRow): seq<Probe> {
    if row.record.hubDrop && row.subject.Some? && row.subject.value.Device?
    then NoteProbe(probes, row.subject.value.deviceId, row.record.target)
    else probes
  }

  function ProbesOf(rows: seq<EventRow>): seq<Probe> {
    if rows == [] then [] else NoteRow(ProbesOf(rows[..|rows| - 1]), rows[|rows| - 1])
  }

  predicate Reported(probes: seq<Probe>, deviceId: string, target: string) {
    exists i :: 0 <= i < |probes| && probes[i].deviceId == deviceId && target in probes[i].targets
  }

  predicate OneEach(probes: seq<Probe>) {
    forall i, j :: 0 <= i < j < |probes| ==> probes[i].deviceId != probes[j].deviceId
  }

  predicate Mentions(probes: seq<Probe>, deviceId: string) {
    exists i :: 0 <= i < |probes| && probes[i].deviceId == deviceId
  }

  lemma ReportedCons(first: Probe, rest: seq<Probe>, d: string, t: string)
    ensures Reported([first] + rest, d, t) <==> (first.deviceId == d && t in first.targets) || Reported(rest, d, t)
    ensures Mentions([first] + rest, d) <==> first.deviceId == d || Mentions(rest, d)
  {
    var all := [first] + rest;
    if first.deviceId == d {
      assert all[0].deviceId == d;
    }
    if i :| 0 <= i < |rest| && rest[i].deviceId == d {
      assert all[i + 1].deviceId == d;
    }
    if i :| 0 <= i < |rest| && rest[i].deviceId == d && t in rest[i].targets {
      assert all[i + 1].deviceId == d && t in all[i + 1].targets;
    }
    if i :| 0 <= i < |all| && all[i].deviceId == d && t in all[i].targets {
      assert i > 0 ==> rest[i - 1] == all[i];
    }
    if i :| 0 <= i < |all| && all[i].deviceId == d {
      assert i > 0 ==> rest[i - 1] == all[i];
    }
  }

  lemma OneEachCons(first: Probe, rest: seq<Probe>)
    ensures OneEach([first] + rest) <==> OneEach(rest) && !Mentions(rest, first.deviceId)
  {
    var all := [first] + rest;
    if OneEach(all) {
      forall i, j | 0 <= i < j < |rest| ensures rest[i].deviceId != rest[j].deviceId {
        assert all[i + 1] == rest[i] && all[j + 1] == rest[j];
      }
      forall i | 0 <= i < |rest| ensures rest[i].deviceId != first.deviceId {
        assert all[i + 1] == rest[i] && all[0] == first;
      }
    }
  }

  lemma {:induction false} NoteProbeReports(probes: seq<Probe>, deviceId: string, target: string, d: string, t: string)
    requires OneEach(probes)
    ensures var after := NoteProbe(probes, deviceId, target);
            && (Reported(after, d, t) <==> Reported(probes, d, t) || (d == deviceId && t == target))
            && (Mentions(after, d) <==> Mentions(probes, d) || d == deviceId)
            && OneEach(after)
    decreases |probes|
  {
    hide Reported, Mentions, OneEach;
    if probes == [] {
      var only := Probe(deviceId, {target});
      ReportedCons(only, [], d, t);
      OneEachCons(only, []);
      NothingReported(d, t);
      NothingReported(deviceId, t);
      assert [only] + [] == [only];
    } else {
      var first, rest := probes[0], probes[1..];
      assert probes == [first] + rest;
      ReportedCons(first, rest, d, t);
      OneEachCons(first, rest);
      if first.deviceId == deviceId {
        var more := first.(targets := first.targets + {target});
        ReportedCons(more, rest, d, t);
        OneEachCons(more, rest);
      } else {
        NoteProbeReports(rest, deviceId, target, d, t);
        NoteProbeReports(rest, deviceId, target, first.deviceId, t);
        ReportedCons(first, NoteProbe(rest, deviceId, target), d, t);
        OneEachCons(first, NoteProbe(rest, deviceId, target));
      }
    }
  }

  lemma NothingReported(d: string, t: string)
    ensures !Reported([], d, t) && !Mentions([], d) && OneEach([])
  {
  }

  predicate Seen(rows: seq<EventRow>, d: string, t: string) {
    exists i :: 0 <= i < |rows| && Probes(rows[i], d) && rows[i].record.target == t
  }

  /** Each device is reported at most once, with exactly the targets its dropped attempts aimed at. */
  lemma {:induction false} ProbesReported(rows: seq<EventRow>, d: string, t: string)
    ensures OneEach(ProbesOf(rows)) && (Reported(ProbesOf(rows), d, t) <==> Seen(rows, d, t))
    decreases |rows|
  {
    if rows == [] {
      NothingReported(d, t);
    } else {
      var init, last := rows[..|rows| - 1], rows[|rows| - 1];
      ProbesReported(init, d, t);
      SeenLast(rows, d, t);
      hide Reported, OneEach, Seen;
      if last.record.hubDrop && last.subject.Some? && last.subject.value.Device? {
        NoteProbeReports(ProbesOf(init), last.subject.value.deviceId, last.record.target, d, t);
      }
    }
  }

  lemma SeenLast(rows: seq<EventRow>, d: string, t: string)
    requires rows != []
    ensures var last := rows[|rows| - 1];
            Seen(rows, d, t) <==> Seen(rows[..|rows| - 1], d, t) || (Probes(last, d) && last.record.target == t)
  {
    hide Probes;
    var init := rows[..|rows| - 1];
    if i :| 0 <= i < |init| && Probes(init[i], d) && init[i].record.target == t {
      assert Probes(rows[i], d);
    }
    if i :| 0 <= i < |rows| && Probes(rows[i], d) && rows[i].record.target == t {
      if i < |init| {
        assert Probes(init[i], d);
      }
    }
  }

  /** Every line is stored, counted as skipped, or blank. */
  lemma {:induction false} LinesAccountedFor(lines: seq<string>, parse: Parser, subjects: map<string, Subject>)
    ensures |RowsOf(lines, parse, subjects)| + CountSkipped(lines, parse) + CountBlank(lines, parse) == |lines|
    decreases |lines|
  {
    if lines != [] {
      LinesAccountedFor(lines[..|lines| - 1], parse, subjects);
    }
  }

  /** How many of the lines are parsed. */
  function Parsed(lines: seq<string>, parse: Parser): nat {
    if lines == [] then 0
    else Parsed(lines[..|lines| - 1], parse) + if parse(lines[|lines| - 1]) != None then 1 else 0
  }

  /**
   The row of a line: in line order, with the record read from it and whoever had its source
   address, if anyone is known to.
   */
  lemma {:induction false} RowOfLine(lines: seq<string>, parse: Parser, subjects: map<string, Subject>, i: nat)
    requires i < |lines| && parse(lines[i]) != None
    ensures |RowsOf(lines, parse, subjects)| == Parsed(lines, parse)
    ensures var rows, k := RowsOf(lines, parse, subjects), Parsed(lines[..i], parse);
            && k < |rows| && rows[k].record == parse(lines[i]).value
            && (rows[k].record.srcIp in subjects ==> rows[k].subject == Some(subjects[rows[k].record.srcIp]))
            && (rows[k].record.srcIp !in subjects ==> rows[k].subject == None)
    decreases |lines|
  {
    var init := lines[..|lines| - 1];
    RowsParsed(init, parse, subjects);
    if i < |init| {
      RowOfLine(init, parse, subjects, i);
      assert lines[..i] == init[..i];
    }
  }

  lemma {:induction false} RowsParsed(lines: seq<string>, parse: Parser, subjects: map<string, Subject>)
    ensures |RowsOf(lines, parse, subjects)| == Parsed(lines, parse)
    decreases |lines|
  {
    if lines != [] {
      RowsParsed(lines[..|lines| - 1], parse, subjects);
    }
  }

  /** A line counts as skipped exactly when it is not parsed and has something other than white space. */
  lemma SkippedIs(lines: seq<string>, last: string, parse: Parser)
    ensures CountSkipped([], parse) == 0
    ensures CountSkipped(lines + [last], parse)
            == CountSkipped(lines, parse) + if parse(last) == None && !Text.AllSpace(last) then 1 else 0
  {
    var before, after := Text.TrimIs(last);
    if Text.Trim(last) != "" {
      assert last[|before|] == Text.Trim(last)[0];
    }
    hide Text.Trim;
    assert (lines + [last])[..|lines|] == lines;
  }

  function DeviceIds(probes: seq<Probe>): seq<string> {
    seq(|probes|, i requires 0 <= i < |probes| => probes[i].deviceId)
  }

  lemma {:induction false} NoteProbeOrder(probes: seq<Probe>, deviceId: string, target: string)
    ensures DeviceIds(NoteProbe(probes, deviceId, target))
            == DeviceIds(probes) + if Mentions(probes, deviceId) then [] else [deviceId]
    decreases |probes|
  {
    if probes != [] {
      var rest := probes[1..];
      NoteProbeOrder(rest, deviceId, target);
      assert probes == [probes[0]] + rest;
      ReportedCons(probes[0], rest, deviceId, target);
      hide Mentions;
      assert DeviceIds(probes) == [probes[0].deviceId] + DeviceIds(rest);
      if probes[0].deviceId != deviceId {
        assert DeviceIds([probes[0]] + NoteProbe(rest, deviceId, target))
               == [probes[0].deviceId] + DeviceIds(NoteProbe(rest, deviceId, target));
      } else {
        assert DeviceIds(NoteProbe(probes, deviceId, target)) == DeviceIds(probes);
      }
    } else {
      assert DeviceIds(NoteProbe([], deviceId, target)) == [deviceId];
    }
  }

  /** Devices are reported in the order of their first dropped attempt. */
  lemma ReportsInOrder(rows: seq<EventRow>, row: EventRow)
    ensures ProbesOf([]) == []
    ensures var before, after := DeviceIds(ProbesOf(rows)), DeviceIds(ProbesOf(rows + [row]));
            after == if && row.record.hubDrop && row.subject.Some? && row.subject.value.Device?
                        && forall t :: !Reported(ProbesOf(rows), row.subject.value.deviceId, t)
                     then before + [row.subject.value.deviceId] else before
  {
    assert (rows + [row])[..|rows|] == rows;
    TargetsNotEmpty(rows);
    if row.record.hubDrop && row.subject.Some? && row.subject.value.Device? {
      var d := row.subject.value.deviceId;
      NoteProbeOrder(ProbesOf(rows), d, row.record.target);
      if Mentions(ProbesOf(rows), d) {
        var i :| 0 <= i < |ProbesOf(rows)| && ProbesOf(rows)[i].deviceId == d;
        var t :| t in ProbesOf(rows)[i].targets;
        assert Reported(ProbesOf(rows), d, t);
      }
      assert DeviceIds(ProbesOf(rows)) + [] == DeviceIds(ProbesOf(rows));
    }
  }

  lemma {:induction false} TargetsNotEmpty(rows: seq<EventRow>)
    ensures forall i :: 0 <= i < |ProbesOf(rows)| ==> ProbesOf(rows)[i].targets != {}
    decreases |rows|
  {
    if rows != [] {
      var last := rows[|rows| - 1];
      TargetsNotEmpty(rows[..|rows| - 1]);
      if last.record.hubDrop && last.subject.Some? && last.subject.value.Device? {
        NotedNotEmpty(ProbesOf(rows[..|rows| - 1]), last.subject.value.deviceId, last.record.target);
      }
    }
  }

  lemma {:induction false} NotedNotEmpty(probes: seq<Probe>, deviceId: string, target: string)
    requires forall i :: 0 <= i < |probes| ==> probes[i].targets != {}
    ensures forall i :: 0 <= i < |NoteProbe(probes, deviceId, target)| ==>
              NoteProbe(probes, deviceId, target)[i].targets != {}
    decreases |probes|
  {
    if probes != [] {
      NotedNotEmpty(probes[1..], deviceId, target);
    }
  }

  /** Cutting the rows short is the same as having read only the first so many lines. */
  lemma {:induction false} RowsOfSomeLines(lines: seq<string>, parse: Parser, subjects: map<string, Subject>, k: nat)
    returns (m: nat)
    requires k <= |RowsOf(lines, parse, subjects)|
    ensures m <= |lines| && RowsOf(lines[..m], parse, subjects) == RowsOf(lines, parse, subjects)[..k]
    decreases |lines|
  {
    if k == |RowsOf(lines, parse, subjects)| {
      m := |lines|;
      assert lines[..m] == lines;
    } else {
      var n := |lines| - 1;
      m := RowsOfSomeLines(lines[..n], parse, subjects, k);
      assert lines[..n][..m] == lines[..m];
    }
  }

  function Inserted(rows: seq<EventRow>, batches: nat): seq<EventRow> {
    rows[..Min(batches * INSERT_BATCH_SIZE, |rows|)]
  }

  /** So many batches are five hundred rows each, or all there are. */
  lemma InsertedIs(rows: seq<EventRow>, batches: nat)
    ensures Inserted(rows, batches) == if 500 * batches <= |rows| then rows[..500 * batches] else rows
  {
  }

  /** Where a run is cut short: after so many batches of rows, or with all rows in, after so many alerts. */
  datatype Death = AfterBatches(n: nat) | AfterAlerts(n: nat)

  class FlowWorker {
    var cursor: Option<Cursor>
    var events: seq<EventRow>
    var alerts: seq<Probe>

    constructor ()
      ensures cursor == None && events == [] && alerts == []
    {
      cursor, events, alerts := None, [], [];
    }

    /** The loop over the lines of one chunk. */
    method Collect(lines: seq<string>, parse: Parser, subjects: map<string, Subject>)
      returns (rows: seq<EventRow>, probes: seq<Probe>, skipped: nat)
      ensures rows == RowsOf(lines, parse, subjects) && probes == ProbesOf(rows)
              && skipped == CountSkipped(lines, parse)
    {
      rows, probes, skipped := [], [], 0;
      for i := 0 to |lines|
        invariant rows == RowsOf(lines[..i], parse, subjects)
        invariant probes == ProbesOf(rows) && skipped == CountSkipped(lines[..i], parse)
      {
        assert lines[..i + 1][..i] == lines[..i];
        var record := parse(lines[i]);
        if record.None? {
          if Text.Trim(lines[i]) != "" {
            skipped := skipped + 1;
          }
          continue;
        }
        var subject := SubjectOf(subjects, record.value.srcIp);
        var row := EventRow(record.value, subject);
        assert (rows + [row])[..|rows|] == rows;
        rows := rows + [row];
        if record.value.hubDrop && subject.Some? && subject.value.Device? {
          probes := NoteProbe(probes, subject.value.deviceId, record.value.target);
        }
      }
      assert lines[..|lines|] == lines;
    }

    /** The insert loop, cut short after so many batches. */
    method InsertRows(rows: seq<EventRow>, batchLimit: Option<nat>)
      modifies this`events
      ensures events == old(events) + if batchLimit.Some? then Inserted(rows, batchLimit.value) else rows
    {
      var index, batches := 0, 0;
      while index < |rows|
        invariant index == batches * INSERT_BATCH_SIZE
        invariant events == old(events) + Inserted(rows, batches)
        invariant batchLimit.Some? ==> batches <= batchLimit.value
        decreases |rows| - index
      {
        if batchLimit == Some(batches) {
          return;
        }
        var end := Min(index + INSERT_BATCH_SIZE, |rows|);
        assert Inserted(rows, batches) + rows[index..end] == Inserted(rows, batches + 1);
        events := events + rows[index..end];
        index, batches := index + INSERT_BATCH_SIZE, batches + 1;
      }
      assert Inserted(rows, batches) == rows;
      assert batchLimit.Some? ==> Inserted(rows, batchLimit.value) == rows;
    }

    /** The loop raising one alert for each probing device, cut short after so many. */
    method RaiseProbes(probes: seq<Probe>, limit: Option<nat>)
      modifies this`alerts
      ensures alerts == old(alerts) + if limit.Some? then probes[..Min(limit.value, |probes|)] else probes
    {
      for i := 0 to |probes|
        invariant alerts == old(alerts) + probes[..i]
        invariant limit.Some? ==> i <= limit.value
      {
        if limit == Some(i) {
          return;
        }
        assert probes[..i + 1] == probes[..i] + [probes[i]];
        alerts := alerts + [probes[i]];
      }
      assert probes[..|probes|] == probes;
    }

    /**
     One run over the log as it is now, if there is one. The cursor is saved last: a run that
     `dies` before may have stored batches of rows, and raised alerts once all rows are in, but
     its lines will be read again.
     */
    method IngestFlows(file: Option<(int, string)>, parse: Parser, subjects: map<string, Subject>, dies: Option<Death>)
      returns (lines: nat, inserted: nat, skipped: nat)
      modifies this
      ensures file.None? ==> cursor == old(cursor) && events == old(events) && alerts == old(alerts)
      ensures file.Some? ==>
                var (inode, log) := file.value;
                var read := PassLines(old(cursor), inode, log);
                var rows := RowsOf(read, parse, subjects);
                var probes := ProbesOf(rows);
                && (dies.None? || read == [] ==>
                     && cursor == PassCursor(old(cursor), inode, log)
                     && events == old(events) + rows && alerts == old(alerts) + probes
                     && lines == |read| && inserted == |rows| && skipped == CountSkipped(read, parse))
                && (dies.Some? && read != [] ==>
                     && cursor == old(cursor)
                     && match dies.value
                        case AfterBatches(n) => events == old(events) + Inserted(rows, n) && alerts == old(alerts)
                        case AfterAlerts(n) =>
                           events == old(events) + rows && alerts == old(alerts) + probes[..Min(n, |probes|)])
    {
      lines, inserted, skipped := 0, 0, 0;
      if file.None? {
        return;
      }
      var (inode, log) := file.value;
      var chunk := ReadNewBytes(cursor, inode, log);
      var (read, rest) := SplitCompleteLines(chunk.text);
      assert read == PassLines(cursor, inode, log);
      if |read| == 0 {
        if chunk.bytesRead > 0 || cursor.None? || cursor.value.inode != inode {
          cursor := Some(Cursor(inode, chunk.offset + chunk.bytesRead, rest));
        }
        return;
      }
      hide ReadNewBytes, SplitCompleteLines, RowsOf, ProbesOf, CountSkipped, PassLines, Inserted;
      var rows, probes;
      rows, probes, skipped := Collect(read, parse, subjects);
      if dies.Some? && dies.value.AfterBatches? {
        InsertRows(rows, Some(dies.value.n));
        return;
      }
      InsertRows(rows, None);
      if dies.Some? {
        RaiseProbes(probes, Some(dies.value.n));
        return;
      }
      RaiseProbes(probes, None);
      cursor := Some(Cursor(inode, chunk.offset + chunk.bytesRead, rest));
      lines, inserted := |read|, |rows|;
    }
  }
}
