/**
 The asset-label CSV (packages/shared/src/assets.ts): a fixed six-column file written for label
 printers and read back on import.
 */
module AssetLabels {
  import opened Options
  import opened Text
  import opened Csv

  /** A label; the schema version of every row is the constant 1. */
  datatype Label = Label(tag: string, serial: Option<string>, companyName: Option<string>,
                         qrText: string, siteName: Option<string>)

  datatype RowError = MissingColumn(key: string) | UnsupportedVersion(row: int) | MissingTagOrQr(row: int)

  type Record = map<string, string>

  datatype Table = Table(headers: seq<string>, rows: seq<Record>)

  const COLUMNS: seq<string> := ["schema_version", "tag", "serial", "company_name", "qr_text", "site_name"]
  const REQUIRED: seq<string> := ["schema_version", "tag", "qr_text"]

  function CollapseGaps(s: string, inGap: bool): string {
    if s == "" then ""
    else if IsSpace(s[0]) || s[0] == '-' then (if inGap then "" else "_") + CollapseGaps(s[1..], true)
    else [s[0]] + CollapseGaps(s[1..], false)
  }

  function NormalizeHeader(header: string): string {
    CollapseGaps(Lower(Trim(StripBom(header))), false)
  }

  function NormalizeHeaders(headers: seq<string>): seq<string> {
    seq(|headers|, i requires 0 <= i < |headers| => NormalizeHeader(headers[i]))
  }

  predicate NonEmptyRecord(cells: seq<string>) {
    exists i :: 0 <= i < |cells| && |Trim(cells[i])| > 0
  }

  function NonEmpty(records: seq<seq<string>>): seq<seq<string>> {
    if records == [] then []
    else (if NonEmptyRecord(records[0]) then [records[0]] else []) + NonEmpty(records[1..])
  }

  /** The first `n` headers paired with their trimmed cells; a later header of the same name wins. */
  function ToRecord(headers: seq<string>, values: seq<string>, n: nat): Record
    requires n <= |headers|
  {
    if n == 0 then map[]
    else
      var r := ToRecord(headers, values, n - 1);
      if headers[n - 1] == "" then r
      else r[headers[n - 1] := Trim(if n - 1 < |values| then values[n - 1] else "")]
  }

  /** None is the thrown error for an unfinished quoted field. */
  function ParseCsv(text: string): Option<Table> {
    match Records(text)
    case None => None
    case Some(records) =>
      var nonempty := NonEmpty(records);
      if nonempty == [] then Some(Table([], []))
      else
        var headers := NormalizeHeaders(nonempty[0]);
        Some(Table(headers, seq(|nonempty| - 1, i requires 0 <= i < |nonempty| - 1 =>
                                ToRecord(headers, nonempty[i + 1], |headers|))))
  }

  function Field(r: Record, key: string): Option<string> {
    if key in r then Some(r[key]) else None
  }

  datatype Parsed = Parsed(labels: seq<Label>, errors: seq<RowError>)

  /** One data row, numbered as in the file; `isOne` says which texts `Number` reads as 1. */
  function ParseRow(r: Record, number: int, isOne: string -> bool): Parsed {
    var version := BlankToNull(Field(r, "schema_version"));
    if version.None? || !isOne(version.value) then Parsed([], [UnsupportedVersion(number)])
    else
      var tag, qr := BlankToNull(Field(r, "tag")), BlankToNull(Field(r, "qr_text"));
      if tag.None? || qr.None? then Parsed([], [MissingTagOrQr(number)])
      else
        Parsed([Label(tag.value, BlankToNull(Field(r, "serial")), BlankToNull(Field(r, "company_name")),
                      qr.value, BlankToNull(Field(r, "site_name")))], [])
  }

  function Append(a: Parsed, b: Parsed): Parsed {
    Parsed(a.labels + b.labels, a.errors + b.errors)
  }

  function ParseRows(rows: seq<Record>, isOne: string -> bool): Parsed {
    if rows == [] then Parsed([], [])
    else Append(ParseRows(rows[..|rows| - 1], isOne), ParseRow(rows[|rows| - 1], |rows| + 1, isOne))
  }

  function FirstMissing(headers: seq<string>, required: seq<string>): Option<string> {
    if required == [] then None
    else if required[0] !in headers then Some(required[0])
    else FirstMissing(headers, required[1..])
  }

  function ParseLabels(text: string, isOne: string -> bool): Option<Parsed> {
    match ParseCsv(text)
    case None => None
    case Some(table) =>
      var missing := FirstMissing(NormalizeHeaders(table.headers), REQUIRED);
      if missing.Some? then Some(Parsed([], [MissingColumn(missing.value)]))
      else Some(ParseRows(table.rows, isOne))
  }

  // ----- reading any file -----

  predicate GapChar(c: char) {
    IsSpace(c) || c == '-'
  }

  predicate Gap(s: string) {
    forall i :: 0 <= i < |s| ==> GapChar(s[i])
  }

  predicate GapFree(s: string) {
    forall i :: 0 <= i < |s| ==> !GapChar(s[i])
  }

  lemma {:induction false} GapFreeThen(before: string, after: string, inGap: bool)
    requires GapFree(before) && before != ""
    ensures CollapseGaps(before + after, inGap) == before + CollapseGaps(after, false)
    decreases |before|
  {
    var all := before + after;
    assert all[0] == before[0] && all[1..] == before[1..] + after;
    if |before| == 1 {
      assert before[1..] + after == after && before == [before[0]];
    } else {
      GapFreeThen(before[1..], after, false);
      assert before == [before[0]] + before[1..];
    }
  }

  lemma {:induction false} GapThen(gap: string, after: string, inGap: bool)
    requires Gap(gap) && gap != ""
    ensures CollapseGaps(gap + after, inGap) == (if inGap then "" else "_") + CollapseGaps(after, true)
    decreases |gap|
  {
    var all := gap + after;
    assert all[0] == gap[0] && all[1..] == gap[1..] + after;
    if |gap| == 1 {
      assert gap[1..] + after == after;
    } else {
      GapThen(gap[1..], after, true);
    }
  }

  /** Every run of white space and dashes becomes one underscore, and all else stays. */
  lemma GapsBecomeOne(before: string, gap: string, after: string)
    requires GapFree(before) && Gap(gap) && gap != "" && (after == "" || !GapChar(after[0]))
    ensures CollapseGaps(before + gap + after, false) == before + "_" + CollapseGaps(after, false)
    ensures CollapseGaps(before, false) == before
  {
    NoGaps(before);
    GapThen(gap, after, false);
    EndOfGap(after);
    hide CollapseGaps, Gap, GapFree, GapChar;
    var rest := CollapseGaps(after, false);
    Rejoined(before, gap, after);
    Rejoined(before, "_", rest);
    if before != "" {
      GapFreeThen(before, gap + after, false);
    } else {
      assert before + (gap + after) == gap + after;
      assert before + ("_" + rest) == "_" + rest;
    }
  }

  lemma EndOfGap(after: string)
    requires after == "" || !GapChar(after[0])
    ensures CollapseGaps(after, true) == CollapseGaps(after, false)
  {
  }

  lemma Rejoined(a: string, b: string, c: string)
    ensures a + b + c == a + (b + c)
  {
  }

  /** A header, in ASCII lower case, is taken without a byte-order mark and white space around it. */
  lemma HeaderIs(header: string)
    ensures NormalizeHeader(header)
            == (var plain := if header != "" && header[0] as int == 0xFEFF then header[1..] else header;
                CollapseGaps(Lower(Trim(plain)), false))
  {
  }

  /** A row that has nothing but white space is not counted. */
  lemma NonEmptyIff(records: seq<seq<string>>, row: seq<string>)
    ensures NonEmpty([row] + records)
            == (if exists i :: 0 <= i < |row| && !AllSpace(row[i]) then [row] else []) + NonEmpty(records)
    ensures NonEmpty([]) == []
  {
    assert ([row] + records)[1..] == records;
    forall i | 0 <= i < |row| ensures |Trim(row[i])| > 0 <==> !AllSpace(row[i]) {
      BlankToNullIs(Some(row[i]));
    }
    hide Trim, AllSpace;
    if i :| 0 <= i < |row| && !AllSpace(row[i]) {
      assert |Trim(row[i])| > 0;
    }
  }

  /** The last of the first `n` headers with this name. */
  predicate LastHeader(headers: seq<string>, n: nat, name: string, i: nat) {
    i < n <= |headers| && headers[i] == name && forall j :: i < j < n ==> headers[j] != name
  }

  /** A record has a field for each named column: its trimmed cell, or an empty text in a short row. */
  lemma {:induction false} RecordIs(headers: seq<string>, values: seq<string>, n: nat, name: string)
    requires n <= |headers|
    ensures name in ToRecord(headers, values, n) <==> name != "" && exists i :: 0 <= i < n && headers[i] == name
    ensures forall i: nat :: name != "" && LastHeader(headers, n, name, i) ==>
              name in ToRecord(headers, values, n)
              && ToRecord(headers, values, n)[name] == Trim(if i < |values| then values[i] else "")
  {
    hide Trim;
    if n > 0 {
      RecordIs(headers, values, n - 1, name);
      if headers[n - 1] != name {
        forall i: nat | LastHeader(headers, n, name, i) ensures LastHeader(headers, n - 1, name, i) {
        }
      }
    }
  }

  /** The field is there and not blank. */
  predicate Filled(r: Record, key: string) {
    key in r && !AllSpace(r[key])
  }

  function OrAbsent(r: Record, key: string): Option<string> {
    if Filled(r, key) then Some(Trim(r[key])) else None
  }

  lemma FieldFilled(r: Record, key: string)
    ensures BlankToNull(Field(r, key)) == OrAbsent(r, key)
  {
    BlankToNullIs(Field(r, key));
    hide Trim, AllSpace, BlankToNull;
  }

  /** One data row: refused for its version first, then for a blank tag or QR text, else a label of trimmed fields. */
  lemma ParseRowIs(r: Record, number: int, isOne: string -> bool)
    ensures ParseRow(r, number, isOne)
            == if !Filled(r, "schema_version") || !isOne(Trim(r["schema_version"])) then
                 Parsed([], [UnsupportedVersion(number)])
               else if !Filled(r, "tag") || !Filled(r, "qr_text") then Parsed([], [MissingTagOrQr(number)])
               else
                 Parsed([Label(Trim(r["tag"]), OrAbsent(r, "serial"), OrAbsent(r, "company_name"), Trim(r["qr_text"]),
                               OrAbsent(r, "site_name"))], [])
  {
    FieldFilled(r, "schema_version");
    FieldFilled(r, "tag");
    FieldFilled(r, "qr_text");
    FieldFilled(r, "serial");
    FieldFilled(r, "company_name");
    FieldFilled(r, "site_name");
    hide Trim, AllSpace, BlankToNull, Field;
  }

  /** The rows are taken in order; the first is line two of the file. */
  lemma RowsInOrder(rows: seq<Record>, r: Record, isOne: string -> bool)
    ensures ParseRows([], isOne) == Parsed([], [])
    ensures var before, last := ParseRows(rows, isOne), ParseRow(r, |rows| + 2, isOne);
            ParseRows(rows + [r], isOne) == Parsed(before.labels + last.labels, before.errors + last.errors)
  {
    hide ParseRow;
    assert (rows + [r])[..|rows|] == rows;
  }

  /**
   A whole file: an unfinished quoted field is an error; so is the first of the three required
   columns that is missing, and then no row is read; else all rows are.
   */
  lemma FileIs(text: string, isOne: string -> bool)
    ensures ParseLabels(text, isOne) == None <==> Quotes(StripBom(text)) % 2 == 1
    ensures ParseCsv(text).Some? ==>
              var table := ParseCsv(text).value;
              var headers := NormalizeHeaders(table.headers);
              ParseLabels(text, isOne)
              == Some(if "schema_version" !in headers then Parsed([], [MissingColumn("schema_version")])
                      else if "tag" !in headers then Parsed([], [MissingColumn("tag")])
                      else if "qr_text" !in headers then Parsed([], [MissingColumn("qr_text")])
                      else ParseRows(table.rows, isOne))
  {
    UnfinishedIff(text);
    assert ParseCsv(text) == None <==> Records(text) == None;
    hide ParseCsv, ParseRows, NormalizeHeaders, Records;
    if ParseCsv(text).Some? {
      FirstMissingIs(NormalizeHeaders(ParseCsv(text).value.headers));
    }
  }

  lemma FirstMissingIs(headers: seq<string>)
    ensures FirstMissing(headers, REQUIRED)
            == if "schema_version" !in headers then Some("schema_version")
               else if "tag" !in headers then Some("tag")
               else if "qr_text" !in headers then Some("qr_text") else None
  {
    assert REQUIRED == ["schema_version"] + ["tag", "qr_text"] && REQUIRED[1..] == ["tag"] + ["qr_text"];
    assert REQUIRED[1..][1..] == ["qr_text"] && ["qr_text"][1..] == [];
    assert FirstMissing(headers, []) == None;
    assert FirstMissing(headers, ["qr_text"]) == if "qr_text" !in headers then Some("qr_text") else None;
  }

  /** The table: headers from the first row that is not blank, and a record for each such row after it. */
  lemma TableIs(text: string)
    ensures ParseCsv(text) == None <==> Records(text) == None
    ensures Records(text).Some? ==>
              var rows, table := NonEmpty(Records(text).value), ParseCsv(text).value;
              if rows == [] then table == Table([], [])
              else
                && |table.headers| == |rows[0]| && |table.rows| == |rows| - 1
                && (forall i :: 0 <= i < |rows[0]| ==> table.headers[i] == NormalizeHeader(rows[0][i]))
                && (forall i :: 0 <= i < |table.rows| ==>
                      table.rows[i] == ToRecord(table.headers, rows[i + 1], |table.headers|))
  {
    hide Records, NonEmpty, ToRecord, NormalizeHeader;
  }

  function OrEmpty(s: Option<string>): string {
    if s.None? then "" else s.value
  }

  function Cells(l: Label): seq<string> {
    ["1", l.tag, OrEmpty(l.serial), OrEmpty(l.companyName), l.qrText, OrEmpty(l.siteName)]
  }

  function Matrix(labels: seq<Label>): seq<seq<string>> {
    [COLUMNS] + seq(|labels|, i requires 0 <= i < |labels| => Cells(labels[i]))
  }

  function FormatLabels(labels: seq<Label>): string {
    Join(PrintRows(Matrix(labels)), "\r\n") + "\r\n"
  }

  /** Lower-case letters and underscores only: a name header normalisation leaves alone. */
  predicate PlainName(h: string) {
    h != "" && forall i :: 0 <= i < |h| ==> 'a' <= h[i] <= 'z' || h[i] == '_'
  }

  lemma PlainHeader(h: string)
    requires PlainName(h)
    ensures NormalizeHeader(h) == h
  {
    assert Trimmed(h) && StripBom(h) == h;
    TrimIsTrimmed(h);
    assert Lower(h) == h;
    NoGaps(h);
  }

  lemma ColumnNames()
    ensures |COLUMNS| == 6 && forall i :: 0 <= i < 6 ==> PlainName(COLUMNS[i])
  {
    assert PlainName("schema_version");
    assert PlainName("tag");
    assert PlainName("serial");
    assert PlainName("company_name");
    assert PlainName("qr_text");
    assert PlainName("site_name");
  }

  lemma {:induction false} NoGaps(s: string)
    requires forall i :: 0 <= i < |s| ==> !IsSpace(s[i]) && s[i] != '-'
    ensures CollapseGaps(s, false) == s
    decreases |s|
  {
    if s != "" {
      NoGaps(s[1..]);
      assert [s[0]] + s[1..] == s;
    }
  }

  lemma HeadersAreStable()
    ensures NormalizeHeaders(COLUMNS) == COLUMNS
  {
    hide PlainName, NormalizeHeader;
    ColumnNames();
    forall i | 0 <= i < |COLUMNS| ensures NormalizeHeader(COLUMNS[i]) == COLUMNS[i] {
      PlainHeader(COLUMNS[i]);
    }
  }

  lemma RequiredPresent()
    ensures FirstMissing(COLUMNS, REQUIRED) == None
  {
    assert COLUMNS[0] == REQUIRED[0] && COLUMNS[1] == REQUIRED[1] && COLUMNS[4] == REQUIRED[2];
    assert FirstMissing(COLUMNS, REQUIRED[3..]) == None;
    assert REQUIRED[2..][1..] == REQUIRED[3..] && REQUIRED[1..][1..] == REQUIRED[2..];
  }

  lemma {:induction false} NothingEmpty(records: seq<seq<string>>)
    requires forall i :: 0 <= i < |records| ==> NonEmptyRecord(records[i])
    ensures NonEmpty(records) == records
    decreases |records|
  {
    if records != [] {
      NothingEmpty(records[1..]);
    }
  }

  lemma LabelRowNotEmpty(l: Label)
    ensures NonEmptyRecord(Cells(l)) && NonEmptyRecord(COLUMNS)
  {
    TrimIsTrimmed("1");
    TrimIsTrimmed("tag");
    assert Cells(l)[0] == "1" && COLUMNS[1] == "tag";
  }

  lemma OneColumn(headers: seq<string>, v: seq<string>, n: nat)
    requires n < |headers| && n < |v| && headers[n] != ""
    ensures ToRecord(headers, v, n + 1) == ToRecord(headers, v, n)[headers[n] := Trim(v[n])]
  {
  }

  /** The fields of a record read under the six columns. */
  lemma {:induction false} RecordOfCells(v: seq<string>, r: Record)
    requires |v| == 6 && r == ToRecord(COLUMNS, v, 6)
    ensures Field(r, "schema_version") == Some(Trim(v[0])) && Field(r, "tag") == Some(Trim(v[1]))
    ensures Field(r, "serial") == Some(Trim(v[2])) && Field(r, "company_name") == Some(Trim(v[3]))
    ensures Field(r, "qr_text") == Some(Trim(v[4])) && Field(r, "site_name") == Some(Trim(v[5]))
  {
    ColumnNames();
    hide ToRecord, Trim;
    OneColumn(COLUMNS, v, 0);
    OneColumn(COLUMNS, v, 1);
    OneColumn(COLUMNS, v, 2);
    OneColumn(COLUMNS, v, 3);
    OneColumn(COLUMNS, v, 4);
    OneColumn(COLUMNS, v, 5);
  }

  /** The label a row comes back as: every field trimmed, blanks absent; None when tag or QR text is blank. */
  function Cleaned(l: Label): Option<Label> {
    if Trim(l.tag) == "" || Trim(l.qrText) == "" then None
    else Some(Label(Trim(l.tag), BlankToNull(l.serial), BlankToNull(l.companyName), Trim(l.qrText),
         BlankToNull(l.siteName)))
  }

  function CleanedAll(labels: seq<Label>): Parsed {
    if labels == [] then Parsed([], [])
    else
      var last := Cleaned(labels[|labels| - 1]);
      Append(CleanedAll(labels[..|labels| - 1]),
             if last.Some? then Parsed([last.value], []) else Parsed([], [MissingTagOrQr(|labels| + 1)]))
  }

  lemma TrimTwice(s: string)
    ensures Trim(Trim(s)) == Trim(s) && Trim("") == ""
  {
    TrimIsTrimmed(s);
    TrimIsTrimmed(Trim(s));
  }

  lemma BlankTrimmed(s: string)
    ensures BlankToNull(Some(Trim(s))) == if Trim(s) == "" then None else Some(Trim(s))
  {
    TrimTwice(s);
  }

  lemma BlankOfTrimmed(s: Option<string>)
    ensures BlankToNull(Some(Trim(OrEmpty(s)))) == BlankToNull(s)
  {
    TrimTwice(OrEmpty(s));
  }

  lemma ParsedRow(l: Label, number: int, isOne: string -> bool)
    requires isOne("1")
    ensures ParseRow(ToRecord(COLUMNS, Cells(l), 6), number, isOne)
         == if Cleaned(l).Some? then Parsed([Cleaned(l).value], []) else Parsed([], [MissingTagOrQr(number)])
  {
    TrimIsTrimmed("1");
    hide ToRecord, Trim, Field, BlankToNull;
    BlankTrimmed("1");
    RecordOfCells(Cells(l), ToRecord(COLUMNS, Cells(l), 6));
    BlankTrimmed(l.tag);
    BlankTrimmed(l.qrText);
    BlankOfTrimmed(l.serial);
    BlankOfTrimmed(l.companyName);
    BlankOfTrimmed(l.siteName);
  }

  function RecordsOf(labels: seq<Label>): seq<Record> {
    seq(|labels|, i requires 0 <= i < |labels| => ToRecord(COLUMNS, Cells(labels[i]), 6))
  }

  lemma {:induction false} ParsedRows(labels: seq<Label>, isOne: string -> bool)
    requires isOne("1")
    ensures ParseRows(RecordsOf(labels), isOne) == CleanedAll(labels)
    decreases |labels|
  {
    if labels != [] {
      var n := |labels| - 1;
      assert RecordsOf(labels)[..n] == RecordsOf(labels[..n]);
      ParsedRows(labels[..n], isOne);
      ParsedRow(labels[n], |labels| + 1, isOne);
    }
  }

  /** The table read back from a written file: the six columns and one record a label. */
  lemma WrittenTable(labels: seq<Label>)
    ensures ParseCsv(FormatLabels(labels)) == Some(Table(COLUMNS, RecordsOf(labels)))
  {
    MatrixReadBack(labels);
    HeadersAreStable();
    var m := Matrix(labels);
    hide Records, FormatLabels, NormalizeHeaders, ToRecord, NonEmpty;
    assert m[0] == COLUMNS && |m| == |labels| + 1;
    assert ParseCsv(FormatLabels(labels)).value.rows == RecordsOf(labels) by {
      ColumnNames();
    }
  }

  lemma MatrixReadBack(labels: seq<Label>)
    ensures Records(FormatLabels(labels)) == Some(Matrix(labels))
    ensures NonEmpty(Matrix(labels)) == Matrix(labels)
  {
    hide Records, Print, PrintRows, NonEmpty, NonEmptyRecord;
    var m := Matrix(labels);
    JoinedLines(m);
    forall i | 0 <= i < |m| ensures m[i] != [] && NonEmptyRecord(m[i]) {
      LabelRowNotEmpty(if i > 0 then labels[i - 1] else Label("", None, None, "", None));
    }
    assert !StartsWithBom(m) by {
      assert m[0] == COLUMNS && COLUMNS[0][0] == 's';
    }
    RoundTripIff(m);
    NothingEmpty(m);
  }

  /**
   Every list of labels comes back from its own file in order, trimmed, with an error on the
   right line for each label whose tag or QR text is blank.
   */
  lemma WriteThenRead(labels: seq<Label>, isOne: string -> bool)
    requires isOne("1")
    ensures ParseLabels(FormatLabels(labels), isOne) == Some(CleanedAll(labels))
  {
    hide ParseCsv, FormatLabels, NormalizeHeaders, FirstMissing;
    WrittenTable(labels);
    HeadersAreStable();
    RequiredPresent();
    ParsedRows(labels, isOne);
  }

  /** All fields trimmed, and none present but blank. */
  predicate Tidy(l: Label) {
    && l.tag != "" && Trimmed(l.tag) && l.qrText != "" && Trimmed(l.qrText)
    && TidyOptional(l.serial) && TidyOptional(l.companyName) && TidyOptional(l.siteName)
  }

  predicate TidyOptional(s: Option<string>) {
    s.Some? ==> s.value != "" && Trimmed(s.value)
  }

  lemma TidyIsFixed(l: Label)
    ensures Tidy(l) <==> Cleaned(l) == Some(l)
  {
    TrimIsTrimmed(l.tag);
    TrimIsTrimmed(l.qrText);
    OptionalIsFixed(l.serial);
    OptionalIsFixed(l.companyName);
    OptionalIsFixed(l.siteName);
  }

  lemma OptionalIsFixed(s: Option<string>)
    ensures TidyOptional(s) <==> BlankToNull(s) == s
  {
    if s.Some? {
      TrimIsTrimmed(s.value);
    }
  }

  lemma {:induction false} CleanedLengths(labels: seq<Label>)
    ensures |CleanedAll(labels).labels| + |CleanedAll(labels).errors| == |labels|
    decreases |labels|
  {
    if labels != [] {
      CleanedLengths(labels[..|labels| - 1]);
    }
  }

  predicate AllTidy(labels: seq<Label>) {
    forall i :: 0 <= i < |labels| ==> Tidy(labels[i])
  }

  lemma AllTidyLast(labels: seq<Label>)
    requires labels != []
    ensures AllTidy(labels) <==> AllTidy(labels[..|labels| - 1]) && Tidy(labels[|labels| - 1])
  {
    hide Tidy;
    var init := labels[..|labels| - 1];
    assert forall i :: 0 <= i < |init| ==> init[i] == labels[i];
  }

  lemma CleanedLast(labels: seq<Label>)
    requires labels != []
    ensures CleanedAll(labels) == Parsed(labels, [])
            <==> CleanedAll(labels[..|labels| - 1]) == Parsed(labels[..|labels| - 1], [])
                 && Cleaned(labels[|labels| - 1]) == Some(labels[|labels| - 1])
  {
    var n := |labels| - 1;
    CleanedLengths(labels[..n]);
    hide Cleaned, Append;
    LastOfTwo(CleanedAll(labels[..n]), Cleaned(labels[n]), labels, |labels| + 1);
  }

  lemma {:induction false} CleanedAllFixed(labels: seq<Label>)
    ensures CleanedAll(labels) == Parsed(labels, []) <==> AllTidy(labels)
    decreases |labels|
  {
    if labels != [] {
      hide CleanedAll, Cleaned, Tidy, AllTidy;
      CleanedAllFixed(labels[..|labels| - 1]);
      CleanedLast(labels);
      AllTidyLast(labels);
      TidyIsFixed(labels[|labels| - 1]);
    }
  }

  lemma LastOfTwo(before: Parsed, last: Option<Label>, labels: seq<Label>, number: int)
    requires labels != [] && |before.labels| + |before.errors| == |labels| - 1
    ensures var n := |labels| - 1;
            Append(before, if last.Some? then Parsed([last.value], []) else Parsed([], [MissingTagOrQr(number)]))
              == Parsed(labels, [])
            <==> before == Parsed(labels[..n], []) && last == Some(labels[n])
  {
    var n := |labels| - 1;
    assert labels == labels[..n] + [labels[n]];
    if last.Some? && before.labels + [last.value] == labels {
      assert before.labels == (before.labels + [last.value])[..|before.labels|];
    }
  }

  /** A file reads back as exactly the labels written, without errors, when and only when all are tidy. */
  lemma LabelsSurviveIff(labels: seq<Label>, isOne: string -> bool)
    requires isOne("1")
    ensures ParseLabels(FormatLabels(labels), isOne) == Some(Parsed(labels, []))
            <==> forall i :: 0 <= i < |labels| ==> Tidy(labels[i])
  {
    hide CleanedAll, Tidy, ParseLabels, FormatLabels;
    WriteThenRead(labels, isOne);
    CleanedAllFixed(labels);
  }
}
