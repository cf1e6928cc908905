/** Batch processing (services/inventoryService.js): every row of a feed is
    normalised and mapped to a record; accepted records are kept in order,
    a rejected record that has at least one field leaves a diagnostic with
    its 1-based row number, and the batch fails only when nothing was
    accepted and some diagnostic exists. */
module Batch {
  import opened Common
  import opened Rows
  import opened Normalize
  import opened FieldMapping
  import opened JsonFeed

  datatype Diagnostic = Diagnostic(row: nat, message: string)

  const MissingFields: string := "Missing stockId or carat after mapping."
  const CsvFailurePrefix: string := "Processing failed for all rows. Sample error: "
  const JsonFailurePrefix: string := "Processing failed for all JSON rows. Sample error: "
  const StreamFailurePrefix: string := "CSV stream failed: "
  const NoArrayMessage: string := "Could not find an array of diamonds in the API response."

  /** A batch either yields its accepted records or fails with a message. */
  datatype Outcome = Accepted(records: seq<Record>) | Failed(message: string)

  /** What the CSV reader hands over: the header line and the value lines
      (empty lines already skipped), or the error the stream raised. */
  datatype CsvInput = CsvTable(headers: seq<string>, lines: seq<seq<string>>) | CsvStreamError(message: string)

  /** What one row gives: the record the mapping builds, or the message of
      the error thrown while building it, which the loop catches. */
  datatype RowOutcome = Mapped(rec: Record) | Threw(message: string)

  /** A row whose record has a stock id and a carat. */
  predicate Kept(row: RowOutcome) {
    row.Mapped? && Accepts(row.rec)
  }

  /** A row that leaves a diagnostic: a thrown error, or a rejected record
      with at least one field. */
  predicate Reported(row: RowOutcome) {
    row.Threw? || (!Accepts(row.rec) && |row.rec| > 0)
  }

  /** The message of a row's diagnostic. */
  function RowMessage(row: RowOutcome): string {
    if row.Threw? then row.message else MissingFields
  }

  /** The results and diagnostics after the given rows. */
  function Collect(rows: seq<RowOutcome>): (r: (seq<Record>, seq<Diagnostic>))
    ensures |r.0| <= |rows| && |r.1| <= |rows|
  {
    if rows == [] then ([], [])
    else
      var (results, errors) := Collect(rows[..|rows| - 1]);
      var row := rows[|rows| - 1];
      if Kept(row) then (results + [row.rec], errors)
      else if Reported(row) then (results, errors + [Diagnostic(|rows|, RowMessage(row))])
      else (results, errors)
  }

  /** The verdict at the end of a batch. */
  function Verdict(results: seq<Record>, errors: seq<Diagnostic>, prefix: string): Outcome {
    if |results| == 0 && |errors| > 0 then Failed(prefix + errors[0].message)
    else Accepted(results)
  }

  /** Reference definition: the records of the kept rows, in order. */
  function AcceptedOf(rows: seq<RowOutcome>): seq<Record> {
    if rows == [] then []
    else (if Kept(rows[0]) then [rows[0].rec] else []) + AcceptedOf(rows[1..])
  }

  /** One more row at the end keeps the earlier records, then its own if
      it is kept. */
  lemma {:induction false} AcceptedOfSnoc(rows: seq<RowOutcome>, row: RowOutcome)
    ensures AcceptedOf(rows + [row]) == AcceptedOf(rows) + (if Kept(row) then [row.rec] else [])
  {
    var t := rows + [row];
    var last := if Kept(row) then [row.rec] else [];
    if rows == [] {
      assert t == [row] && t[1..] == [];
    } else {
      var head := if Kept(rows[0]) then [rows[0].rec] else [];
      assert t[0] == rows[0] && t[1..] == rows[1..] + [row];
      AcceptedOfSnoc(rows[1..], row);
      calc {
        AcceptedOf(t);
        head + AcceptedOf(rows[1..] + [row]);
        head + (AcceptedOf(rows[1..]) + last);
        (head + AcceptedOf(rows[1..])) + last;
        AcceptedOf(rows) + last;
      }
    }
  }

  /** Accepted records keep their input order: the results are exactly the
      records of the kept rows. */
  lemma {:induction false} ResultsAreAcceptedInOrder(rows: seq<RowOutcome>)
    ensures Collect(rows).0 == AcceptedOf(rows)
  {
    if rows != [] {
      var init := rows[..|rows| - 1];
      ResultsAreAcceptedInOrder(init);
      assert rows == init + [rows[|rows| - 1]];
      AcceptedOfSnoc(init, rows[|rows| - 1]);
    }
  }

  /** One more row adds its diagnostic exactly when it is reported. */
  lemma CollectErrorsStep(rows: seq<RowOutcome>)
    requires rows != []
    ensures var n := |rows| - 1;
      Collect(rows).1 == Collect(rows[..n]).1 + if Reported(rows[n]) then [Diagnostic(n + 1, RowMessage(rows[n]))] else []
  {
  }

  /** One more row adds its record when it is kept and its diagnostic when
      it is reported. */
  lemma CollectStep(rows: seq<RowOutcome>)
    requires rows != []
    ensures var n := |rows| - 1;
      var row := rows[n];
      var (results, errors) := Collect(rows[..n]);
      Collect(rows) == (if Kept(row) then results + [row.rec] else results,
                        if Reported(row) then errors + [Diagnostic(n + 1, RowMessage(row))] else errors)
  {
  }

  /** The same step on a prefix: row `k` decides what `Collect` adds after
      the first `k` rows. */
  lemma CollectPrefixStep(rows: seq<RowOutcome>, k: nat)
    requires k < |rows|
    ensures var row := rows[k];
      var (results, errors) := Collect(rows[..k]);
      Collect(rows[..k + 1]) == (if Kept(row) then results + [row.rec] else results,
                                 if Reported(row) then errors + [Diagnostic(k + 1, RowMessage(row))] else errors)
  {
    CollectStep(rows[..k + 1]);
    assert rows[..k + 1][..k] == rows[..k];
  }

  /** Every diagnostic names the 1-based row of a reported row and carries
      that row's message. */
  lemma {:induction false} DiagnosticsAreReported(rows: seq<RowOutcome>)
    ensures forall d :: d in Collect(rows).1 ==>
      1 <= d.row <= |rows| && Reported(rows[d.row - 1]) && d.message == RowMessage(rows[d.row - 1])
  {
    if rows != [] {
      var n := |rows| - 1;
      var init := rows[..n];
      DiagnosticsAreReported(init);
      CollectErrorsStep(rows);
      forall d | d in Collect(rows).1
        ensures 1 <= d.row <= |rows| && Reported(rows[d.row - 1]) && d.message == RowMessage(rows[d.row - 1])
      {
        if d in Collect(init).1 {
          assert init[d.row - 1] == rows[d.row - 1];
        }
      }
    }
  }

  /** Every reported row has its diagnostic. */
  lemma {:induction false} ReportedAreDiagnosed(rows: seq<RowOutcome>)
    ensures forall i :: 0 <= i < |rows| && Reported(rows[i]) ==> Diagnostic(i + 1, RowMessage(rows[i])) in Collect(rows).1
  {
    if rows != [] {
      var n := |rows| - 1;
      ReportedAreDiagnosed(rows[..n]);
      CollectErrorsStep(rows);
      assert forall i :: 0 <= i < n ==> rows[..n][i] == rows[i];
    }
  }

  /** Diagnostics come in row order. */
  lemma {:induction false} DiagnosticsInOrder(rows: seq<RowOutcome>)
    ensures forall k, l :: 0 <= k < l < |Collect(rows).1| ==> Collect(rows).1[k].row < Collect(rows).1[l].row
  {
    if rows != [] {
      var n := |rows| - 1;
      DiagnosticsInOrder(rows[..n]);
      DiagnosticsAreReported(rows[..n]);
      CollectErrorsStep(rows);
      var errors := Collect(rows[..n]).1;
      assert forall k :: 0 <= k < |errors| ==> errors[k] in errors;
    }
  }

  /** Every diagnostic names the 1-based row of a reported row and carries
      that row's message, in row order, and every reported row has one; a
      rejected record with no field leaves none. */
  lemma DiagnosticsMeaning(rows: seq<RowOutcome>)
    ensures forall d :: d in Collect(rows).1 ==>
      1 <= d.row <= |rows| && Reported(rows[d.row - 1]) && d.message == RowMessage(rows[d.row - 1])
    ensures forall i :: 0 <= i < |rows| && Reported(rows[i]) ==> Diagnostic(i + 1, RowMessage(rows[i])) in Collect(rows).1
    ensures forall k, l :: 0 <= k < l < |Collect(rows).1| ==> Collect(rows).1[k].row < Collect(rows).1[l].row
  {
    DiagnosticsAreReported(rows);
    ReportedAreDiagnosed(rows);
    DiagnosticsInOrder(rows);
  }

  /** No row kept, but some reported. */
  predicate AllRowsFailed(rows: seq<RowOutcome>) {
    (forall i :: 0 <= i < |rows| ==> !Kept(rows[i])) && exists i :: 0 <= i < |rows| && Reported(rows[i])
  }

  /** The first diagnostic is that of the first reported row. */
  lemma {:induction false} FirstDiagnosticIsFirstReported(rows: seq<RowOutcome>)
    requires Collect(rows).1 != []
    ensures var d := Collect(rows).1[0];
      1 <= d.row <= |rows| && Reported(rows[d.row - 1]) && d.message == RowMessage(rows[d.row - 1]) &&
      forall k :: 0 <= k < d.row - 1 ==> !Reported(rows[k])
  {
    var n := |rows| - 1;
    var init := rows[..n];
    CollectErrorsStep(rows);
    assert forall k :: 0 <= k < n ==> init[k] == rows[k];
    if Collect(init).1 != [] {
      FirstDiagnosticIsFirstReported(init);
    } else {
      ReportedAreDiagnosed(init);
    }
  }

  /** The batch fails exactly when no row was kept and at least one was
      reported, with the message of the first reported row; otherwise it
      yields the records of the kept rows in order (an empty batch, or one
      of field-less rows, is an empty success). */
  lemma VerdictMeaning(rows: seq<RowOutcome>, prefix: string)
    ensures var (results, errors) := Collect(rows);
      Verdict(results, errors, prefix).Failed? <==> AllRowsFailed(rows)
    ensures var (results, errors) := Collect(rows);
      Verdict(results, errors, prefix).Accepted? ==> Verdict(results, errors, prefix).records == AcceptedOf(rows)
    ensures var (results, errors) := Collect(rows);
      Verdict(results, errors, prefix).Failed? ==>
        exists i :: 0 <= i < |rows| && Reported(rows[i]) && (forall k :: 0 <= k < i ==> !Reported(rows[k])) &&
          Verdict(results, errors, prefix).message == prefix + RowMessage(rows[i])
  {
    VerdictFailsIff(rows, prefix);
    ResultsAreAcceptedInOrder(rows);
    VerdictMessage(rows, prefix);
  }

  lemma VerdictFailsIff(rows: seq<RowOutcome>, prefix: string)
    ensures var (results, errors) := Collect(rows);
      Verdict(results, errors, prefix).Failed? <==> AllRowsFailed(rows)
  {
    ResultsAreAcceptedInOrder(rows);
    AcceptedOfEmpty(rows);
    SomeDiagnosticIffReported(rows);
  }

  lemma VerdictMessage(rows: seq<RowOutcome>, prefix: string)
    ensures var (results, errors) := Collect(rows);
      Verdict(results, errors, prefix).Failed? ==>
        exists i :: 0 <= i < |rows| && Reported(rows[i]) && (forall k :: 0 <= k < i ==> !Reported(rows[k])) &&
          Verdict(results, errors, prefix).message == prefix + RowMessage(rows[i])
  {
    var (results, errors) := Collect(rows);
    if Verdict(results, errors, prefix).Failed? {
      var i := FirstReportedRow(rows);
      assert Verdict(results, errors, prefix).message == prefix + RowMessage(rows[i]);
    }
  }

  /** The row of the first diagnostic. */
  lemma FirstReportedRow(rows: seq<RowOutcome>) returns (i: nat)
    requires Collect(rows).1 != []
    ensures i < |rows| && Reported(rows[i]) && (forall k :: 0 <= k < i ==> !Reported(rows[k]))
    ensures Collect(rows).1[0].message == RowMessage(rows[i])
  {
    FirstDiagnosticIsFirstReported(rows);
    i := Collect(rows).1[0].row - 1;
  }

  /** Some diagnostic exists exactly when some row is reported. */
  lemma SomeDiagnosticIffReported(rows: seq<RowOutcome>)
    ensures Collect(rows).1 != [] <==> exists i :: 0 <= i < |rows| && Reported(rows[i])
  {
    if Collect(rows).1 != [] {
      FirstDiagnosticIsFirstReported(rows);
      assert Reported(rows[Collect(rows).1[0].row - 1]);
    }
    if exists i :: 0 <= i < |rows| && Reported(rows[i]) {
      ReportedAreDiagnosed(rows);
      var i :| 0 <= i < |rows| && Reported(rows[i]);
      assert Diagnostic(i + 1, RowMessage(rows[i])) in Collect(rows).1;
    }
  }

  lemma {:induction false} AcceptedOfEmpty(rows: seq<RowOutcome>)
    ensures AcceptedOf(rows) == [] <==> forall i :: 0 <= i < |rows| ==> !Kept(rows[i])
  {
    if rows != [] {
      AcceptedOfEmpty(rows[1..]);
      assert forall i :: 1 <= i < |rows| ==> rows[1..][i - 1] == rows[i];
    }
  }

  // ------------------------------------------------------------ CSV feed

  /** The record one CSV line gives under the inverted mapping `inv`. */
  function LineRecord(table: ValueTable, inv: map<string, string>, headers: seq<string>, line: seq<string>): Record {
    CsvRecord(inv, NormalizeRow(table, CsvRow(headers, line)))
  }

  /** What each CSV line gives: its record (text cells never throw). */
  function CsvRows(table: ValueTable, inv: map<string, string>, headers: seq<string>, lines: seq<seq<string>>): (rows: seq<RowOutcome>)
    ensures |rows| == |lines|
    ensures forall i :: 0 <= i < |lines| ==> rows[i] == Mapped(LineRecord(table, inv, headers, lines[i]))
  {
    seq(|lines|, i requires 0 <= i < |lines| => Mapped(LineRecord(table, inv, headers, lines[i])))
  }

  /** What `processCsvStreamWithMapping` resolves or rejects with. */
  function CsvOutcome(table: ValueTable, input: CsvInput, m: Mapping): Outcome {
    match input
    case CsvStreamError(message) => Failed(StreamFailurePrefix + message)
    case CsvTable(headers, lines) =>
      var (results, errors) := Collect(CsvRows(table, Inverted(m), headers, lines));
      Verdict(results, errors, CsvFailurePrefix)
  }

  /** `processCsvStreamWithMapping`: invert the mapping, then for each line
      count it, normalise and map it, and keep or report the record. */
  method ProcessCsvStreamWithMapping(table: ValueTable, input: CsvInput, m: Mapping) returns (out: Outcome)
    ensures out == CsvOutcome(table, input, m)
  {
    var inverted := InvertMapping(m);
    if input.CsvStreamError? {
      return Failed(StreamFailurePrefix + input.message);
    }
    var headers, lines := input.headers, input.lines;
    ghost var rows := CsvRows(table, inverted, headers, lines);
    var results: seq<Record> := [];
    var errors: seq<Diagnostic> := [];
    var rowCount := 0;
    while rowCount < |lines|
      invariant 0 <= rowCount <= |lines|
      invariant (results, errors) == Collect(rows[..rowCount])
    {
      var rec := ReadLine(table, inverted, headers, lines[rowCount]);
      CollectPrefixStep(rows, rowCount);
      assert rows[rowCount] == Mapped(rec);
      rowCount := rowCount + 1;
      if Accepts(rec) {
        results := results + [rec];
      } else if |rec| > 0 {
        errors := errors + [Diagnostic(rowCount, MissingFields)];
      }
    }
    assert rows[..|lines|] == rows;
    if |results| == 0 && |errors| > 0 {
      return Failed(CsvFailurePrefix + errors[0].message);
    }
    return Accepted(results);
  }

  /** The `data` handler for one line: build the row from the headers,
      normalise it and map it. */
  method ReadLine(table: ValueTable, inv: map<string, string>, headers: seq<string>, line: seq<string>) returns (rec: Record)
    ensures rec == LineRecord(table, inv, headers, line)
  {
    var row := CsvRow(headers, line);
    var normalized := NormalizeRowValues(table, row);
    rec := MapCsvRow(inv, normalized);
  }

  /** Every field of `rec` is a non-empty field some usable column maps to. */
  predicate MappedFields(rec: Record, inv: map<string, string>) {
    forall f :: f in rec ==> f != "" && exists c :: c in inv && inv[c] == f
  }

  /** Every record a CSV batch yields is accepted, well typed, and made of
      mapped, non-empty schema fields. */
  lemma CsvRecordsAreWellFormed(table: ValueTable, input: CsvInput, m: Mapping, rec: Record)
    requires CsvOutcome(table, input, m).Accepted? && rec in CsvOutcome(table, input, m).records
    ensures Accepts(rec) && WellTyped(rec) && MappedFields(rec, Inverted(m))
  {
    var rows := CsvRows(table, Inverted(m), input.headers, input.lines);
    VerdictMeaning(rows, CsvFailurePrefix);
    var i := InAcceptedOf(rows, rec);
    CsvRecordShape(Inverted(m), NormalizeRow(table, CsvRow(input.headers, input.lines[i])));
  }

  /** Where an accepted record came from. */
  lemma {:induction false} InAcceptedOf(rows: seq<RowOutcome>, rec: Record) returns (i: nat)
    requires rec in AcceptedOf(rows)
    ensures i < |rows| && rows[i] == Mapped(rec) && Accepts(rec)
  {
    if Kept(rows[0]) && rec == rows[0].rec {
      i := 0;
    } else {
      var j := InAcceptedOf(rows[1..], rec);
      i := j + 1;
    }
  }

  // ----------------------------------------------------------- JSON feed

  /** The record one item of the list gives under the mapping `m`, once
      its row has been normalised without error. */
  function ItemRecord(table: ValueTable, m: Mapping, item: Json): Record {
    JsonRecord(m, NormalizeRow(table, ItemRow(item)))
  }

  /** What one item of the list gives: the error normalising its row
      throws, else its record. */
  function ItemOutcome(table: ValueTable, m: Mapping, item: Json): RowOutcome {
    match ItemError(item)
    case Some(message) => Threw(message)
    case None => Mapped(ItemRecord(table, m, item))
  }

  /** What each item of the list gives. */
  function JsonRows(table: ValueTable, items: seq<Json>, m: Mapping): (rows: seq<RowOutcome>)
    ensures |rows| == |items|
    ensures forall i :: 0 <= i < |items| ==> rows[i] == ItemOutcome(table, m, items[i])
  {
    seq(|items|, i requires 0 <= i < |items| => ItemOutcome(table, m, items[i]))
  }

  /** What `processJsonData` returns or throws. */
  function JsonOutcome(table: ValueTable, data: Json, m: Mapping): Outcome {
    match Unwrap(data)
    case None => Failed(NoArrayMessage)
    case Some(items) =>
      var (results, errors) := Collect(JsonRows(table, items, m));
      Verdict(results, errors, JsonFailurePrefix)
  }

  /** `processJsonData`: find the list, then for each item normalise and
      map it, and keep or report the record, or report the error. */
  method ProcessJsonData(table: ValueTable, data: Json, m: Mapping) returns (out: Outcome)
    ensures out == JsonOutcome(table, data, m)
  {
    var list := Unwrap(data);
    if list.None? {
      return Failed(NoArrayMessage);
    }
    var results, errors := ReadItems(table, list.value, m);
    if |results| == 0 && |errors| > 0 {
      return Failed(JsonFailurePrefix + errors[0].message);
    }
    return Accepted(results);
  }

  /** The loop of `processJsonData`: keep or report what each item of the
      list gives, in order; a caught error is reported with its message. */
  method ReadItems(table: ValueTable, items: seq<Json>, m: Mapping) returns (results: seq<Record>, errors: seq<Diagnostic>)
    ensures (results, errors) == Collect(JsonRows(table, items, m))
  {
    ghost var rows := JsonRows(table, items, m);
    results, errors := [], [];
    for index := 0 to |items|
      invariant (results, errors) == Collect(rows[..index])
    {
      var row := ReadItem(table, m, items[index]);
      CollectPrefixStep(rows, index);
      match row
      case Threw(message) =>
        errors := errors + [Diagnostic(index + 1, message)];
      case Mapped(rec) =>
        if Accepts(rec) {
          results := results + [rec];
        } else if |rec| > 0 {
          errors := errors + [Diagnostic(index + 1, MissingFields)];
        }
    }
    assert rows[..|items|] == rows;
  }

  /** The body of the JSON loop for one item: normalising its row throws on
      the first value that cannot be converted to text; otherwise the
      normalised row is mapped. */
  method ReadItem(table: ValueTable, m: Mapping, item: Json) returns (row: RowOutcome)
    ensures row == ItemOutcome(table, m, item)
  {
    var error := ItemError(item);
    if error.Some? {
      return Threw(error.value);
    }
    var normalized := NormalizeRowValues(table, ItemRow(item));
    var rec := MapJsonItem(m, normalized);
    return Mapped(rec);
  }

  /** Every record a JSON batch yields is accepted and well typed. */
  lemma JsonRecordsAreWellFormed(table: ValueTable, data: Json, m: Mapping, rec: Record)
    requires JsonOutcome(table, data, m).Accepted? && rec in JsonOutcome(table, data, m).records
    ensures Accepts(rec) && WellTyped(rec)
  {
    var items := Unwrap(data).value;
    var rows := JsonRows(table, items, m);
    VerdictMeaning(rows, JsonFailurePrefix);
    var i := InAcceptedOf(rows, rec);
    JsonRecordWellTyped(m, NormalizeRow(table, ItemRow(items[i])));
  }

  /** An item whose row throws is reported with the error's message,
      whatever the mapping, and a list of that item alone fails with it. */
  lemma ThrowingItemFailsAlone(table: ValueTable, m: Mapping, item: Json)
    requires ItemError(item).Some?
    ensures ItemOutcome(table, m, item) == Threw(ItemError(item).value)
    ensures JsonOutcome(table, JArray([item]), m) == Failed(JsonFailurePrefix + ItemError(item).value)
  {
    ArrayIsTheList([item]);
    var rows := JsonRows(table, [item], m);
    CollectErrorsStep(rows);
    assert rows[..0] == [];
  }

  /** An object item one of whose members is an object with a `toString`
      member: normalising it throws whatever the mapping, so a list of that
      item alone fails, even when its stock id and carat are present. */
  lemma ToStringMemberFailsTheFeed(table: ValueTable, m: Mapping, members: seq<(string, Json)>, key: string)
    requires Member(members, key).Some? && Member(members, key).value.JObject?
    requires HasToStringMember(Member(members, key).value.members)
    ensures ItemOutcome(table, m, JObject(members)).Threw?
    ensures JsonOutcome(table, JArray([JObject(members)]), m).Failed?
  {
    UnprintableMemberThrows(members, key);
    ThrowingItemFailsAlone(table, m, JObject(members));
  }
}
