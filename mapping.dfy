/** Field mapping, coercion and acceptance (services/inventoryService.js).
    A user mapping names, for each schema field, the feed column that holds
    it. The CSV reader inverts it (column -> field) and walks the row; the
    JSON reader walks the mapping forward and looks each column up. Both
    coerce the fixed list of numeric fields with `safeParseFloat`, trim every
    other value, and keep a record only when it has a stock id and a truthy
    carat. */
module FieldMapping {
  import opened Common
  import opened Rows
  import opened Numeric

  /** A value of a produced record: a parsed number or trimmed text. */
  datatype FieldValue = Num(n: real) | Str(s: string)

  /** `finalDiamondData`: schema field -> value. */
  type Record = map<string, FieldValue>

  /** The user mapping, schema field -> column, in the object's key order.
      A JavaScript object holds each field once, so only mappings with
      `MappingFromObject` correspond to what the code receives; the lemmas
      below hold for every sequence, and so for those in particular. */
  type Mapping = seq<(string, string)>

  /** Each schema field appears once, as in an object. */
  predicate MappingFromObject(m: Mapping) {
    forall i, j :: 0 <= i < j < |m| ==> m[i].0 != m[j].0
  }

  /** The fields read with `safeParseFloat`. */
  const NumberFields: seq<string> := [
    "carat", "length", "width", "height", "pricePerCarat", "price",
    "depthPercent", "tablePercent", "girdlePercent", "crownHeight",
    "crownAngle", "pavilionDepth", "pavilionAngle"
  ]

  /** Which of the fields the rest of the model names are numeric. */
  lemma FieldKinds()
    ensures "carat" in NumberFields
    ensures "stockId" !in NumberFields && "availability" !in NumberFields
    ensures "certificateNumber" !in NumberFields && "user" !in NumberFields
  {
    assert NumberFields[0] == "carat";
    forall i | 0 <= i < |NumberFields|
      ensures NumberFields[i] != "stockId" && NumberFields[i] != "availability"
      ensures NumberFields[i] != "certificateNumber" && NumberFields[i] != "user"
    {
      assert NumberFields[i][0] != 's' && NumberFields[i][0] != 'a' && NumberFields[i][0] != 'u';
      assert |NumberFields[i]| != |"certificateNumber"|;
    }
  }

  /** A column entry that is used: neither empty nor `"none"`. */
  predicate Usable(column: string) {
    column != "" && column != "none"
  }

  /** JavaScript truthiness of a record value. */
  predicate Truthy(v: FieldValue) {
    match v
    case Num(x) => x != 0.0
    case Str(s) => s != []
  }

  /** The acceptance test `finalDiamondData.stockId && finalDiamondData.carat`. */
  predicate Accepts(rec: Record) {
    "stockId" in rec && Truthy(rec["stockId"]) && "carat" in rec && Truthy(rec["carat"])
  }

  /** Every numeric field holds a number and every other field holds text
      with no surrounding blanks. */
  predicate WellTyped(rec: Record) {
    forall f :: f in rec ==>
      if f in NumberFields then rec[f].Num? else rec[f].Str? && Trimmed(rec[f].s)
  }

  // ---------------------------------------------------------------- coercion

  /** The value stored for `field` from a cell, or `None` when the field is
      left out: numeric fields go through `safeParseFloat`, other fields are
      trimmed text, and `null` is never stored. */
  function Coerce(field: string, cell: Cell): Option<FieldValue> {
    if field in NumberFields then
      match SafeParseFloat(cell)
      case None => None
      case Some(x) => Some(Num(x))
    else
      match cell
      case Null => None
      case Val(s) => Some(Str(Trim(s)))
  }

  /** A coerced value has the type its field calls for. */
  lemma CoerceIsWellTyped(field: string, cell: Cell)
    requires Coerce(field, cell).Some?
    ensures WellTyped(map[field := Coerce(field, cell).value])
  {
    if field !in NumberFields {
      TrimmedHasNoBorderSpace(cell.text);
    }
  }

  lemma WellTypedUpdate(rec: Record, field: string, cell: Cell)
    requires WellTyped(rec) && Coerce(field, cell).Some?
    ensures WellTyped(rec[field := Coerce(field, cell).value])
  {
    CoerceIsWellTyped(field, cell);
  }

  // ------------------------------------------------------ inverted mapping

  /** `invertedMapping`: column -> schema field, for usable columns; when two
      fields name the same column the later one wins. */
  function Inverted(m: Mapping): map<string, string> {
    if m == [] then map[]
    else
      var prev := Inverted(m[..|m| - 1]);
      var (field, column) := m[|m| - 1];
      if Usable(column) then prev[column := field] else prev
  }

  /** The loop that fills `invertedMapping`. */
  method InvertMapping(m: Mapping) returns (inv: map<string, string>)
    ensures inv == Inverted(m)
  {
    inv := map[];
    for i := 0 to |m|
      invariant inv == Inverted(m[..i])
    {
      assert m[..i + 1][..i] == m[..i];
      var (field, column) := m[i];
      if column != "" && column != "none" {
        inv := inv[column := field];
      }
    }
    assert m[..|m|] == m;
  }

  /** A column is in the inverted mapping exactly when it is usable and some
      field names it, and it then maps to the last field naming it. */
  lemma InvertedMeaning(m: Mapping, column: string)
    ensures column in Inverted(m) <==> Usable(column) && exists i :: 0 <= i < |m| && m[i].1 == column
    ensures column in Inverted(m) ==> exists i :: 0 <= i < |m| && m[i] == (Inverted(m)[column], column) &&
                                       forall j :: i < j < |m| ==> m[j].1 != column
  {
    InvertedDomain(m, column);
    if column in Inverted(m) {
      InvertedLast(m, column);
    }
  }

  /** The last step of the inversion. */
  lemma InvertedStep(m: Mapping)
    requires m != []
    ensures Inverted(m) == if Usable(m[|m| - 1].1) then Inverted(m[..|m| - 1])[m[|m| - 1].1 := m[|m| - 1].0]
                           else Inverted(m[..|m| - 1])
  {
  }

  lemma {:induction false} InvertedDomain(m: Mapping, column: string)
    ensures column in Inverted(m) <==> Usable(column) && exists i :: 0 <= i < |m| && m[i].1 == column
  {
    if m != [] {
      var init := m[..|m| - 1];
      InvertedDomain(init, column);
      InvertedStep(m);
      if exists i :: 0 <= i < |init| && init[i].1 == column {
        var i :| 0 <= i < |init| && init[i].1 == column;
        assert m[i].1 == column;
      }
      if exists i :: 0 <= i < |m| && m[i].1 == column {
        var i :| 0 <= i < |m| && m[i].1 == column;
        if i < |init| {
          assert init[i].1 == column;
        }
      }
    }
  }

  lemma {:induction false} InvertedLast(m: Mapping, column: string)
    requires column in Inverted(m)
    ensures exists i :: 0 <= i < |m| && m[i] == (Inverted(m)[column], column) &&
                        forall j :: i < j < |m| ==> m[j].1 != column
  {
    var init := m[..|m| - 1];
    var last := |m| - 1;
    InvertedStep(m);
    InvertedDomain(m, column);
    if m[last].1 == column {
      assert m[last] == (Inverted(m)[column], column);
    } else {
      InvertedLast(init, column);
      var i :| 0 <= i < |init| && init[i] == (Inverted(init)[column], column) &&
               forall j :: i < j < |init| ==> init[j].1 != column;
      assert m[i] == init[i];
      assert forall j :: i < j < |m| ==> m[j].1 != column by {
        forall j | i < j < |m| ensures m[j].1 != column {
          if j < |init| {
            assert m[j] == init[j];
          }
        }
      }
    }
  }

  // ------------------------------------------------------------ CSV rows

  /** The record the CSV reader builds from a (normalised) row: each column,
      trimmed, is looked up in the inverted mapping, and a field whose name
      is non-empty takes the coerced value; later columns overwrite earlier
      ones. */
  function CsvRecord(inv: map<string, string>, row: Row): Record {
    if row == [] then map[]
    else CsvStep(inv, CsvRecord(inv, row[..|row| - 1]), row[|row| - 1])
  }

  /** One column of the CSV loop applied to the record built so far. */
  function CsvStep(inv: map<string, string>, rec: Record, entry: (string, Cell)): Record {
    var key := Trim(entry.0);
    if key in inv && inv[key] != "" then
      match Coerce(inv[key], entry.1)
      case None => rec
      case Some(v) => rec[inv[key] := v]
    else rec
  }

  /** A CSV step keeps the record well typed. */
  lemma CsvStepWellTyped(inv: map<string, string>, rec: Record, entry: (string, Cell))
    requires WellTyped(rec)
    ensures WellTyped(CsvStep(inv, rec, entry))
  {
    var key := Trim(entry.0);
    if key in inv && inv[key] != "" && Coerce(inv[key], entry.1).Some? {
      WellTypedUpdate(rec, inv[key], entry.1);
    }
  }

  /** The `for (const csvHeader in normalizedRow)` loop. */
  method MapCsvRow(inv: map<string, string>, row: Row) returns (rec: Record)
    ensures rec == CsvRecord(inv, row)
  {
    rec := map[];
    for i := 0 to |row|
      invariant rec == CsvRecord(inv, row[..i])
    {
      assert row[..i + 1][..i] == row[..i];
      rec := MapCsvEntry(inv, rec, row[i]);
    }
    assert row[..|row|] == row;
  }

  /** One pass of that loop: a column the mapping knows, with a non-empty
      field and a value that coerces, sets the field. */
  method MapCsvEntry(inv: map<string, string>, rec: Record, entry: (string, Cell)) returns (r: Record)
    ensures r == CsvStep(inv, rec, entry)
  {
    r := rec;
    var (column, cell) := entry;
    var key := Trim(column);
    if key in inv {
      var field := inv[key];
      if field != "" {
        var v := Coerce(field, cell);
        if v.Some? {
          r := rec[field := v.value];
        }
      }
    }
  }

  /** Every field of a CSV record is a mapped, non-empty schema field, and
      the record is well typed. */
  lemma CsvRecordShape(inv: map<string, string>, row: Row)
    ensures WellTyped(CsvRecord(inv, row))
    ensures forall f :: f in CsvRecord(inv, row) ==> f != "" && exists c :: c in inv && inv[c] == f
  {
    CsvRecordWellTyped(inv, row);
    CsvRecordFields(inv, row);
  }

  lemma {:induction false} CsvRecordWellTyped(inv: map<string, string>, row: Row)
    ensures WellTyped(CsvRecord(inv, row))
  {
    if row != [] {
      CsvRecordWellTyped(inv, row[..|row| - 1]);
      CsvStepWellTyped(inv, CsvRecord(inv, row[..|row| - 1]), row[|row| - 1]);
    }
  }

  lemma {:induction false} CsvRecordFields(inv: map<string, string>, row: Row)
    ensures forall f :: f in CsvRecord(inv, row) ==> f != "" && exists c :: c in inv && inv[c] == f
  {
    if row != [] {
      var init := row[..|row| - 1];
      CsvRecordFields(inv, init);
      var key := Trim(row[|row| - 1].0);
      assert forall f :: f in CsvRecord(inv, row) ==> f in CsvRecord(inv, init) || (key in inv && f == inv[key] != "");
    }
  }

  // ------------------------------------------------------------ JSON items

  /** The record the JSON reader builds from a (normalised) item: each usable
      entry of the mapping looks its column up in the item; an absent or
      `null` value leaves the field out; later entries overwrite earlier
      ones. */
  function JsonRecord(m: Mapping, item: Row): Record {
    if m == [] then map[]
    else
      var rec := JsonRecord(m[..|m| - 1], item);
      var (field, column) := m[|m| - 1];
      if !Usable(column) then rec
      else
        match Lookup(item, column)
        case None => rec
        case Some(cell) =>
          match Coerce(field, cell)
          case None => rec
          case Some(v) => rec[field := v]
  }

  /** The `for (const [schemaField, apiField] of Object.entries(userMapping))`
      loop. */
  method MapJsonItem(m: Mapping, item: Row) returns (rec: Record)
    ensures rec == JsonRecord(m, item)
  {
    rec := map[];
    for i := 0 to |m|
      invariant rec == JsonRecord(m[..i], item)
    {
      assert m[..i + 1][..i] == m[..i];
      var (field, column) := m[i];
      if column == "" || column == "none" {
        continue;
      }
      var value := Lookup(item, column);
      if value.Some? {
        var v := Coerce(field, value.value);
        if v.Some? {
          rec := rec[field := v.value];
        }
      }
    }
    assert m[..|m|] == m;
  }

  /** A mapping entry whose column is usable and present in the item with
      a value that survives coercion. */
  predicate Yields(item: Row, entry: (string, string)) {
    Usable(entry.1) && Lookup(item, entry.1).Some? && Coerce(entry.0, Lookup(item, entry.1).value).Some?
  }

  function YieldOf(item: Row, entry: (string, string)): FieldValue
    requires Yields(item, entry)
  {
    Coerce(entry.0, Lookup(item, entry.1).value).value
  }

  /** Reference definition: the last entry of the mapping that yields a value
      for field `f`. */
  function LastYield(m: Mapping, item: Row, f: string): (r: Option<nat>)
    ensures r.Some? ==> r.value < |m| && m[r.value].0 == f && Yields(item, m[r.value])
    ensures r.Some? ==> forall j :: r.value < j < |m| && m[j].0 == f ==> !Yields(item, m[j])
    ensures r.None? ==> forall j :: 0 <= j < |m| && m[j].0 == f ==> !Yields(item, m[j])
  {
    LastBelow(m, YieldsFor(item, f), |m|)
  }

  /** Whether an entry yields a value for `f`. */
  function YieldsFor(item: Row, f: string): (p: ((string, string)) -> bool)
    ensures forall e: (string, string) :: p(e) <==> e.0 == f && Yields(item, e)
  {
    (e: (string, string)) => e.0 == f && Yields(item, e)
  }

  /** The last of the first `n` elements that satisfies `p`. */
  function LastBelow<T>(s: seq<T>, p: T -> bool, n: nat): (r: Option<nat>)
    requires n <= |s|
    ensures r.Some? ==> r.value < n && p(s[r.value])
    ensures r.Some? ==> forall j :: r.value < j < n ==> !p(s[j])
    ensures r.None? ==> forall j :: 0 <= j < n ==> !p(s[j])
  {
    if n == 0 then None
    else if p(s[n - 1]) then Some(n - 1)
    else LastBelow(s, p, n - 1)
  }

  /** The search over the first `n` elements sees only those elements. */
  lemma {:induction false} LastBelowPrefix<T>(s: seq<T>, init: seq<T>, p: T -> bool, n: nat)
    requires n <= |init| <= |s| && init == s[..|init|]
    ensures LastBelow(s, p, n) == LastBelow(init, p, n)
  {
    if n > 0 {
      assert init[n - 1] == s[n - 1];
      LastBelowPrefix(s, init, p, n - 1);
    }
  }

  /** A JSON record is well typed. */
  lemma {:induction false} JsonRecordWellTyped(m: Mapping, item: Row)
    ensures WellTyped(JsonRecord(m, item))
  {
    if m != [] {
      var init := m[..|m| - 1];
      JsonRecordWellTyped(init, item);
      var (field, column) := m[|m| - 1];
      if Yields(item, m[|m| - 1]) {
        WellTypedUpdate(JsonRecord(init, item), field, Lookup(item, column).value);
      }
    }
  }

  /** A field is in a JSON record exactly when some entry of the mapping
      yields a value for it, and it then holds the value of the last such
      entry. */
  lemma {:induction false} JsonRecordMeaning(m: Mapping, item: Row, f: string)
    ensures f in JsonRecord(m, item) <==> LastYield(m, item, f).Some?
    ensures f in JsonRecord(m, item) ==> JsonRecord(m, item)[f] == YieldOf(item, m[LastYield(m, item, f).value])
  {
    if m != [] {
      var init := m[..|m| - 1];
      JsonRecordMeaning(init, item, f);
      LastBelowPrefix(m, init, YieldsFor(item, f), |init|);
      if LastYield(init, item, f).Some? {
        assert init[LastYield(init, item, f).value] == m[LastYield(init, item, f).value];
      }
    }
  }

  // ------------------------------------------------------------ acceptance

  /** A carat of zero is not truthy, so a zero-carat row is rejected. */
  lemma ZeroCaratIsRejected(rec: Record)
    requires "carat" in rec && rec["carat"] == Num(0.0)
    ensures !Accepts(rec)
  {
  }

  /** The two readers differ when two fields name the same column: the CSV
      reader keeps only the later field, the JSON reader fills both. With
      stock id and certificate number both mapped to `SKU`, the CSV record
      has no stock id, so no row is accepted, while the JSON record has it. */
  const SharedColumnMapping: Mapping := [("stockId", "SKU"), ("certificateNumber", "SKU")]
  const SharedColumnRow: Row := [("SKU", Val("A1"))]

  lemma CsvDropsSharedField()
    ensures MappingFromObject(SharedColumnMapping)
    ensures "stockId" !in CsvRecord(Inverted(SharedColumnMapping), SharedColumnRow)
    ensures !Accepts(CsvRecord(Inverted(SharedColumnMapping), SharedColumnRow))
  {
    var m := SharedColumnMapping;
    var inv := Inverted(m);
    assert m[..1] == [("stockId", "SKU")];
    assert m[..1][..0] == [];
    assert Inverted(m[..1]) == map["SKU" := "stockId"];
    assert inv == map["SKU" := "certificateNumber"];
    CsvRecordShape(inv, SharedColumnRow);
  }

  lemma JsonKeepsSharedField()
    ensures "stockId" in JsonRecord(SharedColumnMapping, SharedColumnRow)
    ensures JsonRecord(SharedColumnMapping, SharedColumnRow)["stockId"] == Str("A1")
  {
    var m := SharedColumnMapping;
    var row := SharedColumnRow;
    FieldKinds();
    assert Trim("A1") == "A1";
    assert Lookup(row, "SKU") == Some(Val("A1"));
    assert m[..1] == [("stockId", "SKU")];
    assert m[..1][..0] == [];
    assert m[..1][0] == ("stockId", "SKU");
    assert Usable("SKU");
    assert Coerce("stockId", Val("A1")) == Some(Str("A1"));
    var empty: Mapping := [];
    assert JsonRecord(empty, row) == map[];
    assert m[..1][..|m[..1]| - 1] == empty;
    var r1 := JsonRecord(m[..1], row);
    assert r1 == map["stockId" := Str("A1")];
  }
}
