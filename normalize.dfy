/** `normalizeRowValues` (services/inventoryService.js): every value of a row
    is looked up in a synonym table chosen by the lower-cased column name,
    under its lower-cased trimmed text. The table is the deployment's value
    mapping file, so it is a parameter here. */
module Normalize {
  import opened Common
  import opened Rows

  /** Lower-cased column name -> (lower-cased value -> replacement). */
  type ValueTable = map<string, map<string, string>>

  /** Values the loop skips: `null`/`undefined`, blank text and `*`. */
  predicate Skipped(value: Cell) {
    value.Null? || Trim(value.text) == [] || Trim(value.text) == "*"
  }

  /** The table entry for a value of column `header`, if there is one. */
  function Synonym(table: ValueTable, header: string, value: Cell): Option<string> {
    if Skipped(value) then None
    else
      var lowerHeader := Lower(header);
      var key := Lower(Trim(value.text));
      if lowerHeader in table && key in table[lowerHeader] then Some(table[lowerHeader][key])
      else None
  }

  /** One value after normalisation: the replacement when the table has one,
      otherwise the value exactly as given (not even trimmed). */
  function NormalizeValue(table: ValueTable, header: string, value: Cell): Cell {
    match Synonym(table, header, value)
    case Some(replacement) => Val(replacement)
    case None => value
  }

  /** The row `normalizeRowValues` returns. */
  function NormalizeRow(table: ValueTable, row: Row): (r: Row)
    ensures |r| == |row|
    ensures forall i :: 0 <= i < |row| ==> r[i] == (row[i].0, NormalizeValue(table, row[i].0, row[i].1))
  {
    seq(|row|, i requires 0 <= i < |row| => (row[i].0, NormalizeValue(table, row[i].0, row[i].1)))
  }

  /** The copy-then-overwrite loop of `normalizeRowValues`. */
  method NormalizeRowValues(table: ValueTable, row: Row) returns (normalized: Row)
    ensures normalized == NormalizeRow(table, row)
  {
    ghost var spec := NormalizeRow(table, row);
    normalized := row;
    for i := 0 to |row|
      invariant |normalized| == |row|
      invariant normalized[..i] == spec[..i]
      invariant normalized[i..] == row[i..]
    {
      var header := row[i].0;
      var value := row[i].1;
      var found, replacement := FindSynonym(table, header, value);
      if found {
        normalized := normalized[i := (header, Val(replacement))];
      }
      assert normalized[i] == spec[i];
      assert normalized[..i + 1] == normalized[..i] + [normalized[i]];
    }
    assert normalized == normalized[..|row|];
  }

  /** The body of the loop: skip `null`, blank and `*`, then look the
      lower-cased trimmed text up in the column's table. */
  method FindSynonym(table: ValueTable, header: string, value: Cell) returns (found: bool, replacement: string)
    ensures found <==> Synonym(table, header, value).Some?
    ensures found ==> replacement == Synonym(table, header, value).value
  {
    found, replacement := false, "";
    if value.Null? {
      return;
    }
    var trimmed := Trim(value.text);
    if trimmed == [] || trimmed == "*" {
      return;
    }
    var lowerHeader := Lower(header);
    if lowerHeader in table {
      var key := Lower(trimmed);
      if key in table[lowerHeader] {
        found, replacement := true, table[lowerHeader][key];
      }
    }
  }

  /** Normalisation keeps exactly the same keys, in the same order. */
  lemma NormalizeKeepsKeys(table: ValueTable, row: Row)
    ensures Keys(NormalizeRow(table, row)) == Keys(row)
    ensures DistinctKeys(row) ==> DistinctKeys(NormalizeRow(table, row))
  {
    assert Keys(NormalizeRow(table, row)) == Keys(row);
  }

  /** Looking a column up after normalisation is normalising what the lookup
      gave before. */
  lemma NormalizeLookup(table: ValueTable, row: Row, key: string)
    ensures Lookup(NormalizeRow(table, row), key) ==
      match Lookup(row, key)
      case None => None
      case Some(v) => Some(NormalizeValue(table, key, v))
  {
    var r := NormalizeRow(table, row);
    assert KeyIndex(r, key) == KeyIndex(row, key) by {
      KeyIndexOfSameKeys(r, row, key);
    }
  }

  lemma {:induction false} KeyIndexOfSameKeys(a: Row, b: Row, key: string)
    requires |a| == |b| && forall i :: 0 <= i < |a| ==> a[i].0 == b[i].0
    ensures KeyIndex(a, key) == KeyIndex(b, key)
  {
    if a != [] && a[0].0 != key {
      KeyIndexOfSameKeys(a[1..], b[1..], key);
    }
  }

  /** `null`, blank text and `*` pass through untouched. */
  lemma SkippedValuesPassThrough(table: ValueTable, header: string, value: Cell)
    requires value.Null? || AllSpace(value.text) || Trim(value.text) == "*"
    ensures NormalizeValue(table, header, value) == value
  {
    if value.Val? {
      TrimEmptyIffAllSpace(value.text);
    }
    assert Skipped(value);
  }

  /** A value changes only into a table entry: when the table has no entry
      for the column, or none for the value, the value comes back exactly as
      given, untrimmed. */
  lemma UnknownValuesPassThrough(table: ValueTable, header: string, value: Cell)
    requires Lower(header) !in table || value.Null? || Lower(Trim(value.text)) !in table[Lower(header)]
    ensures NormalizeValue(table, header, value) == value
  {
  }

  /** A value that changes becomes the table's entry for the lower-cased
      column name and the lower-cased trimmed text. */
  lemma ChangedValuesComeFromTable(table: ValueTable, header: string, value: Cell)
    requires NormalizeValue(table, header, value) != value
    ensures !Skipped(value) && Lower(header) in table && Lower(Trim(value.text)) in table[Lower(header)]
    ensures NormalizeValue(table, header, value) == Val(table[Lower(header)][Lower(Trim(value.text))])
  {
  }

  /** Normalisation is insensitive to letter case and surrounding blanks in
      the value, and to letter case in the column name. */
  lemma NormalizeIgnoresCaseAndBlanks(table: ValueTable, h1: string, h2: string, s1: string, s2: string)
    requires Lower(h1) == Lower(h2) && Lower(Trim(s1)) == Lower(Trim(s2))
    requires Synonym(table, h1, Val(s1)).Some?
    ensures NormalizeValue(table, h1, Val(s1)) == NormalizeValue(table, h2, Val(s2))
  {
    LowerIsStar(Trim(s1));
    LowerIsStar(Trim(s2));
  }

  /** `*` is the only text whose lower-case form is `*`. */
  lemma LowerIsStar(s: string)
    ensures Lower(s) == "*" <==> s == "*"
  {
    if |s| == 1 {
      assert Lower(s)[0] == LowerChar(s[0]);
    }
  }

  /** A table is closed when every replacement it produces for a column is
      itself a key of that column's table mapping to itself (canonical
      spellings map to themselves). */
  predicate Closed(table: ValueTable) {
    forall h, k :: h in table && k in table[h] ==>
      var v := table[h][k];
      Trim(v) == v && v != [] && v != "*" && Lower(v) in table[h] && table[h][Lower(v)] == v
  }

  /** With a closed table normalising twice is normalising once. */
  lemma NormalizeIdempotent(table: ValueTable, row: Row)
    requires Closed(table)
    ensures NormalizeRow(table, NormalizeRow(table, row)) == NormalizeRow(table, row)
  {
    var once := NormalizeRow(table, row);
    forall i | 0 <= i < |row|
      ensures NormalizeValue(table, row[i].0, once[i].1) == once[i].1
    {
      var h := row[i].0;
      match Synonym(table, h, row[i].1)
      case None =>
      case Some(v) =>
        var k := Lower(Trim(row[i].1.text));
        assert v == table[Lower(h)][k];
        assert Trim(v) == v && v != [] && v != "*";
        assert Synonym(table, h, Val(v)) == Some(v);
    }
  }
}
