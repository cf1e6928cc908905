/** A raw row as the parsers hand it over: a JavaScript object from column
    name to value, as a list of distinct keys in insertion order. JavaScript
    enumerates integer-like keys (`"0"`, `"2"`, ...) first, in ascending
    order; the records built from a row look each field up by key (one
    column per field), so that order changes no record. */
module Rows {
  import opened Common

  /** A field value before interpretation: JSON `null`, or the text that
      `String(value)` gives (CSV cells are always text). An absent key is
      JavaScript's `undefined`. */
  datatype Cell = Null | Val(text: string)

  type Row = seq<(string, Cell)>

  function Keys(row: Row): (ks: seq<string>)
    ensures |ks| == |row| && forall i :: 0 <= i < |row| ==> ks[i] == row[i].0
  {
    seq(|row|, i requires 0 <= i < |row| => row[i].0)
  }

  /** No key occurs twice: each key is new when it is added. */
  predicate Distinct(ks: seq<string>)
    decreases |ks|
  {
    ks == [] || (Distinct(ks[..|ks| - 1]) && ks[|ks| - 1] !in ks[..|ks| - 1])
  }

  predicate DistinctKeys(row: Row) {
    Distinct(Keys(row))
  }

  /** Being distinct is being pairwise different. */
  lemma {:induction false} DistinctMeaning(ks: seq<string>)
    ensures Distinct(ks) <==> forall i, j :: 0 <= i < j < |ks| ==> ks[i] != ks[j]
    decreases |ks|
  {
    if ks != [] {
      var n := |ks| - 1;
      var init := ks[..n];
      DistinctMeaning(init);
      if Distinct(ks) {
        forall i, j | 0 <= i < j < |ks| ensures ks[i] != ks[j] {
          assert init[i] == ks[i];
          if j < n {
            assert init[j] == ks[j];
          } else {
            assert init[i] in init;
          }
        }
      } else if !Distinct(init) {
        var i, j :| 0 <= i < j < n && init[i] == init[j];
        assert ks[i] == ks[j];
      } else {
        var i :| 0 <= i < n && init[i] == ks[n];
        assert ks[i] == ks[n];
      }
    }
  }

  /** Position of `key` in the row, or `|row|` when it is absent. */
  function KeyIndex(row: Row, key: string): (i: nat)
    ensures i <= |row|
    ensures i < |row| ==> row[i].0 == key
    ensures forall j :: 0 <= j < i ==> row[j].0 != key
  {
    if row == [] then 0
    else if row[0].0 == key then 0
    else 1 + KeyIndex(row[1..], key)
  }

  /** `row[key]`: the value under the first (in an object, the only) pair
      with that key; `None` is `undefined`. */
  function Lookup(row: Row, key: string): (r: Option<Cell>)
    ensures r.None? <==> forall i :: 0 <= i < |row| ==> row[i].0 != key
    ensures r.Some? ==> exists i :: 0 <= i < |row| && row[i] == (key, r.value)
  {
    var i := KeyIndex(row, key);
    if i < |row| then Some(row[i].1) else None
  }

  /** `row[key] = value`: an existing key keeps its position and takes the
      new value; a new key is appended. */
  function Put(row: Row, key: string, value: Cell): (r: Row)
    ensures Keys(r) == if key in Keys(row) then Keys(row) else Keys(row) + [key]
    ensures forall i :: 0 <= i < |row| && row[i].0 != key ==> r[i] == row[i]
    ensures DistinctKeys(row) ==> DistinctKeys(r) && Lookup(r, key) == Some(value)
  {
    var i := KeyIndex(row, key);
    assert key in Keys(row) <==> i < |row| by {
      if key in Keys(row) {
        var j :| 0 <= j < |row| && Keys(row)[j] == key;
      }
    }
    var r := if i < |row| then row[i := (key, value)] else row + [(key, value)];
    KeyIndexIsFirst(r, key, i);
    assert i == |row| ==> Keys(r)[..|row|] == Keys(row);
    r
  }

  lemma KeyIndexIsFirst(row: Row, key: string, i: nat)
    requires i < |row| && row[i].0 == key
    requires forall j :: 0 <= j < i ==> row[j].0 != key
    ensures KeyIndex(row, key) == i
  {
  }

  const Bom: char := '\U{FEFF}'

  /** The header clean-up both CSV readers install as `mapHeaders`: trim,
      then drop one leading byte-order mark. */
  function CleanHeader(header: string): string {
    var t := Trim(header);
    if t != [] && t[0] == Bom then t[1..] else t
  }

  /** JavaScript's `trim` already removes a byte-order mark, so the second step
      of the clean-up never fires: a cleaned header is the trimmed header, and
      trimming it again changes nothing. */
  lemma CleanHeaderIsTrim(header: string)
    ensures CleanHeader(header) == Trim(header)
    ensures Trim(CleanHeader(header)) == CleanHeader(header)
    ensures |CleanHeader(header)| == 0 || CleanHeader(header)[0] != Bom
  {
    TrimmedHasNoBorderSpace(header);
    var t := Trim(header);
    assert IsSpace(Bom);
    assert t == [] || t[0] != Bom;
  }

  /** The object the CSV reader builds for one line: each header (cleaned) is
      assigned the value in the same position, left to right. */
  function CsvRow(headers: seq<string>, values: seq<string>): (r: Row)
    ensures DistinctKeys(r)
  {
    var n := if |headers| < |values| then |headers| else |values|;
    if n == 0 then []
    else Put(CsvRow(headers[..n - 1], values[..n - 1]), CleanHeader(headers[n - 1]), Val(values[n - 1]))
  }

  predicate AllTrimmed(ks: seq<string>) {
    forall i :: 0 <= i < |ks| ==> Trim(ks[i]) == ks[i]
  }

  lemma AllTrimmedSnoc(ks: seq<string>, k: string)
    requires AllTrimmed(ks) && Trim(k) == k
    ensures AllTrimmed(ks + [k])
  {
    forall i | 0 <= i < |ks| + 1 ensures Trim((ks + [k])[i]) == (ks + [k])[i] {
      if i < |ks| { assert (ks + [k])[i] == ks[i]; }
    }
  }

  /** Every key of a CSV row is a cleaned header, so trimming it again (as the
      field mapper does) changes nothing. */
  lemma {:induction false} CsvRowKeysAreTrimmed(headers: seq<string>, values: seq<string>)
    ensures AllTrimmed(Keys(CsvRow(headers, values)))
    decreases |headers|
  {
    var n := if |headers| < |values| then |headers| else |values|;
    if n == 0 {
      assert CsvRow(headers, values) == [];
      assert Keys([]) == [];
    } else {
      CsvRowKeysAreTrimmed(headers[..n - 1], values[..n - 1]);
      var prev := CsvRow(headers[..n - 1], values[..n - 1]);
      var h := CleanHeader(headers[n - 1]);
      assert CsvRow(headers, values) == Put(prev, h, Val(values[n - 1]));
      CleanHeaderIsTrim(headers[n - 1]);
      if Keys(CsvRow(headers, values)) != Keys(prev) {
        AllTrimmedSnoc(Keys(prev), h);
      }
    }
  }
}
