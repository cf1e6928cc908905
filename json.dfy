/** Parsed JSON feeds (services/inventoryService.js and the header preview
    in controllers/inventoryController.js). `JSON.parse` is a library, so its
    result is an input; this module fixes how the code reads that value: how
    an item becomes a row, where the list of diamonds is found, and which
    object the header preview samples. */
module JsonFeed {
  import opened Common
  import opened Rows
  import opened Numeric

  /** A value `JSON.parse` returns. A number carries the text `String(n)`
      gives and whether it is zero (JSON has no NaN). Object members are
      listed as written in the source text, a repeated key included; the
      order in which JavaScript enumerates them is not modelled. */
  datatype Json =
    | JNull
    | JBool(b: bool)
    | JNum(text: string, isZero: bool)
    | JStr(s: string)
    | JArray(items: seq<Json>)
    | JObject(members: seq<(string, Json)>)

  /** JavaScript truthiness. */
  predicate Truthy(j: Json) {
    match j
    case JNull => false
    case JBool(b) => b
    case JNum(_, isZero) => !isZero
    case JStr(s) => s != []
    case JArray(_) => true
    case JObject(_) => true
  }

  /** `String(j)` for a value that is not `null` and whose conversion does
      not throw (`Unprintable`). */
  function ToText(j: Json): string
    decreases j, 1
  {
    match j
    case JNull => "null"
    case JBool(b) => if b then "true" else "false"
    case JNum(text, _) => text
    case JStr(s) => s
    case JArray(items) => JoinText(items)
    case JObject(_) => "[object Object]"
  }

  /** `Array.prototype.join(",")`: `null` elements become empty text. */
  function JoinText(items: seq<Json>): string
    decreases items, 0
  {
    if items == [] then ""
    else
      var head := if items[0] == JNull then "" else ToText(items[0]);
      if |items| == 1 then head else head + "," + JoinText(items[1..])
  }

  /** The cell a member value gives: `null` stays `null`, anything else is
      read through `String(...)`. */
  function ToCell(j: Json): Cell {
    if j == JNull then Null else Val(ToText(j))
  }

  const NotAFunctionMessage: string := "value.toString is not a function"
  const NoPrimitiveMessage: string := "Cannot convert object to primitive value"

  /** An object with a member named `toString`: `JSON.parse` makes it an
      own data property, and no JSON value is a function. */
  predicate HasToStringMember(members: seq<(string, Json)>) {
    exists i :: 0 <= i < |members| && members[i].0 == "toString"
  }

  /** Converting `j` to text throws a TypeError: an object whose
      `toString` member is not a function (its inherited `valueOf` gives
      no primitive either), or an array one of whose elements is such a
      value, since `join` converts every element. */
  predicate Unprintable(j: Json)
    decreases j
  {
    match j
    case JObject(members) => HasToStringMember(members)
    case JArray(items) => exists i :: 0 <= i < |items| && Unprintable(items[i])
    case _ => false
  }

  /** The message `value.toString()` throws on a member value, as V8 words
      it: the call itself fails on an object, `join` fails inside an
      array. */
  function ThrowOf(j: Json): (r: Option<string>)
    ensures r.Some? <==> Unprintable(j)
    ensures r.Some? ==> r.value == if j.JObject? then NotAFunctionMessage else NoPrimitiveMessage
  {
    if !Unprintable(j) then None
    else if j.JObject? then Some(NotAFunctionMessage)
    else Some(NoPrimitiveMessage)
  }

  /** The row `{ ...item }` gives for an item of the list: an object's
      members, a repeated key keeping its first position and its last value;
      an array's elements and a string's characters under their indices
      `"0"`, `"1"`, ...; nothing for `null`, a boolean or a number. The
      readers look fields up by key, so the order of the keys (JavaScript
      lists integer-like keys first) does not matter to them. */
  function ItemRow(item: Json): (r: Row)
    ensures DistinctKeys(r)
  {
    match item
    case JObject(members) => MembersRow(members)
    case JArray(items) => IndexRow(seq(|items|, i requires 0 <= i < |items| => ToCell(items[i])))
    case JStr(s) => IndexRow(seq(|s|, i requires 0 <= i < |s| => Val([s[i]])))
    case _ => []
  }

  /** The cells of a list under their indices as keys. */
  function IndexRow(cells: seq<Cell>): (r: Row)
    ensures |r| == |cells| && forall i :: 0 <= i < |cells| ==> r[i] == (NatText(i), cells[i])
    ensures DistinctKeys(r)
  {
    var r := seq(|cells|, i requires 0 <= i < |cells| => (NatText(i), cells[i]));
    IndexKeysDistinct(Keys(r));
    r
  }

  /** Different indices have different numerals. */
  lemma {:induction false} IndexKeysDistinct(ks: seq<string>)
    requires forall i :: 0 <= i < |ks| ==> ks[i] == NatText(i)
    ensures Distinct(ks)
    decreases |ks|
  {
    if ks != [] {
      var n := |ks| - 1;
      IndexKeysDistinct(ks[..n]);
      forall i | 0 <= i < n
        ensures ks[..n][i] != ks[n]
      {
        if ks[..n][i] == ks[n] {
          NatTextInjective(i, n);
        }
      }
    }
  }

  /** An array item reads its elements by index. */
  lemma ArrayItemFields(items: seq<Json>, i: nat)
    requires i < |items|
    ensures Lookup(ItemRow(JArray(items)), NatText(i)) == Some(ToCell(items[i]))
  {
    var r := ItemRow(JArray(items));
    assert r[i].0 == NatText(i);
    var v := Lookup(r, NatText(i));
    var j :| 0 <= j < |r| && r[j] == (NatText(i), v.value);
    NatTextInjective(i, j);
  }

  function MembersRow(members: seq<(string, Json)>): (r: Row)
    ensures DistinctKeys(r)
  {
    if members == [] then []
    else
      var (key, value) := members[|members| - 1];
      Put(MembersRow(members[..|members| - 1]), key, ToCell(value))
  }

  /** The keys of an object's row are exactly the keys of its members. */
  lemma {:induction false} MembersRowKeys(members: seq<(string, Json)>)
    ensures forall k :: k in Keys(MembersRow(members)) <==> Member(members, k).Some?
  {
    if members != [] {
      var n := |members| - 1;
      MembersRowKeys(members[..n]);
      forall k
        ensures k in Keys(MembersRow(members)) <==> Member(members, k).Some?
      {
        if k != members[n].0 {
          assert k in Keys(MembersRow(members)) <==> k in Keys(MembersRow(members[..n]));
        }
      }
    }
  }

  /** One more member adds its key at the end unless the key is already
      there. */
  lemma MembersRowSnoc(members: seq<(string, Json)>, key: string, value: Json)
    ensures var ks := Keys(MembersRow(members));
      Keys(MembersRow(members + [(key, value)])) == if key in ks then ks else ks + [key]
  {
    assert (members + [(key, value)])[..|members|] == members;
  }

  /** The parsed values of `{ ...item }` in the row's key order: the last
      member under each key of an object, the elements of an array, the
      characters of a string. */
  function ItemValues(item: Json): (vs: seq<Json>)
    ensures |vs| == |ItemRow(item)|
  {
    match item
    case JObject(members) =>
      var keys := Keys(MembersRow(members));
      MembersRowKeys(members);
      seq(|keys|, i requires 0 <= i < |keys| => Member(members, keys[i]).value)
    case JArray(items) => items
    case JStr(s) => seq(|s|, i requires 0 <= i < |s| => JStr([s[i]]))
    case _ => []
  }

  /** The error of the first value whose text cannot be made, if any. */
  function FirstError(vs: seq<Json>): Option<string> {
    if vs == [] then None
    else if Unprintable(vs[0]) then ThrowOf(vs[0])
    else FirstError(vs[1..])
  }

  /** Normalising an object item throws exactly when one of its members'
      values cannot be converted to text. */
  lemma ObjectErrorMeaning(members: seq<(string, Json)>)
    ensures ItemError(JObject(members)).Some? <==>
      exists k :: Member(members, k).Some? && Unprintable(Member(members, k).value)
  {
    if exists k :: Member(members, k).Some? && Unprintable(Member(members, k).value) {
      var k :| Member(members, k).Some? && Unprintable(Member(members, k).value);
      UnprintableMemberThrows(members, k);
    }
    if ItemError(JObject(members)).Some? {
      ThrowingObjectHasUnprintableMember(members);
    }
  }

  lemma UnprintableMemberThrows(members: seq<(string, Json)>, k: string)
    requires Member(members, k).Some? && Unprintable(Member(members, k).value)
    ensures ItemError(JObject(members)).Some?
  {
    var vs := ItemValues(JObject(members));
    var keys := Keys(MembersRow(members));
    MembersRowKeys(members);
    var i :| 0 <= i < |keys| && keys[i] == k;
    assert vs[i] == Member(members, k).value;
    FirstErrorMeaning(vs);
  }

  lemma ThrowingObjectHasUnprintableMember(members: seq<(string, Json)>)
    requires ItemError(JObject(members)).Some?
    ensures exists k :: Member(members, k).Some? && Unprintable(Member(members, k).value)
  {
    var vs := ItemValues(JObject(members));
    var keys := Keys(MembersRow(members));
    MembersRowKeys(members);
    FirstErrorMeaning(vs);
    var i :| 0 <= i < |vs| && Unprintable(vs[i]);
    assert Member(members, keys[i]).Some?;
  }

  /** Normalising an array item throws exactly when one of its elements
      cannot be converted to text; a string item never throws. */
  lemma ArrayErrorMeaning(items: seq<Json>, s: string)
    ensures ItemError(JArray(items)).Some? <==> exists i :: 0 <= i < |items| && Unprintable(items[i])
    ensures ItemError(JStr(s)).None?
  {
    FirstErrorMeaning(items);
    var vs := ItemValues(JStr(s));
    FirstErrorMeaning(vs);
    assert forall i :: 0 <= i < |vs| ==> !Unprintable(vs[i]);
  }

  /** What normalising the row of `item` throws: `normalizeRowValues`
      calls `value.toString()` on every value that is not `null`, so the
      first value, in key order, that cannot be converted throws. */
  function ItemError(item: Json): Option<string> {
    FirstError(ItemValues(item))
  }

  /** No error exactly when every value converts; otherwise the error is
      that of the first value that does not. */
  lemma {:induction false} FirstErrorMeaning(vs: seq<Json>)
    ensures FirstError(vs).None? <==> forall i :: 0 <= i < |vs| ==> !Unprintable(vs[i])
    ensures FirstError(vs).Some? ==>
      exists i :: 0 <= i < |vs| && Unprintable(vs[i]) &&
        (forall k :: 0 <= k < i ==> !Unprintable(vs[k])) && FirstError(vs) == ThrowOf(vs[i])
  {
    if vs != [] && !Unprintable(vs[0]) {
      var tail := vs[1..];
      FirstErrorMeaning(tail);
      assert forall i :: 1 <= i < |vs| ==> vs[i] == tail[i - 1];
      if FirstError(tail).Some? {
        var i :| 0 <= i < |tail| && Unprintable(tail[i]) &&
          (forall k :: 0 <= k < i ==> !Unprintable(tail[k])) && FirstError(tail) == ThrowOf(tail[i]);
        assert forall k :: 1 <= k < i + 1 ==> !Unprintable(vs[k]);
      }
    }
  }

  /** `obj[key]` on a parsed object: the last member with that key. */
  function Member(members: seq<(string, Json)>, key: string): (r: Option<Json>)
    ensures r.None? <==> forall i :: 0 <= i < |members| ==> members[i].0 != key
    ensures r.Some? ==> exists i :: 0 <= i < |members| && members[i] == (key, r.value)
  {
    if members == [] then None
    else if members[|members| - 1].0 == key then Some(members[|members| - 1].1)
    else
      var r := Member(members[..|members| - 1], key);
      assert forall i :: 0 <= i < |members| - 1 ==> members[..|members| - 1][i] == members[i];
      r
  }

  /** `value.key` for any parsed value; `None` is `undefined`. Only objects
      have members here. */
  function Get(value: Json, key: string): Option<Json> {
    match value
    case JObject(members) => Member(members, key)
    case _ => None
  }

  /** The wrapper keys the service looks for, in order. */
  const WrapperKeys: seq<string> := ["data", "diamonds", "result", "results"]

  /** The array under `key`, if that member is an array. */
  function ArrayAt(value: Json, key: string): Option<seq<Json>> {
    match Get(value, key)
    case Some(JArray(items)) => Some(items)
    case _ => None
  }

  /** Where `processJsonData` finds the list of diamonds: the first wrapper
      key whose value is an array, else the value itself when it is an
      array; `None` is the "could not find an array" error (and the error
      that reading a property of `null` raises). */
  function Unwrap(data: Json): Option<seq<Json>> {
    if data == JNull then None
    else if ArrayAt(data, "data").Some? then ArrayAt(data, "data")
    else if ArrayAt(data, "diamonds").Some? then ArrayAt(data, "diamonds")
    else if ArrayAt(data, "result").Some? then ArrayAt(data, "result")
    else if ArrayAt(data, "results").Some? then ArrayAt(data, "results")
    else if data.JArray? then Some(data.items)
    else None
  }

  /** The list found is the array under the first wrapper key holding an
      array; a top-level array is used only when no wrapper key holds one,
      and nothing else is accepted. */
  lemma UnwrapMeaning(data: Json)
    ensures Unwrap(data).Some? ==>
      (exists k :: 0 <= k < |WrapperKeys| && ArrayAt(data, WrapperKeys[k]) == Unwrap(data) &&
         forall j :: 0 <= j < k ==> ArrayAt(data, WrapperKeys[j]).None?) ||
      (data == JArray(Unwrap(data).value) && forall k :: 0 <= k < |WrapperKeys| ==> ArrayAt(data, WrapperKeys[k]).None?)
    ensures Unwrap(data).None? <==>
      data == JNull || (!data.JArray? && forall k :: 0 <= k < |WrapperKeys| ==> ArrayAt(data, WrapperKeys[k]).None?)
  {
    if data != JNull && Unwrap(data).Some? {
      if ArrayAt(data, "data").Some? {
        assert WrapperKeys[0] == "data";
      } else if ArrayAt(data, "diamonds").Some? {
        assert WrapperKeys[1] == "diamonds";
      } else if ArrayAt(data, "result").Some? {
        assert WrapperKeys[2] == "result";
      } else if ArrayAt(data, "results").Some? {
        assert WrapperKeys[3] == "results";
      }
    }
  }

  /** A top-level array is never searched for wrapper keys: its items are
      the list. */
  lemma ArrayIsTheList(items: seq<Json>)
    ensures Unwrap(JArray(items)) == Some(items)
  {
  }

  // ------------------------------------------------------- header preview

  /** `x?.[0]`: the first element of an array, the first character of a
      string, the member `"0"` of an object; `None` is `undefined`. */
  function First(x: Option<Json>): Option<Json> {
    match x
    case Some(JArray(items)) => if items == [] then None else Some(items[0])
    case Some(JStr(s)) => if s == [] then None else Some(JStr([s[0]]))
    case Some(JObject(members)) => Member(members, "0")
    case _ => None
  }

  function IsTruthy(x: Option<Json>): bool {
    x.Some? && Truthy(x.value)
  }

  /** The sample `data.data?.[0] || data.diamonds?.[0] || data.results?.[0]
      || data[0]` of the header preview (no `result` here), when it is
      truthy; `None` sends the preview to the CSV reader (as does the error
      of reading a property of `null`). */
  function PreviewSample(data: Json): (r: Option<Json>)
    ensures r.Some? ==> Truthy(r.value)
  {
    if data == JNull then None
    else
      var a := First(Get(data, "data"));
      var b := First(Get(data, "diamonds"));
      var c := First(Get(data, "results"));
      var d := First(Some(data));
      if IsTruthy(a) then a
      else if IsTruthy(b) then b
      else if IsTruthy(c) then c
      else if IsTruthy(d) then d
      else None
  }

  /** `Object.keys(sample)`: an object's keys in the order they are first
      written (JavaScript would list integer-like keys first, ascending),
      the indices of an array or string, nothing for a boolean or number. */
  function SampleKeys(sample: Json): seq<string> {
    match sample
    case JObject(members) => Keys(MembersRow(members))
    case JArray(items) => seq(|items|, i requires 0 <= i => NatText(i))
    case JStr(s) => seq(|s|, i requires 0 <= i => NatText(i))
    case _ => []
  }

  /** The preview and the service disagree about a `result` wrapper: the
      service reads the list under it, the preview ignores it and falls back
      to reading the text as CSV. */
  lemma PreviewIgnoresResult()
    ensures Unwrap(ResultWrapped) == Some([JObject([("stockId", JStr("A1"))])])
    ensures PreviewSample(ResultWrapped) == None
  {
    var members := ResultWrapped.members;
    assert Member(members, "result") == Some(JArray([JObject([("stockId", JStr("A1"))])]));
    assert Member(members, "data") == None;
    assert Member(members, "diamonds") == None;
    assert Member(members, "results") == None;
    assert Member(members, "0") == None;
  }

  const ResultWrapped: Json := JObject([("result", JArray([JObject([("stockId", JStr("A1"))])]))])
}
