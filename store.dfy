/** The diamond collection as far as the inventory code uses it: documents
    keyed by (owner, stock id), `bulkWrite` of `updateOne` operations and
    `deleteMany` as transformations of that map, and the two places that
    build the operations — the service's inline `.map`
    (services/inventoryService.js) and `createBulkOperations`
    (controllers/inventoryController.js), which differ and are kept apart. */
module Store {
  import opened Common
  import opened FieldMapping

  /** The filter `{ stockId, user }` every operation uses. */
  datatype Key = Key(owner: string, stockId: string)

  type Docs = map<Key, Record>

  const Available: string := "AVAILABLE"
  const Sold: string := "SOLD"

  /** `d.stockId` as the filter sees it; a record without a text stock id
      (which the readers never accept) is keyed by the empty text. */
  function StockIdOf(rec: Record): string {
    if "stockId" in rec && rec["stockId"].Str? then rec["stockId"].s else ""
  }

  /** A stored document whose `availability` is `AVAILABLE`. */
  predicate IsAvailable(doc: Record) {
    "availability" in doc && doc["availability"] == Str(Available)
  }

  /** `{ updateOne: { filter: key, update: { $set: set }, upsert } }`. */
  datatype Op = UpdateOne(key: Key, fields: Record, upsert: bool)

  /** The store after one operation, and whether it inserted a document or
      changed an existing one. */
  datatype Applied = Applied(docs: Docs, inserted: bool, changed: bool)

  /** One `updateOne`: an existing document takes the `$set` fields; a
      missing one is inserted (the filter fields plus the `$set` fields) only
      when `upsert` is on; otherwise nothing happens. */
  function ApplyOp(docs: Docs, op: Op): (r: Applied)
    ensures forall k :: k != op.key ==> (k in r.docs <==> k in docs) && (k in docs ==> r.docs[k] == docs[k])
    ensures op.key in r.docs <==> op.key in docs || op.upsert
    ensures op.key in r.docs ==> forall f :: f in op.fields ==> f in r.docs[op.key] && r.docs[op.key][f] == op.fields[f]
    ensures op.key in docs ==> forall f :: f in docs[op.key] && f !in op.fields ==> f in r.docs[op.key] && r.docs[op.key][f] == docs[op.key][f]
    ensures r.inserted <==> op.key !in docs && op.upsert
    ensures r.changed <==> op.key in docs && r.docs[op.key] != docs[op.key]
  {
    if op.key in docs then
      var doc := docs[op.key] + op.fields;
      Applied(docs[op.key := doc], false, doc != docs[op.key])
    else if op.upsert then
      var doc := map["stockId" := Str(op.key.stockId), "user" := Str(op.key.owner)] + op.fields;
      Applied(docs[op.key := doc], true, false)
    else Applied(docs, false, false)
  }

  /** The store after a `bulkWrite`, with `upsertedCount` (`inserted`) and
      `modifiedCount` (`changed`). */
  datatype BulkResult = BulkResult(docs: Docs, inserted: nat, changed: nat)

  /** `bulkWrite(ops)`, the operations applied in order. */
  function ApplyAll(docs: Docs, ops: seq<Op>): (r: BulkResult)
    ensures r.inserted + r.changed <= |ops|
    decreases |ops|
  {
    if ops == [] then BulkResult(docs, 0, 0)
    else
      var a := ApplyOp(docs, ops[0]);
      var rest := ApplyAll(a.docs, ops[1..]);
      BulkResult(rest.docs, rest.inserted + (if a.inserted then 1 else 0), rest.changed + (if a.changed then 1 else 0))
  }

  /** Some operation targets `k`. */
  predicate Targets(ops: seq<Op>, k: Key) {
    exists i :: 0 <= i < |ops| && ops[i].key == k
  }

  /** A bulk write never removes a document; a key no operation targets is
      left exactly as it was; a new key comes only from an upsert operation
      on it. */
  lemma {:induction false} ApplyAllFrame(docs: Docs, ops: seq<Op>)
    ensures docs.Keys <= ApplyAll(docs, ops).docs.Keys
    ensures forall k :: !Targets(ops, k) ==> (k in ApplyAll(docs, ops).docs <==> k in docs)
    ensures forall k :: !Targets(ops, k) && k in docs ==> ApplyAll(docs, ops).docs[k] == docs[k]
    ensures forall k :: k in ApplyAll(docs, ops).docs && k !in docs ==>
      exists i :: 0 <= i < |ops| && ops[i].key == k && ops[i].upsert
    decreases |ops|
  {
    if ops != [] {
      var a := ApplyOp(docs, ops[0]);
      ApplyAllFrame(a.docs, ops[1..]);
      forall k | !Targets(ops, k) ensures !Targets(ops[1..], k) && ops[0].key != k {
        forall i | 0 <= i < |ops[1..]| ensures ops[1..][i].key != k {
          assert ops[1..][i] == ops[i + 1];
        }
      }
      forall k | k in ApplyAll(docs, ops).docs && k !in docs
        ensures exists i :: 0 <= i < |ops| && ops[i].key == k && ops[i].upsert
      {
        if k in a.docs {
          assert ops[0].key == k && ops[0].upsert;
        } else {
          var i :| 0 <= i < |ops[1..]| && ops[1..][i].key == k && ops[1..][i].upsert;
          assert ops[i + 1] == ops[1..][i];
        }
      }
    }
  }

  /** An empty bulk write changes nothing and counts nothing. */
  lemma EmptyBulkIsNoOp(docs: Docs)
    ensures ApplyAll(docs, []) == BulkResult(docs, 0, 0)
  {
  }

  // ------------------------------------------------------------ deleteMany

  /** The two `deleteMany` filters the service uses. */
  datatype Filter =
    | AvailableOf(owner: string)                   // { user, availability: "AVAILABLE" }
    | StockIdsOf(owner: string, ids: set<string>)  // { user, stockId: { $in: ids } }

  predicate Matches(filter: Filter, k: Key, doc: Record) {
    match filter
    case AvailableOf(owner) => k.owner == owner && IsAvailable(doc)
    case StockIdsOf(owner, ids) => k.owner == owner && k.stockId in ids
  }

  /** The keys a filter selects. */
  function Selected(docs: Docs, filter: Filter): set<Key> {
    set k | k in docs && Matches(filter, k, docs[k])
  }

  /** `deleteMany(filter)`: the documents left and `deletedCount`. */
  function DeleteWhere(docs: Docs, filter: Filter): (r: (Docs, nat))
    ensures forall k :: k in r.0 <==> k in docs && !Matches(filter, k, docs[k])
    ensures forall k :: k in r.0 ==> r.0[k] == docs[k]
    ensures r.1 == |docs.Keys - r.0.Keys|
  {
    var kept := map k | k in docs && !Matches(filter, k, docs[k]) :: docs[k];
    assert docs.Keys - kept.Keys == Selected(docs, filter);
    (kept, |Selected(docs, filter)|)
  }

  /** `find({ user: owner, availability: "AVAILABLE" }, "stockId")`: the
      stock ids of the owner's available documents. */
  function AvailableIds(docs: Docs, owner: string): (ids: set<string>)
    ensures forall id :: id in ids <==> Key(owner, id) in docs && IsAvailable(docs[Key(owner, id)])
  {
    var ids := set k | k in docs && k.owner == owner && IsAvailable(docs[k]) :: k.stockId;
    assert forall id :: Key(owner, id) in docs && IsAvailable(docs[Key(owner, id)]) ==> id in ids by {
      forall id | Key(owner, id) in docs && IsAvailable(docs[Key(owner, id)]) ensures id in ids {
        var k := Key(owner, id);
        assert k.stockId == id;
      }
    }
    ids
  }

  // ------------------------------------------- building the operations

  /** The upsert both builders use for an available record: every field of
      the record, the owner, and `availability: "AVAILABLE"`. */
  function UpsertOf(d: Record, owner: string): (op: Op)
    ensures op.key == Key(owner, StockIdOf(d)) && op.upsert
    ensures forall f :: f in d && f != "user" && f != "availability" ==> f in op.fields && op.fields[f] == d[f]
    ensures op.fields.Keys == d.Keys + {"user", "availability"}
    ensures op.fields["user"] == Str(owner) && op.fields["availability"] == Str(Available)
  {
    UpdateOne(Key(owner, StockIdOf(d)), d["user" := Str(owner)]["availability" := Str(Available)], true)
  }

  /** `isAvailable` in the service: no truthy availability, or exactly
      `AVAILABLE`. */
  predicate ServiceAvailable(d: Record) {
    "availability" !in d || !Truthy(d["availability"]) || d["availability"] == Str(Available)
  }

  /** The service's operation for one record: an available record is
      upserted; any other only has its status set to `SOLD`, without upsert. */
  function ServiceOp(d: Record, owner: string): (op: Op)
    ensures op.key == Key(owner, StockIdOf(d))
    ensures op.upsert <==> ServiceAvailable(d)
    ensures !op.upsert ==> op.fields == map["availability" := Str(Sold)]
  {
    if ServiceAvailable(d) then UpsertOf(d, owner)
    else UpdateOne(Key(owner, StockIdOf(d)), map["availability" := Str(Sold)], false)
  }

  function ServiceOps(recs: seq<Record>, owner: string): (ops: seq<Op>)
    ensures |ops| == |recs| && forall i :: 0 <= i < |recs| ==> ops[i] == ServiceOp(recs[i], owner)
  {
    seq(|recs|, i requires 0 <= i < |recs| => ServiceOp(recs[i], owner))
  }

  /** A record whose `availability`, if present, is text, as the readers
      always produce (availability is not a numeric field). */
  predicate TextStatus(d: Record) {
    "availability" in d ==> d["availability"].Str?
  }

  /** `isAvailable` in the controller: no truthy availability, or one that
      upper-cases to `AVAILABLE`. */
  predicate ControllerAvailable(d: Record)
    requires TextStatus(d)
  {
    "availability" !in d || d["availability"].s == [] || Upper(d["availability"].s) == Available
  }

  /** `createBulkOperations` for one record: an available record is
      upserted; any other has its status set to its upper-cased status,
      without upsert. */
  function ControllerOp(d: Record, owner: string): (op: Op)
    requires TextStatus(d)
    ensures op.key == Key(owner, StockIdOf(d))
    ensures op.upsert <==> ControllerAvailable(d)
    ensures !op.upsert ==> op.fields == map["availability" := Str(Upper(d["availability"].s))]
  {
    if ControllerAvailable(d) then UpsertOf(d, owner)
    else UpdateOne(Key(owner, StockIdOf(d)), map["availability" := Str(Upper(d["availability"].s))], false)
  }

  /** `createBulkOperations(results, owner)`: one operation per record, in
      order; no records give no operations. */
  function CreateBulkOperations(results: seq<Record>, owner: string): (ops: seq<Op>)
    requires forall i :: 0 <= i < |results| ==> TextStatus(results[i])
    ensures |ops| == |results| && forall i :: 0 <= i < |results| ==> ops[i] == ControllerOp(results[i], owner)
  {
    if |results| == 0 then []
    else seq(|results|, i requires 0 <= i < |results| => ControllerOp(results[i], owner))
  }

  /** Every operation either builder makes targets the owner's documents
      only. */
  lemma OpsTargetOwner(recs: seq<Record>, owner: string, k: Key)
    requires k.owner != owner
    ensures !Targets(ServiceOps(recs, owner), k)
    ensures (forall i :: 0 <= i < |recs| ==> TextStatus(recs[i])) ==> !Targets(CreateBulkOperations(recs, owner), k)
  {
  }

  /** The controller treats as available every record the service does,
      and more: the records it alone upserts carry a status with a
      lower-case letter that upper-cases to `AVAILABLE`. */
  lemma ControllerIsMoreLenient(d: Record)
    requires TextStatus(d)
    ensures ServiceAvailable(d) ==> ControllerAvailable(d)
    ensures ControllerAvailable(d) && !ServiceAvailable(d) ==>
      exists i :: 0 <= i < |d["availability"].s| && 'a' <= d["availability"].s[i] <= 'z'
  {
    if "availability" in d && d["availability"] == Str(Available) {
      assert Upper(Available) == Available by {
        assert forall i :: 0 <= i < |Available| ==> UpperChar(Available[i]) == Available[i];
      }
    }
    if ControllerAvailable(d) && !ServiceAvailable(d) {
      UpperOfAvailable(d["availability"].s);
    }
  }

  /** A lower-case `available` is where the builders differ: the service
      marks the record `SOLD` without inserting it, the controller upserts
      it as `AVAILABLE`. */
  lemma BuildersDisagreeOnCase(owner: string)
    ensures !ServiceOp(LowerCaseStatus, owner).upsert
    ensures ServiceOp(LowerCaseStatus, owner).fields == map["availability" := Str(Sold)]
    ensures ControllerOp(LowerCaseStatus, owner).upsert
    ensures ControllerOp(LowerCaseStatus, owner).fields["availability"] == Str(Available)
  {
    var s := "available";
    assert Upper(s) == Available by {
      assert forall i :: 0 <= i < |s| ==> UpperChar(s[i]) == Available[i];
    }
    assert s != Available by {
      assert s[0] != Available[0];
    }
  }

  const LowerCaseStatus: Record := map["stockId" := Str("A1"), "carat" := Num(1.0), "availability" := Str("available")]

  /** A status is a status the service treats as available only when it is
      `AVAILABLE` exactly; upper-casing maps it there from more spellings. */
  lemma UpperOfAvailable(s: string)
    requires Upper(s) == Available && s != Available
    ensures exists i :: 0 <= i < |s| && 'a' <= s[i] <= 'z'
  {
    var i :| 0 <= i < |s| && s[i] != Available[i];
    assert UpperChar(s[i]) == Available[i];
  }

  // ----------------------------------------------------------- the store

  /** The diamond collection. */
  class Diamonds {
    var docs: Docs

    constructor (initial: Docs)
      ensures docs == initial
    {
      docs := initial;
    }

    /** `Diamond.find({ user: owner, availability: "AVAILABLE" }, "stockId")`. */
    method FindAvailableIds(owner: string) returns (ids: set<string>)
      ensures ids == AvailableIds(docs, owner)
    {
      ids := AvailableIds(docs, owner);
    }

    /** `Diamond.findOne({ stockId, user })` and `findById`. */
    method FindOne(k: Key) returns (doc: Option<Record>)
      ensures k in docs ==> doc == Some(docs[k])
      ensures k !in docs ==> doc == None
    {
      doc := if k in docs then Some(docs[k]) else None;
    }

    /** `Diamond.bulkWrite(ops, { ordered: false })`. */
    method BulkWrite(ops: seq<Op>) returns (inserted: nat, changed: nat)
      modifies this
      ensures docs == ApplyAll(old(docs), ops).docs
      ensures inserted == ApplyAll(old(docs), ops).inserted && changed == ApplyAll(old(docs), ops).changed
    {
      var r := ApplyAll(docs, ops);
      docs, inserted, changed := r.docs, r.inserted, r.changed;
    }

    /** `Diamond.deleteMany(filter)`, returning `deletedCount`. */
    method DeleteMany(filter: Filter) returns (deleted: nat)
      modifies this
      ensures (docs, deleted) == DeleteWhere(old(docs), filter)
    {
      var r := DeleteWhere(docs, filter);
      docs, deleted := r.0, r.1;
    }

    /** `Diamond.create(doc)` and `doc.save()` of a loaded document. */
    method Save(k: Key, doc: Record)
      modifies this
      ensures docs == old(docs)[k := doc]
    {
      docs := docs[k := doc];
    }
  }
}
