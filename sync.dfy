/** `syncInventoryFromApi` (services/inventoryService.js): fetch a feed,
    read it as JSON or else as CSV, upsert one operation per record, and
    hard-delete the owner's available stock ids that the feed no longer
    lists. The HTTP client is a parameter: `fetch` maps the converted URL to
    what the request gives. */
module Sync {
  import opened Common
  import opened Numeric
  import opened SheetsUrl
  import opened Normalize
  import opened FieldMapping
  import opened JsonFeed
  import opened Batch
  import opened Store

  /** The statuses axios resolves with: its default `validateStatus`
      accepts exactly 2xx. */
  type SuccessStatus = s: nat | 200 <= s < 300 witness 200

  /** What `axios.get(url, { responseType: "text" })` gives: the error it
      throws (a network error, or a status outside 2xx), or the status, the
      body text, what `JSON.parse` makes of the body (`None` when it throws)
      and what the CSV reader makes of it. */
  datatype Response =
    | FetchFailed(message: string)
    | Fetched(status: SuccessStatus, body: string, json: Option<Json>, csv: CsvInput)

  const AxiosStatusPrefix: string := "Request failed with status code "

  /** The request's outcome once the server has answered with `status`: a
      status outside 2xx is thrown as axios's own error. */
  function Answer(status: nat, body: string, json: Option<Json>, csv: CsvInput): (r: Response)
    ensures r.Fetched? <==> 200 <= status < 300
  {
    if 200 <= status < 300 then Fetched(status, body, json, csv)
    else FetchFailed(AxiosStatusPrefix + NatText(status))
  }

  /** The object the service returns; `total` is absent for an empty feed. */
  datatype SyncResult =
    | Synced(message: string, total: Option<nat>, added: nat, updated: nat, removed: nat)
    | SyncFailed(message: string)

  const EmptyFeedMessage: string := "Feed was empty. Removed all available listings."
  const DoneMessage: string := "API sync completed successfully."
  const UnexpectedMessage: string := "An unexpected error occurred."
  const StatusPrefix: string := "API returned status "

  /** `error.message || "An unexpected error occurred."`. */
  function ErrorMessage(message: string): (r: string)
    ensures r != []
  {
    if message == [] then UnexpectedMessage else message
  }

  /** The records of a non-empty body: the JSON reading when the body parses
      and `processJsonData` returns, otherwise the CSV reading of the same
      text. */
  function FeedOutcome(table: ValueTable, response: Response, m: Mapping): Outcome
    requires response.Fetched?
  {
    if response.json.Some? && JsonOutcome(table, response.json.value, m).Accepted? then
      JsonOutcome(table, response.json.value, m)
    else CsvOutcome(table, response.csv, m)
  }

  /** `apiStockIds`. */
  function FeedIds(recs: seq<Record>): set<string> {
    set i | 0 <= i < |recs| :: StockIdOf(recs[i])
  }

  /** The store and the counts after reconciling the owner's documents with
      the feed's records. */
  datatype Reconciled = Reconciled(docs: Docs, added: nat, updated: nat, removed: nat)

  /** Snapshot the owner's available ids, bulk-write one service operation
      per record, then delete the snapshot ids the feed does not list. */
  function Reconcile(docs: Docs, owner: string, recs: seq<Record>): Reconciled {
    var snapshot := AvailableIds(docs, owner);
    var bulk := ApplyAll(docs, ServiceOps(recs, owner));
    var stale := snapshot - FeedIds(recs);
    if |stale| > 0 then
      var (left, removed) := DeleteWhere(bulk.docs, StockIdsOf(owner, stale));
      Reconciled(left, bulk.inserted, bulk.changed, removed)
    else Reconciled(bulk.docs, bulk.inserted, bulk.changed, 0)
  }

  /** What `syncInventoryFromApi` returns and the store it leaves, given the
      store before and what the request gives. */
  function SyncSpec(docs: Docs, table: ValueTable, response: Response, m: Mapping, owner: string): (SyncResult, Docs) {
    match response
    case FetchFailed(message) => (SyncFailed(ErrorMessage(message)), docs)
    case Fetched(status, body, _, _) =>
      if status != 200 then (SyncFailed(StatusPrefix + NatText(status)), docs)
      else if body == [] then
        var (left, removed) := DeleteWhere(docs, AvailableOf(owner));
        (Synced(EmptyFeedMessage, None, 0, 0, removed), left)
      else
        match FeedOutcome(table, response, m)
        case Failed(message) => (SyncFailed(ErrorMessage(message)), docs)
        case Accepted(recs) =>
          var r := Reconcile(docs, owner, recs);
          (Synced(DoneMessage, Some(|recs|), r.added, r.updated, r.removed), r.docs)
  }

  /** `syncInventoryFromApi(rawApiUrl, userMapping, owner)` against the
      diamond collection. */
  method SyncInventoryFromApi(db: Diamonds, table: ValueTable, fetch: string -> Response, rawUrl: string, m: Mapping, owner: string)
    returns (result: SyncResult)
    modifies db
    ensures (result, db.docs) == SyncSpec(old(db.docs), table, fetch(ConvertGoogleSheetsUrl(rawUrl)), m, owner)
  {
    var snapshot := db.FindAvailableIds(owner);
    var url := ConvertGoogleSheetsUrl(rawUrl);
    var response := fetch(url);
    if response.FetchFailed? {
      return SyncFailed(ErrorMessage(response.message));
    }
    if response.status != 200 {
      return SyncFailed(StatusPrefix + NatText(response.status));
    }
    if response.body == [] {
      var removed := db.DeleteMany(AvailableOf(owner));
      return Synced(EmptyFeedMessage, None, 0, 0, removed);
    }
    var outcome := ReadFeed(table, response, m);
    if outcome.Failed? {
      return SyncFailed(ErrorMessage(outcome.message));
    }
    var recs := outcome.records;
    var added, updated, removed := ReconcileStore(db, owner, snapshot, recs);
    return Synced(DoneMessage, Some(|recs|), added, updated, removed);
  }

  /** The inner `try`: `processJsonData` on the parsed body, and on any
      error `processCsvStreamWithMapping` on the same text. */
  method ReadFeed(table: ValueTable, response: Response, m: Mapping) returns (outcome: Outcome)
    requires response.Fetched?
    ensures outcome == FeedOutcome(table, response, m)
  {
    outcome := Failed("");
    if response.json.Some? {
      outcome := ProcessJsonData(table, response.json.value, m);
    }
    if outcome.Failed? {
      outcome := ProcessCsvStreamWithMapping(table, response.csv, m);
    }
  }

  /** Build the operations, bulk-write them, and delete the stale ids of the
      snapshot taken before the fetch. */
  method ReconcileStore(db: Diamonds, owner: string, snapshot: set<string>, recs: seq<Record>)
    returns (added: nat, updated: nat, removed: nat)
    requires snapshot == AvailableIds(db.docs, owner)
    modifies db
    ensures Reconcile(old(db.docs), owner, recs) == Reconciled(db.docs, added, updated, removed)
  {
    var feedIds := FeedIds(recs);
    added, updated := db.BulkWrite(ServiceOps(recs, owner));
    var stale := snapshot - feedIds;
    removed := 0;
    if |stale| > 0 {
      removed := db.DeleteMany(StockIdsOf(owner, stale));
    }
  }

  // -------------------------------------------------------------- lemmas

  /** A failed sync leaves the store as it was. */
  lemma FailureLeavesStoreUnchanged(docs: Docs, table: ValueTable, response: Response, m: Mapping, owner: string)
    requires SyncSpec(docs, table, response, m, owner).0.SyncFailed?
    ensures SyncSpec(docs, table, response, m, owner).1 == docs
    ensures SyncSpec(docs, table, response, m, owner).0.message != []
  {
  }

  /** A 2xx status other than 200 is reported with its number by the
      service's own check. */
  lemma BadStatusIsReported(docs: Docs, table: ValueTable, status: SuccessStatus, body: string, json: Option<Json>, csv: CsvInput, m: Mapping, owner: string)
    requires status != 200
    ensures SyncSpec(docs, table, Fetched(status, body, json, csv), m, owner).0 == SyncFailed(StatusPrefix + NatText(status))
  {
  }

  /** A status outside 2xx never reaches that check: the sync fails with
      axios's message, and the store is unchanged. */
  lemma ErrorStatusIsThrown(docs: Docs, table: ValueTable, status: nat, body: string, json: Option<Json>, csv: CsvInput, m: Mapping, owner: string)
    requires status < 200 || 300 <= status
    ensures SyncSpec(docs, table, Answer(status, body, json, csv), m, owner) ==
      (SyncFailed(AxiosStatusPrefix + NatText(status)), docs)
  {
  }

  /** An empty body removes every available document of the owner and
      nothing else, and reports their number as removed with nothing added
      or updated. */
  lemma EmptyBodyRemovesAvailable(docs: Docs, table: ValueTable, json: Option<Json>, csv: CsvInput, m: Mapping, owner: string)
    ensures var (result, after) := SyncSpec(docs, table, Fetched(200, [], json, csv), m, owner);
      result == Synced(EmptyFeedMessage, None, 0, 0, |Selected(docs, AvailableOf(owner))|) &&
      (forall k :: k in after <==> k in docs && !(k.owner == owner && IsAvailable(docs[k]))) &&
      (forall k :: k in after ==> after[k] == docs[k])
  {
    var (left, removed) := DeleteWhere(docs, AvailableOf(owner));
    assert docs.Keys - left.Keys == Selected(docs, AvailableOf(owner));
  }

  /** Reconciliation touches only the owner's documents. */
  lemma ReconcileFrame(docs: Docs, owner: string, recs: seq<Record>, k: Key)
    requires k.owner != owner
    ensures var after := Reconcile(docs, owner, recs).docs;
      (k in after <==> k in docs) && (k in docs ==> after[k] == docs[k])
  {
    OpsTargetOwner(recs, owner, k);
    ApplyAllFrame(docs, ServiceOps(recs, owner));
  }

  /** Whatever the outcome, the documents of other owners are untouched. */
  lemma OtherOwnersUntouched(docs: Docs, table: ValueTable, response: Response, m: Mapping, owner: string, k: Key)
    requires k.owner != owner
    ensures var after := SyncSpec(docs, table, response, m, owner).1;
      (k in after <==> k in docs) && (k in docs ==> after[k] == docs[k])
  {
    if response.Fetched? && response.status == 200 && response.body != [] {
      var outcome := FeedOutcome(table, response, m);
      if outcome.Accepted? {
        ReconcileFrame(docs, owner, outcome.records, k);
      }
    }
  }

  /** The records of a successful sync, when it read a feed. */
  predicate FedBy(table: ValueTable, response: Response, m: Mapping, recs: seq<Record>) {
    response.Fetched? && response.status == 200 && response.body != [] && FeedOutcome(table, response, m) == Accepted(recs)
  }

  /** A sync that read a feed reconciles the store with its records and
      reports the record count, the inserted and changed counts of the bulk
      write, and the number of stale documents deleted. */
  lemma SyncReconciles(docs: Docs, table: ValueTable, response: Response, m: Mapping, owner: string, recs: seq<Record>)
    requires FedBy(table, response, m, recs)
    ensures var r := Reconcile(docs, owner, recs);
      SyncSpec(docs, table, response, m, owner) == (Synced(DoneMessage, Some(|recs|), r.added, r.updated, r.removed), r.docs)
    ensures Reconcile(docs, owner, recs).added + Reconcile(docs, owner, recs).updated <= |recs|
  {
  }

  /** The store after reconciliation is the store after the bulk write less
      the owner's stale ids. */
  lemma ReconcileDeletesStale(docs: Docs, owner: string, recs: seq<Record>, k: Key)
    ensures var after := Reconcile(docs, owner, recs).docs;
      var bulk := ApplyAll(docs, ServiceOps(recs, owner)).docs;
      var stale := AvailableIds(docs, owner) - FeedIds(recs);
      (k in after <==> k in bulk && !(k.owner == owner && k.stockId in stale)) &&
      (k in after ==> after[k] == bulk[k])
  {
    var stale := AvailableIds(docs, owner) - FeedIds(recs);
    if k.owner == owner && k.stockId in stale {
      assert |stale| > 0;
    }
  }

  /** A stock id in the pre-sync available snapshot that the feed does not
      list is gone afterwards. */
  lemma StaleIdsAreRemoved(docs: Docs, owner: string, recs: seq<Record>, id: string)
    requires id in AvailableIds(docs, owner) && id !in FeedIds(recs)
    ensures Key(owner, id) !in Reconcile(docs, owner, recs).docs
  {
    ReconcileDeletesStale(docs, owner, recs, Key(owner, id));
  }

  /** A document reconciliation adds belongs to the owner and comes from a
      feed record with its stock id that the service counts as available; a
      record marked otherwise never creates one. */
  lemma OnlyAvailableRecordsAreInserted(docs: Docs, owner: string, recs: seq<Record>, k: Key)
    requires k in Reconcile(docs, owner, recs).docs && k !in docs
    ensures k.owner == owner
    ensures exists i :: 0 <= i < |recs| && StockIdOf(recs[i]) == k.stockId && ServiceAvailable(recs[i])
  {
    var ops := ServiceOps(recs, owner);
    ApplyAllFrame(docs, ops);
    var i :| 0 <= i < |ops| && ops[i].key == k && ops[i].upsert;
  }

  /** After reconciliation every available document of the owner has a
      stock id the feed lists. */
  lemma AvailableAfterSyncAreInFeed(docs: Docs, owner: string, recs: seq<Record>, id: string)
    requires id in AvailableIds(Reconcile(docs, owner, recs).docs, owner)
    ensures id in FeedIds(recs)
  {
    var ops := ServiceOps(recs, owner);
    var k := Key(owner, id);
    ReconcileDeletesStale(docs, owner, recs, k);
    ApplyAllFrame(docs, ops);
    if Targets(ops, k) {
      var i :| 0 <= i < |ops| && ops[i].key == k;
      assert StockIdOf(recs[i]) == id;
    } else {
      assert id in AvailableIds(docs, owner);
    }
  }

  /** Feed records with distinct stock ids, as in a feed of one row per
      stone. */
  predicate DistinctIds(recs: seq<Record>) {
    forall i, j :: 0 <= i < j < |recs| ==> StockIdOf(recs[i]) != StockIdOf(recs[j])
  }

  /** With distinct stock ids, every record the service counts as available
      is stored as available afterwards, and every other record is marked
      `SOLD` when its document existed and stays absent otherwise. */
  lemma FeedStatusIsStored(docs: Docs, owner: string, recs: seq<Record>, i: nat)
    requires DistinctIds(recs) && i < |recs|
    ensures var after := Reconcile(docs, owner, recs).docs;
      var k := Key(owner, StockIdOf(recs[i]));
      (ServiceAvailable(recs[i]) ==> k in after && IsAvailable(after[k])) &&
      (!ServiceAvailable(recs[i]) ==> (k in after <==> k in docs)) &&
      (!ServiceAvailable(recs[i]) && k in after ==> "availability" in after[k] && after[k]["availability"] == Str(Sold))
  {
    var k := Key(owner, StockIdOf(recs[i]));
    BulkStoresStatus(docs, owner, recs, i);
    assert StockIdOf(recs[i]) in FeedIds(recs);
    ReconcileDeletesStale(docs, owner, recs, k);
  }

  /** The same for the store right after the bulk write. */
  lemma BulkStoresStatus(docs: Docs, owner: string, recs: seq<Record>, i: nat)
    requires DistinctIds(recs) && i < |recs|
    ensures var after := ApplyAll(docs, ServiceOps(recs, owner)).docs;
      var k := Key(owner, StockIdOf(recs[i]));
      (ServiceAvailable(recs[i]) ==> k in after && IsAvailable(after[k])) &&
      (!ServiceAvailable(recs[i]) ==> (k in after <==> k in docs)) &&
      (!ServiceAvailable(recs[i]) && k in after ==> "availability" in after[k] && after[k]["availability"] == Str(Sold))
  {
    var ops := ServiceOps(recs, owner);
    var k := Key(owner, StockIdOf(recs[i]));
    forall j | 0 <= j < |ops| && j != i ensures ops[j].key != ops[i].key {
      if j < i {
        assert StockIdOf(recs[j]) != StockIdOf(recs[i]);
      } else {
        assert StockIdOf(recs[i]) != StockIdOf(recs[j]);
      }
    }
    OnlyTargetOf(docs, ops, i);
    var op := ServiceOp(recs[i], owner);
    assert ops[i] == op && op.key == k;
    if ServiceAvailable(recs[i]) {
      assert "availability" in op.fields && op.fields["availability"] == Str(Available);
    } else {
      assert "availability" in op.fields && op.fields["availability"] == Str(Sold);
    }
  }

  /** When only the operation at `i` targets its key, that operation decides
      whether the document exists and its `$set` fields hold afterwards. */
  lemma {:induction false} OnlyTargetOf(docs: Docs, ops: seq<Op>, i: nat)
    requires i < |ops| && forall j :: 0 <= j < |ops| && j != i ==> ops[j].key != ops[i].key
    ensures var k := ops[i].key; var after := ApplyAll(docs, ops).docs;
      (k in after <==> k in docs || ops[i].upsert) &&
      (k in after ==> forall f :: f in ops[i].fields ==> f in after[k] && after[k][f] == ops[i].fields[f])
    decreases |ops|
  {
    var k := ops[i].key;
    var a := ApplyOp(docs, ops[0]);
    if i == 0 {
      forall j | 0 <= j < |ops[1..]| ensures ops[1..][j].key != k {
        assert ops[1..][j] == ops[j + 1];
      }
      ApplyAllFrame(a.docs, ops[1..]);
    } else {
      forall j | 0 <= j < |ops[1..]| && j != i - 1 ensures ops[1..][j].key != ops[1..][i - 1].key {
        assert ops[1..][j] == ops[j + 1];
      }
      OnlyTargetOf(a.docs, ops[1..], i - 1);
    }
  }

  /** With distinct stock ids, the owner's available stock ids after
      reconciliation are exactly the ids of the records the service counts
      as available: the feed is mirrored. */
  lemma FeedIsMirrored(docs: Docs, owner: string, recs: seq<Record>, id: string)
    requires DistinctIds(recs)
    ensures id in AvailableIds(Reconcile(docs, owner, recs).docs, owner) <==>
      exists i :: 0 <= i < |recs| && StockIdOf(recs[i]) == id && ServiceAvailable(recs[i])
  {
    var after := Reconcile(docs, owner, recs).docs;
    if id in AvailableIds(after, owner) {
      AvailableAfterSyncAreInFeed(docs, owner, recs, id);
      var i :| 0 <= i < |recs| && StockIdOf(recs[i]) == id;
      FeedStatusIsStored(docs, owner, recs, i);
      assert ServiceAvailable(recs[i]);
    }
    if exists i :: 0 <= i < |recs| && StockIdOf(recs[i]) == id && ServiceAvailable(recs[i]) {
      var i :| 0 <= i < |recs| && StockIdOf(recs[i]) == id && ServiceAvailable(recs[i]);
      FeedStatusIsStored(docs, owner, recs, i);
      assert Key(owner, id) in after && IsAvailable(after[Key(owner, id)]);
    }
  }

  /** Every operation is already reflected in `d`: its document exists and
      holds its `$set` fields, or is absent and would not be upserted. */
  predicate Settled(d: Docs, ops: seq<Op>) {
    forall i :: 0 <= i < |ops| ==>
      (ops[i].key in d ==> forall f :: f in ops[i].fields ==> f in d[ops[i].key] && d[ops[i].key][f] == ops[i].fields[f]) &&
      (ops[i].key !in d ==> !ops[i].upsert)
  }

  /** A bulk write of settled operations changes and counts nothing. */
  lemma {:induction false} SettledIsQuiet(d: Docs, ops: seq<Op>)
    requires Settled(d, ops)
    ensures ApplyAll(d, ops) == BulkResult(d, 0, 0)
    decreases |ops|
  {
    if ops != [] {
      var op := ops[0];
      if op.key in d {
        var doc := d[op.key] + op.fields;
        assert doc == d[op.key];
        assert d[op.key := doc] == d;
      }
      assert ApplyOp(d, op) == Applied(d, false, false);
      assert Settled(d, ops[1..]) by {
        forall i | 0 <= i < |ops[1..]| ensures ops[1..][i] == ops[i + 1] {
        }
      }
      SettledIsQuiet(d, ops[1..]);
    }
  }

  /** With distinct stock ids, the store a reconciliation leaves has settled
      every operation of the same feed. */
  lemma ReconcileSettles(docs: Docs, owner: string, recs: seq<Record>)
    requires DistinctIds(recs)
    ensures Settled(Reconcile(docs, owner, recs).docs, ServiceOps(recs, owner))
  {
    var ops := ServiceOps(recs, owner);
    var after := Reconcile(docs, owner, recs).docs;
    forall i | 0 <= i < |ops|
      ensures ops[i].key in after ==> forall f :: f in ops[i].fields ==> f in after[ops[i].key] && after[ops[i].key][f] == ops[i].fields[f]
      ensures ops[i].key !in after ==> !ops[i].upsert
    {
      forall j | 0 <= j < |ops| && j != i ensures ops[j].key != ops[i].key {
        if j < i {
          assert StockIdOf(recs[j]) != StockIdOf(recs[i]);
        } else {
          assert StockIdOf(recs[i]) != StockIdOf(recs[j]);
        }
      }
      OnlyTargetOf(docs, ops, i);
      assert StockIdOf(recs[i]) in FeedIds(recs);
      ReconcileDeletesStale(docs, owner, recs, ops[i].key);
    }
  }

  /** Syncing again with an unchanged feed of distinct stock ids adds,
      updates and removes nothing, and leaves the store as it is. */
  lemma ReconcileTwiceIsQuiet(docs: Docs, owner: string, recs: seq<Record>)
    requires DistinctIds(recs)
    ensures var r1 := Reconcile(docs, owner, recs);
      Reconcile(r1.docs, owner, recs) == Reconciled(r1.docs, 0, 0, 0)
  {
    var d := Reconcile(docs, owner, recs).docs;
    ReconcileSettles(docs, owner, recs);
    SettledIsQuiet(d, ServiceOps(recs, owner));
    forall id | id in AvailableIds(d, owner) ensures id in FeedIds(recs) {
      AvailableAfterSyncAreInFeed(docs, owner, recs, id);
    }
    assert AvailableIds(d, owner) - FeedIds(recs) == {};
  }

  /** The same for the whole sync: a second run on the same response
      reports the same record count, zero adds, updates and removals, and
      changes nothing. */
  lemma SyncTwiceIsQuiet(docs: Docs, table: ValueTable, response: Response, m: Mapping, owner: string, recs: seq<Record>)
    requires FedBy(table, response, m, recs) && DistinctIds(recs)
    ensures var after := SyncSpec(docs, table, response, m, owner).1;
      SyncSpec(after, table, response, m, owner) == (Synced(DoneMessage, Some(|recs|), 0, 0, 0), after)
  {
    var after := Reconcile(docs, owner, recs).docs;
    SyncReconciles(docs, table, response, m, owner, recs);
    SyncReconciles(after, table, response, m, owner, recs);
    ReconcileTwiceIsQuiet(docs, owner, recs);
  }

  /** A body that parses as JSON but whose list cannot be found, or whose
      every row fails, is read again as CSV. */
  lemma JsonFailureFallsBackToCsv(table: ValueTable, status: SuccessStatus, body: string, data: Json, csv: CsvInput, m: Mapping)
    requires Unwrap(data).None? || AllRowsFailed(JsonRows(table, Unwrap(data).value, m))
    ensures FeedOutcome(table, Fetched(status, body, Some(data), csv), m) == CsvOutcome(table, csv, m)
  {
    if Unwrap(data).Some? {
      VerdictMeaning(JsonRows(table, Unwrap(data).value, m), JsonFailurePrefix);
    }
  }

  /** The fallback turns a rejected JSON feed into an empty one: when every
      JSON row fails and the CSV reading of the same text has no data lines
      (a one-line JSON text is read as a header line only), the sync
      succeeds and leaves the owner with no available document. */
  lemma RejectedJsonClearsAvailable(docs: Docs, table: ValueTable, body: string, data: Json, headers: seq<string>, m: Mapping, owner: string)
    requires body != [] && JsonOutcome(table, data, m).Failed?
    ensures var (result, after) := SyncSpec(docs, table, Fetched(200, body, Some(data), CsvTable(headers, [])), m, owner);
      result.Synced? && result.total == Some(0) && AvailableIds(after, owner) == {}
  {
    var response := Fetched(200, body, Some(data), CsvTable(headers, []));
    assert Collect(CsvRows(table, Inverted(m), headers, [])) == ([], []);
    assert FeedOutcome(table, response, m) == Accepted([]);
    SyncReconciles(docs, table, response, m, owner, []);
    forall id | id in AvailableIds(Reconcile(docs, owner, []).docs, owner) ensures false {
      AvailableAfterSyncAreInFeed(docs, owner, [], id);
    }
  }

  /** A one-line feed whose only item has a member that is an object with a
      `toString` member: normalising the item throws, the JSON reading
      fails, the CSV reading of the same text has no data lines, and the
      sync succeeds with zero records and removes every available listing
      of the owner. */
  lemma ToStringFeedClearsAvailable(docs: Docs, table: ValueTable, body: string, members: seq<(string, Json)>, key: string,
                                    headers: seq<string>, m: Mapping, owner: string)
    requires body != [] && Member(members, key).Some? && Member(members, key).value.JObject?
    requires HasToStringMember(Member(members, key).value.members)
    ensures var (result, after) := SyncSpec(docs, table, Fetched(200, body, Some(JArray([JObject(members)])), CsvTable(headers, [])), m, owner);
      result.Synced? && result.total == Some(0) && AvailableIds(after, owner) == {}
  {
    ToStringMemberFailsTheFeed(table, m, members, key);
    RejectedJsonClearsAvailable(docs, table, body, JArray([JObject(members)]), headers, m, owner);
  }
}
