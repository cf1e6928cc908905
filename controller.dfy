/** The inventory controller (controllers/inventoryController.js): who a
    request acts for, header preview, manual entry, file imports, listing
    with paging, and the status update. Requests and replies are reduced to
    the fields the code reads and the status, flag and message it sends. */
module InventoryController {
  import opened Common
  import opened Numeric
  import opened SheetsUrl
  import opened Normalize
  import opened FieldMapping
  import JsonFeed
  import opened Batch
  import opened Store
  import opened Sync

  /** `req.user`: its `_id` (empty when missing) and role. */
  datatype User = User(id: string, role: string)

  const Admin: string := "Admin"

  /** `getUserId(req, sellerId)`; an empty `sellerId` is a falsy one. */
  function GetUserId(user: Option<User>, sellerId: string): Option<string> {
    if user.Some? && user.value.role == Admin && sellerId != "" then Some(sellerId)
    else if user.Some? && user.value.id != "" then Some(user.value.id)
    else None
  }

  /** An admin who names a seller acts for that seller; anyone else acts for
      themself when they have an id, and for nobody otherwise: a non-admin
      can never act for someone else, and the owner is never empty. */
  lemma GetUserIdMeaning(user: Option<User>, sellerId: string)
    ensures user.Some? && user.value.role == Admin && sellerId != "" ==> GetUserId(user, sellerId) == Some(sellerId)
    ensures user.Some? && user.value.role != Admin ==> GetUserId(user, sellerId) == (if user.value.id != "" then Some(user.value.id) else None)
    ensures user.None? ==> GetUserId(user, sellerId) == None
    ensures GetUserId(user, sellerId).Some? ==> GetUserId(user, sellerId).value != ""
  {
  }

  // ------------------------------------------------------------- headers

  const EmptyFileMessage: string := "Cannot get headers from an empty file."

  /** `getHeaders(buffer)`: an empty buffer is rejected; otherwise the header
      line the CSV reader reports, each header cleaned, or the reader's
      error. */
  function GetHeaders(buffer: string, csv: CsvInput): Result<seq<string>> {
    if buffer == [] then Err(EmptyFileMessage)
    else match csv
      case CsvStreamError(message) => Err(message)
      case CsvTable(headers, _) => Ok(seq(|headers|, i requires 0 <= i < |headers| => Rows.CleanHeader(headers[i])))
  }

  /** Headers come back one per reported header, in order, trimmed and
      without a leading byte-order mark; an empty buffer is an error. */
  lemma GetHeadersMeaning(buffer: string, csv: CsvInput)
    ensures buffer == [] ==> GetHeaders(buffer, csv) == Err(EmptyFileMessage)
    ensures GetHeaders(buffer, csv).Ok? ==> csv.CsvTable? && |GetHeaders(buffer, csv).value| == |csv.headers|
    ensures GetHeaders(buffer, csv).Ok? ==> forall i :: 0 <= i < |csv.headers| ==>
      var h := GetHeaders(buffer, csv).value[i];
      h == Trim(csv.headers[i]) && Trim(h) == h && (h == [] || h[0] != Rows.Bom)
  {
    if GetHeaders(buffer, csv).Ok? {
      forall i | 0 <= i < |csv.headers| ensures
        var h := GetHeaders(buffer, csv).value[i];
        h == Trim(csv.headers[i]) && Trim(h) == h && (h == [] || h[0] != Rows.Bom)
      {
        Rows.CleanHeaderIsTrim(csv.headers[i]);
      }
    }
  }

  const PreviewPrefix: string := "Failed to get headers from URL: "
  const NoHeadersMessage: string := "Could not extract any headers from the URL."
  const UrlRequiredMessage: string := "apiUrl is required."

  /** The headers of a fetched body: the keys of the JSON sample object when
      the body parses and has one, otherwise the CSV header line. */
  function BodyHeaders(body: string, json: Option<JsonFeed.Json>, csv: CsvInput): Result<seq<string>> {
    if json.Some? && JsonFeed.PreviewSample(json.value).Some? then Ok(JsonFeed.SampleKeys(JsonFeed.PreviewSample(json.value).value))
    else GetHeaders(body, csv)
  }

  /** `previewHeadersFromUrl`: the status and the headers or the message. */
  function PreviewHeadersFromUrl(apiUrl: string, fetch: string -> Response): (nat, Result<seq<string>>) {
    if apiUrl == [] then (400, Err(UrlRequiredMessage))
    else
      match fetch(ConvertGoogleSheetsUrl(apiUrl))
      case FetchFailed(message) => (500, Err(PreviewPrefix + message))
      case Fetched(_, body, json, csv) =>
        match BodyHeaders(body, json, csv)
        case Err(message) => (500, Err(PreviewPrefix + message))
        case Ok(headers) =>
          if headers == [] then (500, Err(PreviewPrefix + NoHeadersMessage)) else (200, Ok(headers))
  }

  /** A successful preview has at least one header; it is the sample's keys
      when the JSON has a truthy sample, and the cleaned CSV header line
      otherwise. */
  lemma PreviewMeaning(apiUrl: string, fetch: string -> Response)
    ensures var (status, r) := PreviewHeadersFromUrl(apiUrl, fetch);
      (status == 200 <==> r.Ok?) && (r.Ok? ==> r.value != [])
    ensures var (status, r) := PreviewHeadersFromUrl(apiUrl, fetch);
      r.Ok? ==> var resp := fetch(ConvertGoogleSheetsUrl(apiUrl));
        resp.Fetched? && apiUrl != [] &&
        (resp.json.Some? && JsonFeed.PreviewSample(resp.json.value).Some? ==> r.value == JsonFeed.SampleKeys(JsonFeed.PreviewSample(resp.json.value).value)) &&
        (resp.json.None? || JsonFeed.PreviewSample(resp.json.value).None? ==> r == GetHeaders(resp.body, resp.csv))
  {
  }

  /** A server answering with a status outside 2xx makes axios throw, and
      the preview replies 500 with axios's message. */
  lemma PreviewErrorStatus(apiUrl: string, fetch: string -> Response, status: nat, body: string, json: Option<JsonFeed.Json>, csv: CsvInput)
    requires apiUrl != [] && (status < 200 || 300 <= status)
    requires fetch(ConvertGoogleSheetsUrl(apiUrl)) == Answer(status, body, json, csv)
    ensures PreviewHeadersFromUrl(apiUrl, fetch) == (500, Err(PreviewPrefix + AxiosStatusPrefix + NatText(status)))
  {
    assert PreviewPrefix + (AxiosStatusPrefix + NatText(status)) == PreviewPrefix + AxiosStatusPrefix + NatText(status);
  }

  /** A feed wrapped in `result` is read by the service but not by the
      preview, which reads its text as CSV. */
  lemma PreviewReadsResultWrapperAsCsv(body: string, csv: CsvInput)
    ensures BodyHeaders(body, Some(JsonFeed.ResultWrapped), csv) == GetHeaders(body, csv)
    ensures JsonFeed.Unwrap(JsonFeed.ResultWrapped).Some?
  {
    JsonFeed.PreviewIgnoresResult();
  }

  // ---------------------------------------------------------- manual entry

  /** A reply: the status, the `success` flag and the message. */
  datatype Reply = Reply(status: nat, success: bool, message: string)

  const RequiredMessage: string := "Stock ID and Carat are required."
  const NoUserMessage: string := "User identification failed."
  const DuplicateMessage: string := "Diamond with this Stock ID already exists."

  /** A request body whose stock id, if present, is text. */
  predicate TextStockId(body: Record) {
    "stockId" in body ==> body["stockId"].Str?
  }

  /** `addManualDiamond`: the reply and the store after it. */
  function AddManualSpec(docs: Docs, body: Record, user: Option<User>, sellerId: string): (Reply, Docs)
    requires TextStockId(body)
  {
    if "stockId" !in body || !Truthy(body["stockId"]) || "carat" !in body || !Truthy(body["carat"]) then
      (Reply(400, false, RequiredMessage), docs)
    else match GetUserId(user, sellerId)
      case None => (Reply(400, false, NoUserMessage), docs)
      case Some(owner) =>
        var k := Key(owner, StockIdOf(body));
        if k in docs then (Reply(400, false, DuplicateMessage), docs)
        else (Reply(201, true, ""), docs[k := body["user" := Str(owner)]])
  }

  /** A manual entry never overwrites: it adds exactly one new document,
      keyed by the acting owner and the body's stock id, holding the body
      with the owner; every rejection leaves the store as it was. */
  lemma AddManualMeaning(docs: Docs, body: Record, user: Option<User>, sellerId: string)
    requires TextStockId(body)
    ensures var (reply, after) := AddManualSpec(docs, body, user, sellerId);
      reply.success ==> (reply.status == 201 && Accepts(body) && GetUserId(user, sellerId).Some? &&
        var k := Key(GetUserId(user, sellerId).value, body["stockId"].s);
        k !in docs && after == docs[k := body["user" := Str(k.owner)]])
    ensures var (reply, after) := AddManualSpec(docs, body, user, sellerId);
      !reply.success ==> reply.status == 400 && after == docs
    ensures var (reply, after) := AddManualSpec(docs, body, user, sellerId);
      !Accepts(body) ==> reply == Reply(400, false, RequiredMessage)
  {
  }

  /** Adding the same body twice for the same owner is rejected the second
      time as a duplicate. */
  lemma AddManualTwiceIsDuplicate(docs: Docs, body: Record, user: Option<User>, sellerId: string)
    requires TextStockId(body)
    requires AddManualSpec(docs, body, user, sellerId).0.success
    ensures var after := AddManualSpec(docs, body, user, sellerId).1;
      AddManualSpec(after, body, user, sellerId) == (Reply(400, false, DuplicateMessage), after)
  {
  }

  /** `addManualDiamond` against the collection. */
  method AddManualDiamond(db: Diamonds, body: Record, user: Option<User>, sellerId: string) returns (reply: Reply)
    requires TextStockId(body)
    modifies db
    ensures (reply, db.docs) == AddManualSpec(old(db.docs), body, user, sellerId)
  {
    if "stockId" !in body || !Truthy(body["stockId"]) || "carat" !in body || !Truthy(body["carat"]) {
      return Reply(400, false, RequiredMessage);
    }
    var owner := GetUserId(user, sellerId);
    if owner.None? {
      return Reply(400, false, NoUserMessage);
    }
    var k := Key(owner.value, StockIdOf(body));
    var existing := db.FindOne(k);
    if existing.Some? {
      return Reply(400, false, DuplicateMessage);
    }
    db.Save(k, body["user" := Str(owner.value)]);
    return Reply(201, true, "");
  }

  // ------------------------------------------------------------ file imports

  /** The two handlers that import a CSV file without reconciling. */
  datatype Source = Upload | Ftp

  /** The counts an import reports besides the reply. */
  datatype ImportReply = ImportReply(reply: Reply, added: nat, updated: nat)

  function NoDataMessage(source: Source): string {
    match source
    case Upload => "CSV processed, but no valid data found."
    case Ftp => "FTP file processed, but no valid data found."
  }

  function DoneMessageOf(source: Source): string {
    match source
    case Upload => "CSV processed successfully."
    case Ftp => "FTP Sync successful."
  }

  function FailurePrefix(source: Source): string {
    match source
    case Upload => "CSV processing failed: "
    case Ftp => "FTP failed: "
  }

  /** CSV records never carry a numeric status, so the controller's builder
      applies to them. */
  lemma CsvRecordsHaveTextStatus(table: ValueTable, input: CsvInput, m: Mapping)
    requires CsvOutcome(table, input, m).Accepted?
    ensures forall i :: 0 <= i < |CsvOutcome(table, input, m).records| ==> TextStatus(CsvOutcome(table, input, m).records[i])
  {
    FieldKinds();
    var records := CsvOutcome(table, input, m).records;
    forall i | 0 <= i < |records| ensures TextStatus(records[i]) {
      CsvRecordsAreWellFormed(table, input, m, records[i]);
    }
  }

  /** The shared tail of `uploadFromCsv` and `syncFromFtp`: read the file,
      build the controller's operations, reply without writing when there
      are none, and bulk-write them otherwise. Nothing is ever deleted. */
  function ImportSpec(docs: Docs, table: ValueTable, csv: CsvInput, m: Mapping, owner: string, source: Source): (ImportReply, Docs) {
    match CsvOutcome(table, csv, m)
    case Failed(message) => (ImportReply(Reply(500, false, FailurePrefix(source) + message), 0, 0), docs)
    case Accepted(records) =>
      CsvRecordsHaveTextStatus(table, csv, m);
      var ops := CreateBulkOperations(records, owner);
      if |ops| == 0 then (ImportReply(Reply(200, true, NoDataMessage(source)), 0, 0), docs)
      else
        var bulk := ApplyAll(docs, ops);
        (ImportReply(Reply(200, true, DoneMessageOf(source)), bulk.inserted, bulk.changed), bulk.docs)
  }

  /** An import keeps every document it found, touches only the owner's,
      and with no valid rows writes nothing and reports nothing added or
      updated. */
  lemma ImportMeaning(docs: Docs, table: ValueTable, csv: CsvInput, m: Mapping, owner: string, source: Source)
    ensures docs.Keys <= ImportSpec(docs, table, csv, m, owner, source).1.Keys
    ensures forall k: Key :: k.owner != owner ==> var after := ImportSpec(docs, table, csv, m, owner, source).1;
      (k in after <==> k in docs) && (k in docs ==> after[k] == docs[k])
    ensures CsvOutcome(table, csv, m) == Accepted([]) ==>
      ImportSpec(docs, table, csv, m, owner, source) == (ImportReply(Reply(200, true, NoDataMessage(source)), 0, 0), docs)
    ensures CsvOutcome(table, csv, m).Failed? ==> ImportSpec(docs, table, csv, m, owner, source).1 == docs
  {
    var outcome := CsvOutcome(table, csv, m);
    ImportKeepsDocuments(docs, table, csv, m, owner, source);
    if outcome.Accepted? {
      CsvRecordsHaveTextStatus(table, csv, m);
      var ops := CreateBulkOperations(outcome.records, owner);
      ApplyAllFrame(docs, ops);
      forall k: Key | k.owner != owner ensures !Targets(ops, k) {
        OpsTargetOwner(outcome.records, owner, k);
      }
    }
  }

  /** The request fields `uploadFromCsv` checks. */
  datatype UploadRequest = UploadRequest(file: Option<CsvInput>, mapping: Option<Mapping>, user: Option<User>, sellerId: string)

  /** `uploadFromCsv`. */
  function UploadFromCsvSpec(docs: Docs, table: ValueTable, req: UploadRequest): (ImportReply, Docs) {
    if req.file.None? then (ImportReply(Reply(400, false, "No CSV file uploaded."), 0, 0), docs)
    else if req.mapping.None? then (ImportReply(Reply(400, false, "Field mapping not provided."), 0, 0), docs)
    else match GetUserId(req.user, req.sellerId)
      case None => (ImportReply(Reply(400, false, NoUserMessage), 0, 0), docs)
      case Some(owner) => ImportSpec(docs, table, req.file.value, req.mapping.value, owner, Upload)
  }

  /** What the FTP download gives: the file's reading, or the client's
      error. */
  datatype Download = Downloaded(csv: CsvInput) | FtpError(message: string)

  /** The request fields `syncFromFtp` checks; empty text is a missing
      field. */
  datatype FtpRequest = FtpRequest(host: string, path: string, mapping: Option<Mapping>, user: Option<User>, sellerId: string)

  /** `syncFromFtp`, the download being a parameter. */
  function SyncFromFtpSpec(docs: Docs, table: ValueTable, req: FtpRequest, download: Download): (ImportReply, Docs) {
    if req.host == [] || req.path == [] || req.mapping.None? then
      (ImportReply(Reply(400, false, "Host, Path and Mapping are required."), 0, 0), docs)
    else match GetUserId(req.user, req.sellerId)
      case None => (ImportReply(Reply(400, false, NoUserMessage), 0, 0), docs)
      case Some(owner) =>
        match download
        case FtpError(message) => (ImportReply(Reply(500, false, FailurePrefix(Ftp) + message), 0, 0), docs)
        case Downloaded(csv) => ImportSpec(docs, table, csv, req.mapping.value, owner, Ftp)
  }

  /** Neither file import ever deletes a document. */
  lemma ImportsNeverDelete(docs: Docs, table: ValueTable, upload: UploadRequest, ftp: FtpRequest, download: Download)
    ensures docs.Keys <= UploadFromCsvSpec(docs, table, upload).1.Keys
    ensures docs.Keys <= SyncFromFtpSpec(docs, table, ftp, download).1.Keys
  {
    var owner := GetUserId(upload.user, upload.sellerId);
    if upload.file.Some? && upload.mapping.Some? && owner.Some? {
      ImportKeepsDocuments(docs, table, upload.file.value, upload.mapping.value, owner.value, Upload);
    }
    var ftpOwner := GetUserId(ftp.user, ftp.sellerId);
    if ftp.mapping.Some? && ftpOwner.Some? && download.Downloaded? {
      ImportKeepsDocuments(docs, table, download.csv, ftp.mapping.value, ftpOwner.value, Ftp);
    }
  }

  lemma ImportKeepsDocuments(docs: Docs, table: ValueTable, csv: CsvInput, m: Mapping, owner: string, source: Source)
    ensures docs.Keys <= ImportSpec(docs, table, csv, m, owner, source).1.Keys
  {
    var outcome := CsvOutcome(table, csv, m);
    if outcome.Accepted? {
      CsvRecordsHaveTextStatus(table, csv, m);
      ApplyAllFrame(docs, CreateBulkOperations(outcome.records, owner));
    }
  }

  /** The shared tail against the collection. */
  method ImportRecords(db: Diamonds, table: ValueTable, csv: CsvInput, m: Mapping, owner: string, source: Source)
    returns (r: ImportReply)
    modifies db
    ensures (r, db.docs) == ImportSpec(old(db.docs), table, csv, m, owner, source)
  {
    var outcome := ProcessCsvStreamWithMapping(table, csv, m);
    if outcome.Failed? {
      return ImportReply(Reply(500, false, FailurePrefix(source) + outcome.message), 0, 0);
    }
    CsvRecordsHaveTextStatus(table, csv, m);
    var ops := CreateBulkOperations(outcome.records, owner);
    if |ops| == 0 {
      return ImportReply(Reply(200, true, NoDataMessage(source)), 0, 0);
    }
    var added, updated := db.BulkWrite(ops);
    return ImportReply(Reply(200, true, DoneMessageOf(source)), added, updated);
  }

  /** `uploadFromCsv` against the collection. */
  method UploadFromCsv(db: Diamonds, table: ValueTable, req: UploadRequest) returns (r: ImportReply)
    modifies db
    ensures (r, db.docs) == UploadFromCsvSpec(old(db.docs), table, req)
  {
    if req.file.None? {
      return ImportReply(Reply(400, false, "No CSV file uploaded."), 0, 0);
    }
    if req.mapping.None? {
      return ImportReply(Reply(400, false, "Field mapping not provided."), 0, 0);
    }
    var owner := GetUserId(req.user, req.sellerId);
    if owner.None? {
      return ImportReply(Reply(400, false, NoUserMessage), 0, 0);
    }
    r := ImportRecords(db, table, req.file.value, req.mapping.value, owner.value, Upload);
  }

  /** `syncFromFtp` against the collection. */
  method SyncFromFtp(db: Diamonds, table: ValueTable, req: FtpRequest, download: Download) returns (r: ImportReply)
    modifies db
    ensures (r, db.docs) == SyncFromFtpSpec(old(db.docs), table, req, download)
  {
    if req.host == [] || req.path == [] || req.mapping.None? {
      return ImportReply(Reply(400, false, "Host, Path and Mapping are required."), 0, 0);
    }
    var owner := GetUserId(req.user, req.sellerId);
    if owner.None? {
      return ImportReply(Reply(400, false, NoUserMessage), 0, 0);
    }
    if download.FtpError? {
      return ImportReply(Reply(500, false, FailurePrefix(Ftp) + download.message), 0, 0);
    }
    r := ImportRecords(db, table, download.csv, req.mapping.value, owner.value, Ftp);
  }

  // ------------------------------------------------------------- listing

  const PageSize: nat := 10

  /** `Number(req.query.page) || 1`; `None` is a query that is missing or
      not a number. */
  function PageOf(query: Option<int>): (page: int)
    ensures page != 0
    ensures query.Some? && query.value != 0 ==> page == query.value
  {
    if query.Some? && query.value != 0 then query.value else 1
  }

  function Skip(page: int): int {
    PageSize * (page - 1)
  }

  /** `Math.ceil(count / pageSize)`. */
  function Pages(count: nat): (pages: nat)
    ensures pages * PageSize >= count
    ensures pages > 0 ==> (pages - 1) * PageSize < count
  {
    (count + PageSize - 1) / PageSize
  }

  /** The pages tile the results: every position lies on exactly one page
      between 1 and `pages`, and no page beyond `pages` holds any. */
  lemma PagesTileTheResults(count: nat, i: nat)
    requires i < count
    ensures var p := i / PageSize + 1; 1 <= p <= Pages(count) && Skip(p) <= i < Skip(p) + PageSize
    ensures forall p: int :: 1 <= p && Skip(p) <= i < Skip(p) + PageSize ==> p == i / PageSize + 1
  {
    forall p: int | 1 <= p && Skip(p) <= i < Skip(p) + PageSize ensures p == i / PageSize + 1 {
      var q := i / PageSize;
      assert PageSize * q <= i < PageSize * (q + 1);
    }
  }

  /** The owner filter: `None` lets every owner through. A signed-out
      request and an admin who names no seller see everyone; an admin who
      names a seller sees that seller; anyone else sees themself. */
  function OwnerFilter(user: Option<User>, sellerQuery: string): Option<string> {
    match user
    case None => None
    case Some(u) =>
      if u.role == Admin then (if sellerQuery != "" then Some(sellerQuery) else None)
      else Some(u.id)
  }

  function Visible(docs: Docs, user: Option<User>, sellerQuery: string): set<Key> {
    var f := OwnerFilter(user, sellerQuery);
    set k | k in docs && (f.None? || k.owner == f.value)
  }

  /** What `getDiamonds` reports besides the documents of the page. */
  datatype Listing = Listing(page: int, skip: int, pages: nat, count: nat)

  function GetDiamonds(docs: Docs, user: Option<User>, pageQuery: Option<int>, sellerQuery: string): Listing {
    var page := PageOf(pageQuery);
    var count := |Visible(docs, user, sellerQuery)|;
    Listing(page, Skip(page), Pages(count), count)
  }

  /** A non-admin sees only their own documents, an admin who names a
      seller only that seller's; the count is the number of visible
      documents and the pages cover them. */
  lemma GetDiamondsMeaning(docs: Docs, user: Option<User>, pageQuery: Option<int>, sellerQuery: string, k: Key)
    ensures user.Some? && user.value.role != Admin ==>
      (k in Visible(docs, user, sellerQuery) <==> k in docs && k.owner == user.value.id)
    ensures user.Some? && user.value.role == Admin && sellerQuery != "" ==>
      (k in Visible(docs, user, sellerQuery) <==> k in docs && k.owner == sellerQuery)
    ensures var l := GetDiamonds(docs, user, pageQuery, sellerQuery);
      l.count == |Visible(docs, user, sellerQuery)| && l.pages * PageSize >= l.count &&
      (pageQuery.None? ==> l.page == 1 && l.skip == 0)
  {
  }

  // --------------------------------------------------------- status update

  /** `updateDiamondStatus`: the document is named by its key, which stands
      for its `_id`; `availability` is the body's value, `None` when
      missing. */
  function UpdateStatusSpec(docs: Docs, id: Key, availability: Option<FieldValue>, user: User): (Reply, Docs) {
    if availability.None? || !Truthy(availability.value) then (Reply(400, false, "Availability status is required."), docs)
    else if id !in docs then (Reply(404, false, "Diamond not found."), docs)
    else if id.owner != user.id then (Reply(403, false, "User not authorized to update this diamond."), docs)
    else (Reply(200, true, ""), docs[id := docs[id]["availability" := availability.value]])
  }

  /** Only the owner can change a status, and the change touches only the
      `availability` of that one document; every failure changes nothing. */
  lemma UpdateStatusMeaning(docs: Docs, id: Key, availability: Option<FieldValue>, user: User)
    ensures var (reply, after) := UpdateStatusSpec(docs, id, availability, user);
      !reply.success ==> after == docs && reply.status in {400, 403, 404}
    ensures var (reply, after) := UpdateStatusSpec(docs, id, availability, user);
      reply.success ==> (id in docs && id.owner == user.id && after.Keys == docs.Keys &&
        (forall k :: k in docs && k != id ==> after[k] == docs[k]) &&
        (forall f :: f in docs[id] && f != "availability" ==> f in after[id] && after[id][f] == docs[id][f]) &&
        "availability" in after[id] && after[id]["availability"] == availability.value)
    ensures id in docs && id.owner != user.id ==> UpdateStatusSpec(docs, id, availability, user).1 == docs
  {
  }

  /** `updateDiamondStatus` against the collection. */
  method UpdateDiamondStatus(db: Diamonds, id: Key, availability: Option<FieldValue>, user: User) returns (reply: Reply)
    modifies db
    ensures (reply, db.docs) == UpdateStatusSpec(old(db.docs), id, availability, user)
  {
    if availability.None? || !Truthy(availability.value) {
      return Reply(400, false, "Availability status is required.");
    }
    var diamond := db.FindOne(id);
    if diamond.None? {
      return Reply(404, false, "Diamond not found.");
    }
    if id.owner != user.id {
      return Reply(403, false, "User not authorized to update this diamond.");
    }
    db.Save(id, diamond.value["availability" := availability.value]);
    return Reply(200, true, "");
  }
}
