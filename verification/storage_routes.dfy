/** The four routes over the blob container: the penalty search, the
    workbook upload, the bulk processing of every workbook, and the file
    list. Each answers with a JSON body or an error reply with an HTTP
    status; a thrown error is classified by its message. */
module StorageRoutes {
  import opened Wrappers
  import opened JsText
  import opened JsDate
  import opened Cells
  import opened Tables
  import opened RecordStore
  import opened BlobStore
  import opened SheetSearch
  import opened BulkIngest

  /** The server's state: the blob container and the database. */
  datatype Server = Server(container: Container, db: Db)

  /** An error answer: status, `error`, and `details` when there is one. */
  datatype ErrorReply = ErrorReply(status: nat, error: string, details: Option<string>)

  const UnavailableError := "Azure Storage service unavailable"
  const UnavailableDetailsHead := "The file "
  const UnavailableDetailsTail := " service is currently unavailable. Please try again later or contact support."

  /** The 503 answer; `service` names the route's service ("storage",
      "upload", "processing", "listing"). */
  function ServiceUnavailable(service: string): (r: ErrorReply)
    ensures r.status == 503 && r.error == UnavailableError
  {
    ErrorReply(503, UnavailableError,
               Some(UnavailableDetailsHead + service + UnavailableDetailsTail))
  }

  /** `isStorageAvailable()`. */
  predicate StorageAvailable(c: Container) {
    c.availability.Available?
  }

  // ---------------------------------------------------------------------------
  // GET /api/search-penalties

  const MissingQueryError := "Either ticketNo or vrm is required"
  const SearchNotFoundError := "CPO Test Data.xlsx file not found in Azure Storage"
  const SearchNotFoundDetails := "Please ensure the Excel file has been uploaded to Azure Blob Storage container"
  const SearchFailedError := "Failed to search penalties"
  const BlobNotFoundCode := "BlobNotFound"

  /** The search route's `catch`: an unavailable-storage message is 503; a
      message naming a missing blob, or a 404 status code, is 404;
      anything else is 500 with the message as details. */
  function ClassifySearchError(message: string, statusCode: Option<int>): (r: ErrorReply)
    ensures r.status == 503 <==> Contains(message, UnavailablePrefix)
    ensures r.status == 404 <==> !Contains(message, UnavailablePrefix)
                                 && (Contains(message, BlobNotFoundCode) || Contains(message, NotExistText) || statusCode == Some(404))
    ensures r.status == 500 ==> r.details == Some(message)
    ensures r.status in {503, 404, 500}
  {
    if Contains(message, UnavailablePrefix) then ServiceUnavailable("storage")
    else if Contains(message, BlobNotFoundCode) || Contains(message, NotExistText) || statusCode == Some(404) then
      ErrorReply(404, SearchNotFoundError, Some(SearchNotFoundDetails))
    else ErrorReply(500, SearchFailedError, Some(message))
  }

  /** `GET /api/search-penalties`: 400 with neither parameter, 503 while
      storage is unavailable, otherwise the matches from the fixed workbook
      or the classified error. The search rethrows every failure as a new
      error, so no status code reaches the classification. */
  function SearchRoute(c: Container, ticketNo: Option<string>, vrm: Option<string>, generic: string -> Time)
    : (r: Result<seq<SheetPenalty>, ErrorReply>)
    ensures !Given(ticketNo) && !Given(vrm) ==> r == Failure(ErrorReply(400, MissingQueryError, None))
    ensures (Given(ticketNo) || Given(vrm)) && !StorageAvailable(c) ==> r == Failure(ServiceUnavailable("storage"))
    ensures r.Success? <==> (Given(ticketNo) || Given(vrm)) && StorageAvailable(c)
                            && Download(c, SearchFileName).Success?
    ensures r.Success? ==> r.value == SearchRows(DataRows(Download(c, SearchFileName).value), ticketNo, vrm, generic)
  {
    if !Given(ticketNo) && !Given(vrm) then Failure(ErrorReply(400, MissingQueryError, None))
    else if !StorageAvailable(c) then Failure(ServiceUnavailable("storage"))
    else
      match SearchPenaltiesFromExcel(c, SearchFileName, ticketNo, vrm, generic)
      case Success(ps) => Success(ps)
      case Failure(msg) => Failure(ClassifySearchError(msg, None))
  }

  // ---------------------------------------------------------------------------
  // The other routes' `catch`

  /** An unavailable-storage message is 503, anything else 500 with the
      route's own error text and the message as details. */
  function ClassifyError(message: string, service: string, failure: string): (r: ErrorReply)
    ensures r.status == 503 <==> Contains(message, UnavailablePrefix)
    ensures r.status != 503 ==> r == ErrorReply(500, failure, Some(message))
  {
    if Contains(message, UnavailablePrefix) then ServiceUnavailable(service)
    else ErrorReply(500, failure, Some(message))
  }

  // ---------------------------------------------------------------------------
  // POST /api/upload-penalties

  const ExcelMimeType := "application/vnd.openxmlformats-officedocument.spreadsheetml.sheet"
  const LegacyExcelMimeType := "application/vnd.ms-excel"
  const MaxUploadBytes := 50 * 1024 * 1024
  const NotExcelError := "Only Excel files are allowed"
  const TooLargeError := "File too large"
  const NoFileError := "No file uploaded"
  const UploadFailedError := "Failed to upload and process file"
  const UploadedMessage := "File uploaded and processed successfully"

  /** A file as the upload middleware hands it over. */
  datatype UploadedFile = UploadedFile(mimetype: string, size: nat, content: Content)

  /** The upload middleware's checks, which run before the route: only the
      two Excel types, and at most 50 MiB. */
  function AcceptUpload(f: UploadedFile): (r: Result<UploadedFile, string>)
    ensures r.Success? <==> (f.mimetype == ExcelMimeType || f.mimetype == LegacyExcelMimeType) && f.size <= MaxUploadBytes
    ensures r.Success? ==> r.value == f
    ensures !(f.mimetype == ExcelMimeType || f.mimetype == LegacyExcelMimeType) ==> r == Failure(NotExcelError)
  {
    if !(f.mimetype == ExcelMimeType || f.mimetype == LegacyExcelMimeType) then Failure(NotExcelError)
    else if f.size > MaxUploadBytes then Failure(TooLargeError)
    else Success(f)
  }

  /** The success body of the upload route. */
  datatype UploadReply = UploadReply(message: string, fileUrl: string, fileName: string, processed: nat, errors: seq<string>)

  /** `POST /api/upload-penalties`: 400 without a file, 503 while storage is
      unavailable; otherwise the workbook is stored under a name made from
      the current time and processed at once. `load` is the loop body the
      server runs per row, `Loader(now, generic)`; the route is stated for
      any loop body, so its properties hold for that one. */
  function UploadRoute(s: Server, file: Option<UploadedFile>, now: int, load: RowStep)
    : (r: (Server, Result<UploadReply, ErrorReply>))
    ensures file.None? ==> r == (s, Failure(ErrorReply(400, NoFileError, None)))
    ensures file.Some? && !StorageAvailable(s.container) ==> r == (s, Failure(ServiceUnavailable("upload")))
    ensures file.Some? && StorageAvailable(s.container) ==> r == StoreAndProcess(s, file.value, UploadName(now), load)
  {
    if file.None? then (s, Failure(ErrorReply(400, NoFileError, None)))
    else if !StorageAvailable(s.container) then (s, Failure(ServiceUnavailable("upload")))
    else StoreAndProcess(s, file.value, UploadName(now), load)
  }

  /** The upload route's work once storage is up: store the file under
      `name`, then process the workbook of that name with `load`. A failure
      while processing leaves the stored blob in place. */
  function StoreAndProcess(s: Server, file: UploadedFile, name: string, load: RowStep)
    : (r: (Server, Result<UploadReply, ErrorReply>))
    requires StorageAvailable(s.container)
    ensures r.1.Success? ==> r.1.value.fileName == name && r.1.value.message == UploadedMessage
                             && r.1.value.fileUrl == BlobUrl(s.container.baseUrl, SanitiseName(name))
    ensures r.1.Failure? ==> r.1.error.status in {503, 500}
    ensures r.0.container == Upload(s.container, name, file.content, Some(file.mimetype)).value.0
  {
    // With storage up the write itself cannot fail.
    var stored := Upload(s.container, name, file.content, Some(file.mimetype));
    assert stored.Success?;
    var (c', url) := stored.value;
    match ProcessExcelFile(c', s.db, name, load)
    case Failure(msg) =>
      (Server(c', s.db), Failure(ClassifyError(msg, "upload", UploadFailedError)))
    case Success(o) =>
      (Server(c', o.db),
       Success(UploadReply(UploadedMessage, url, name, o.processed, MapSeq(o.errors, RowMessage))))
  }

  // ---------------------------------------------------------------------------
  // POST /api/process-files and GET /api/files

  const ProcessFailedError := "Failed to process files"
  const ProcessedMessage := "Files processed successfully"
  const ListFailedError := "Failed to list files"

  datatype ProcessReply = ProcessReply(message: string, filesProcessed: seq<string>, results: seq<FileResult>)

  /** `POST /api/process-files`: 503 while storage is unavailable; otherwise
      every workbook in the container is processed in listing order, each
      row by `load` (`Loader(now, generic)` in the server). */
  function ProcessFilesRoute(s: Server, load: RowStep) : (r: (Server, Result<ProcessReply, ErrorReply>))
    ensures !StorageAvailable(s.container) ==> r == (s, Failure(ServiceUnavailable("processing")))
    ensures StorageAvailable(s.container) ==> r.1.Success?
    ensures r.1.Success? ==> |r.1.value.results| == |WorkbookNames(Names(s.container.blobs))|
    ensures r.0.container == s.container
  {
    if !StorageAvailable(s.container) then (s, Failure(ServiceUnavailable("processing")))
    else
      SortKeepsWorkbookCount(Names(s.container.blobs));
      match CheckAndProcessNewFiles(s.container, s.db, load)
      case Failure(e) => (s, Failure(ClassifyError(ErrorMessage(e), "processing", ProcessFailedError)))
      case Success((db', processed, results)) =>
        (Server(s.container, db'), Success(ProcessReply(ProcessedMessage, processed, results)))
  }

  /** A failed `GET /api/files`: the 503 reply also carries `files: []`,
      the 500 reply carries no files. */
  datatype FilesFailure = FilesFailure(reply: ErrorReply, files: Option<seq<string>>)

  /** `GET /api/files`: 503 while storage is unavailable, otherwise every
      blob name in the service's name order. */
  function FilesRoute(c: Container): (r: Result<seq<string>, FilesFailure>)
    ensures !StorageAvailable(c) ==> r == Failure(FilesFailure(ServiceUnavailable("listing"), Some([])))
    ensures StorageAvailable(c) ==> r.Success? && |r.value| == |c.blobs|
    ensures r.Success? ==> NamesSorted(r.value)
    ensures r.Success? ==> forall n :: n in r.value <==> exists i :: 0 <= i < |c.blobs| && c.blobs[i].name == n
  {
    if !StorageAvailable(c) then Failure(FilesFailure(ServiceUnavailable("listing"), Some([])))
    else
      match ListFiles(c)
      case Failure(e) =>
        var reply := ClassifyError(ErrorMessage(e), "listing", ListFailedError);
        Failure(FilesFailure(reply, if reply.status == 503 then Some([]) else None))
      case Success(names) =>
        assert |names| == |multiset(names)| == |multiset(Names(c.blobs))| == |c.blobs|;
        forall n ensures n in names <==> n in Names(c.blobs) {
          assert n in names <==> n in multiset(names);
          assert n in Names(c.blobs) <==> n in multiset(Names(c.blobs));
        }
        Success(names)
  }

  // ---------------------------------------------------------------------------
  // Properties

  /** Any storage-unavailable failure that reaches the search route's
      `catch`, wrapped as the search wraps it, is still answered with 503. */
  lemma WrappedUnavailableIs503(hasConnectionString: bool)
    ensures ClassifySearchError(SearchFailed(ErrorMessage(StorageUnavailable(hasConnectionString))), None).status == 503
  {
    WrappedPrefixIs503(ErrorMessage(StorageUnavailable(hasConnectionString)));
  }

  lemma WrappedPrefixIs503(m: string)
    requires StartsWith(m, UnavailablePrefix)
    ensures ClassifySearchError(SearchFailed(m), None).status == 503
  {
    ContainsPrefixed("Search failed: ", m, UnavailablePrefix);
  }

  /** With storage up and no workbook of the fixed name in the container,
      the search answers 404, through the "does not exist" text of the
      missing-blob message. */
  lemma MissingWorkbookIs404(c: Container, ticketNo: Option<string>, vrm: Option<string>, generic: string -> Time)
    requires StorageAvailable(c) && (Given(ticketNo) || Given(vrm))
    requires forall j :: 0 <= j < |c.blobs| ==> c.blobs[j].name != SearchFileName
    ensures SearchRoute(c, ticketNo, vrm, generic) == Failure(ErrorReply(404, SearchNotFoundError, Some(SearchNotFoundDetails)))
  {
    MissingMessageIs404();
  }

  /** The wrapped missing-blob message names a blob that does not exist and
      never mentions unavailable storage. */
  lemma MissingMessageIs404()
    ensures ClassifySearchError(SearchFailed(ErrorMessage(BlobMissing)), None)
            == ErrorReply(404, SearchNotFoundError, Some(SearchNotFoundDetails))
  {
    var a, b := "Search failed: " + "The specified blob ", ".";
    assert SearchFailed(ErrorMessage(BlobMissing)) == a + NotExistText + b;
    LacksA("Search failed: ", "The specified blob ");
    NotExistIs404(a, b);
  }

  lemma LacksA(x: string, y: string)
    requires x == "Search failed: " && y == "The specified blob "
    ensures forall i :: 0 <= i < |x + y| ==> (x + y)[i] != 'A'
  {
    assert forall i :: 0 <= i < |x| ==> x[i] != 'A';
    assert forall i :: 0 <= i < |y| ==> y[i] != 'A';
  }

  lemma NotExistIs404(a: string, b: string)
    requires forall i :: 0 <= i < |a| ==> a[i] != 'A'
    requires forall i :: 0 <= i < |b| ==> b[i] != 'A'
    ensures ClassifySearchError(a + NotExistText + b, None) == ErrorReply(404, SearchNotFoundError, Some(SearchNotFoundDetails))
  {
    var m := a + NotExistText + b;
    ContainsMiddle(a, NotExistText, b);
    assert forall i :: 0 <= i < |m| ==> m[i] != UnavailablePrefix[0];
    AbsentHead(m, UnavailablePrefix);
  }

  /** While the clock's year has four digits, the upload route processes
      exactly the workbook it has just stored: the generated name is clean,
      so the blob is stored under that very name and downloaded back. */
  lemma UploadProcessesItsOwnFile(s: Server, file: UploadedFile, now: int, load: RowStep)
    requires StorageAvailable(s.container) && file.content.Workbook?
    requires 0 <= FieldsOf(now).year <= 9999
    ensures var (s', r) := UploadRoute(s, Some(file), now, load);
      r.Success? && var o := Fold(s.db, DataRows(file.content.first), 2, load);
      r.value.processed == o.processed && s'.db == o.db
      && r.value.errors == MapSeq(o.errors, RowMessage) && r.value.fileName == UploadName(now)
  {
    var name := UploadName(now);
    assert SanitiseName(name) == name by { UploadNameIsClean(now); }
    assert UploadRoute(s, Some(file), now, load) == StoreAndProcess(s, file, name, load);
    StoredFileProcessed(s, file, name, load);
  }

  /** Stored under a clean name, the workbook that is processed is the one
      just stored. */
  lemma StoredFileProcessed(s: Server, file: UploadedFile, name: string, load: RowStep)
    requires StorageAvailable(s.container) && file.content.Workbook? && SanitiseName(name) == name
    ensures var (s', r) := StoreAndProcess(s, file, name, load);
      r.Success? && var o := Fold(s.db, DataRows(file.content.first), 2, load);
      r.value.processed == o.processed && s'.db == o.db && r.value.errors == MapSeq(o.errors, RowMessage)
      && r.value.fileName == name
  {
    UploadThenDownload(s.container, name, file.content, Some(file.mimetype));
  }

  /** A workbook the reader cannot decode is still stored, but the upload
      route answers with the processing error, classified as the route's
      `catch` classifies it. */
  lemma UnreadableUploadFails(s: Server, file: UploadedFile, now: int, load: RowStep)
    requires StorageAvailable(s.container) && file.content.Unreadable?
    requires 0 <= FieldsOf(now).year <= 9999
    ensures var (s', r) := UploadRoute(s, Some(file), now, load);
      r == Failure(ClassifyError(FailedToProcess(file.content.reason), "upload", UploadFailedError))
      && s'.db == s.db && s'.container == Upload(s.container, UploadName(now), file.content, Some(file.mimetype)).value.0
  {
    var name := UploadName(now);
    assert SanitiseName(name) == name by { UploadNameIsClean(now); }
    assert UploadRoute(s, Some(file), now, load) == StoreAndProcess(s, file, name, load);
    StoredUnreadableFails(s, file, name, load);
  }

  lemma StoredUnreadableFails(s: Server, file: UploadedFile, name: string, load: RowStep)
    requires StorageAvailable(s.container) && file.content.Unreadable? && SanitiseName(name) == name
    ensures var (s', r) := StoreAndProcess(s, file, name, load);
      r == Failure(ClassifyError(FailedToProcess(file.content.reason), "upload", UploadFailedError)) && s'.db == s.db
  {
    UploadThenDownload(s.container, name, file.content, Some(file.mimetype));
    var c' := Upload(s.container, name, file.content, Some(file.mimetype)).value.0;
    assert ProcessExcelFile(c', s.db, name, load) == Failure(FailedToProcess(ErrorMessage(ReadFailed(file.content.reason))));
    ProcessingFailureKept(s, file, name, load, FailedToProcess(file.content.reason));
  }

  /** A processing failure after the write is answered through the
      classification, and the store is left as it was. */
  lemma ProcessingFailureKept(s: Server, file: UploadedFile, name: string, load: RowStep, msg: string)
    requires StorageAvailable(s.container)
    requires ProcessExcelFile(Upload(s.container, name, file.content, Some(file.mimetype)).value.0, s.db, name, load) == Failure(msg)
    ensures var (s', r) := StoreAndProcess(s, file, name, load);
      r == Failure(ClassifyError(msg, "upload", UploadFailedError)) && s'.db == s.db
  {
  }
}
