/** `searchPenaltiesFromExcel`: a search straight over the first sheet of a
    workbook in the search layout (A ticket number, B registration, C
    contravention date and time, D site, E charge), answering with one record
    per matching row, in sheet order. */
module SheetSearch {
  import opened Wrappers
  import opened JsText
  import opened JsNumber
  import opened JsDate
  import opened Cells
  import opened Charge
  import opened ContraventionDate
  import opened BlobStore
  import opened Tables

  /** The name of the workbook the search route reads. */
  const SearchFileName := "CPO Test Data.xlsx"

  /** One search result. The ticket number doubles as the id, and the issue
      date repeats the contravention date. */
  datatype SheetPenalty = SheetPenalty(
    id: string,
    ticketNo: string,
    vrm: string,
    contraventionDateTime: Option<string>,
    site: Option<string>,
    penaltyAmount: string,
    dateIssued: Option<string>,
    status: string)

  /** The row's ticket number, trimmed. */
  function RowTicket(row: Row): Option<string> {
    TrimmedText(At(row, 0))
  }

  /** The row's registration, trimmed and upper-cased. */
  function RowVrm(row: Row): (r: Option<string>)
    ensures r.Some? <==> TrimmedText(At(row, 1)).Some?
    ensures r.Some? ==> r.value == ToUpper(TrimmedText(At(row, 1)).value)
  {
    match TrimmedText(At(row, 1))
    case None => None
    case Some(t) => Some(ToUpper(t))
  }

  /** The row has both keys, and equals each given parameter: the ticket
      number exactly, the registration after upper-casing the parameter. */
  predicate RowMatches(row: Row, ticketNo: Option<string>, vrm: Option<string>) {
    Given(RowTicket(row)) && Given(RowVrm(row))
    && (!Given(ticketNo) || RowTicket(row).value == ticketNo.value)
    && (!Given(vrm) || RowVrm(row).value == ToUpper(vrm.value))
  }

  /** The record a matching row yields: its keys, the contravention date as
      both dates, the site, the charge, and the status `active`. */
  function RowResult(row: Row, generic: string -> Time): (p: SheetPenalty)
    ensures p.id == p.ticketNo == RowTicket(row).GetOr([]) && p.vrm == RowVrm(row).GetOr([])
    ensures p.dateIssued == p.contraventionDateTime && p.status == "active"
    ensures p.contraventionDateTime.None? <==> Falsy(At(row, 2))
    ensures p.site == TextOrNull(At(row, 3))
  {
    var date := ParseContraventionDate(At(row, 2), generic);
    SheetPenalty(RowTicket(row).GetOr([]), RowTicket(row).GetOr([]), RowVrm(row).GetOr([]), date,
                 TextOrNull(At(row, 3)), NormaliseCharge(At(row, 4)), date, "active")
  }

  /** The loop over the data rows: the matching rows, in order, each turned
      into its record. */
  function SearchRows(rows: seq<Row>, ticketNo: Option<string>, vrm: Option<string>, generic: string -> Time)
    : (r: seq<SheetPenalty>)
    ensures |r| <= |rows|
    ensures forall p :: p in r <==> exists row :: row in rows && RowMatches(row, ticketNo, vrm) && p == RowResult(row, generic)
  {
    var hits := Filter(rows, (row: Row) => RowMatches(row, ticketNo, vrm));
    MapSeqMembers(hits, (row: Row) => RowResult(row, generic));
    MapSeq(hits, (row: Row) => RowResult(row, generic))
  }

  /** `searchPenaltiesFromExcel`: a failed download or read is rethrown as
      "Search failed: " and its message. */
  function SearchPenaltiesFromExcel(c: Container, fileName: string, ticketNo: Option<string>, vrm: Option<string>,
                                    generic: string -> Time): (r: Result<seq<SheetPenalty>, string>)
    ensures Download(c, fileName).Failure? ==> r == Failure(SearchFailed(ErrorMessage(Download(c, fileName).error)))
    ensures Download(c, fileName).Success? ==> r == Success(SearchRows(DataRows(Download(c, fileName).value), ticketNo, vrm, generic))
  {
    match Download(c, fileName)
    case Failure(e) => Failure(SearchFailed(ErrorMessage(e)))
    case Success(sheet) => Success(SearchRows(DataRows(sheet), ticketNo, vrm, generic))
  }

  function SearchFailed(message: string): (m: string)
    ensures StartsWith(m, "Search failed: ")
  {
    ConcatStartsWith("Search failed: ", message);
    "Search failed: " + message
  }

  // ---------------------------------------------------------------------------
  // Properties

  /** Results keep the sheet's order: searching two blocks of rows is
      searching each and joining the answers. */
  lemma SearchRowsConcat(a: seq<Row>, b: seq<Row>, ticketNo: Option<string>, vrm: Option<string>,
                          generic: string -> Time)
    ensures SearchRows(a + b, ticketNo, vrm, generic) == SearchRows(a, ticketNo, vrm, generic) + SearchRows(b, ticketNo, vrm, generic)
  {
    var m := (row: Row) => RowMatches(row, ticketNo, vrm);
    FilterConcat(a, b, m);
    MapSeqConcat(Filter(a, m), Filter(b, m), (row: Row) => RowResult(row, generic));
  }

  /** Every result carries the ticket number searched for, when one was given,
      and the registration searched for, upper-cased, when one was given. */
  lemma ResultsMatchQuery(rows: seq<Row>, ticketNo: Option<string>, vrm: Option<string>, generic: string -> Time, p: SheetPenalty)
    requires p in SearchRows(rows, ticketNo, vrm, generic)
    ensures Given(ticketNo) ==> p.ticketNo == ticketNo.value && p.id == ticketNo.value
    ensures Given(vrm) ==> p.vrm == ToUpper(vrm.value)
    ensures p.dateIssued == p.contraventionDateTime && p.status == "active"
  {
  }

  /** A row is found by its registration in any letter case. */
  lemma VrmCaseInsensitive(row: Row, vrm: string)
    requires Given(RowTicket(row)) && Given(RowVrm(row))
    ensures RowMatches(row, None, Some(ToUpper(vrm))) <==> RowMatches(row, None, Some(vrm))
  {
    ToUpperIdempotent(vrm);
  }

  /** A row missing either key never matches, whatever is searched. */
  lemma KeylessRowsSkipped(row: Row, ticketNo: Option<string>, vrm: Option<string>)
    requires !Given(RowTicket(row)) || !Given(RowVrm(row))
    ensures !RowMatches(row, ticketNo, vrm)
  {
  }

  /** The ticket number is compared exactly: a search that differs from the
      row's ticket only in letter case finds nothing. */
  lemma TicketCaseSensitive()
    ensures !RowMatches([Str("ab1"), Str("XY")], Some("AB1"), None)
  {
    var row: Row := [Str("ab1"), Str("XY")];
    TrimNoOuterSpace("ab1");
    assert RowTicket(row) == Some("ab1");
    assert "ab1" != "AB1" by { assert "ab1"[0] != "AB1"[0]; }
  }

  /** The workbook the search reads has a space in its name, which an upload
      would have turned into an underscore: no upload can supply it. */
  lemma SearchFileNotUploadable(name: string)
    ensures SanitiseName(name) != SearchFileName
  {
    assert SearchFileName[3] == ' ' && !NameChar(' ');
    if |name| == |SearchFileName| {
      assert SanitiseName(name)[3] != ' ';
    }
  }
}
