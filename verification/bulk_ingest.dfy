/** `processExcelFile` and `checkAndProcessNewFiles`: the bulk load of
    penalties from workbooks in the ingest layout (A ticket number,
    B registration, C make, D amount, E date issued, F site, G reason,
    H badge). Each data row either upserts one penalty by its ticket number
    or adds one error naming the row; the first failure of the download
    aborts the file. */
module BulkIngest {
  import opened Wrappers
  import opened JsText
  import opened JsNumber
  import opened JsDate
  import opened Cells
  import opened ExcelDate
  import opened Schema
  import opened Tables
  import opened RecordStore
  import opened BlobStore

  /** Why a row was not loaded. `rowNum` is the sheet's own row number: the
      header is row 1, so data row `i` (from 0) is row `i + 2`. */
  datatype RowError =
    | MissingFields(rowNum: nat)
    | InvalidAmount(rowNum: nat)
    | StoreFailed(rowNum: nat, error: DbError)

  const MissingFieldsText := "Missing required fields (Ticket No, VRM, or Penalty Amount)"
  const InvalidAmountText := "Invalid penalty amount"

  function Reason(e: RowError): string {
    match e
    case MissingFields(_) => MissingFieldsText
    case InvalidAmount(_) => InvalidAmountText
    case StoreFailed(_, err) => Message(err)
  }

  /** The text pushed onto `errors`: the row number, then the reason. */
  function RowMessage(e: RowError): (m: string)
    ensures StartsWith(m, "Row " + NatToString(e.rowNum) + ": ")
  {
    var head := "Row " + NatToString(e.rowNum) + ": ";
    ConcatStartsWith(head, Reason(e));
    head + Reason(e)
  }

  /** What processing a run of rows yields: the store afterwards, the
      number of rows loaded, and the rows refused, in sheet order. */
  datatype Outcome = Outcome(db: Db, processed: nat, errors: seq<RowError>)

  // ---------------------------------------------------------------------------
  // One row

  /** `row[0] && row[1] && row[3]`: ticket number, registration and amount
      are all truthy. */
  predicate HasRequired(row: Row) {
    !Falsy(At(row, 0)) && !Falsy(At(row, 1)) && !Falsy(At(row, 3))
  }

  /** `parseFloat(cell?.toString() || '0')`. */
  function AmountValue(c: Cell): JsNum {
    var s := CellString(c);
    ParseFloat(if s.None? || s.value == [] then "0" else s.value)
  }

  /** The amount the row carries: `toFixed(2)` of the cell's value, which is
      both what is validated (parsed back) and what is written. Rounding
      happens before validation, so a positive amount below half a penny
      is refused. */
  function CheckedAmount(c: Cell): (x: JsNum)
    ensures x == RoundedTo2(AmountValue(c))
    ensures Positive(x) <==> AmountValue(c).PosInf? || (AmountValue(c).Finite? && SignedHundredths(AmountValue(c).d) > 0)
  {
    ParseToFixed2(AmountValue(c));
    ParseFloat(ToFixed2(AmountValue(c)))
  }

  /** The penalty a row describes: ticket number trimmed, registration
      trimmed and upper-cased, optional text columns trimmed or null, the
      rounded amount, the issue date read by `parseExcelDate`, and status
      `active`. */
  function RowPenalty(row: Row, now: int, generic: string -> Time): (np: NewPenalty)
    ensures np.ticketNo == TrimmedText(At(row, 0)).GetOr([])
    ensures np.vrm == ToUpper(TrimmedText(At(row, 1)).GetOr([]))
    ensures np.penaltyAmount == CheckedAmount(At(row, 3)) && np.status == Some("active")
    ensures np.vehicleMake == TextOrNull(At(row, 2)) && np.site == TextOrNull(At(row, 5))
    ensures np.reasonForIssue == TextOrNull(At(row, 6)) && np.badgeId == TextOrNull(At(row, 7))
    ensures np.dateIssued == ParseExcelDate(At(row, 4), now, generic)
  {
    NewPenalty(TrimmedText(At(row, 0)).GetOr([]), ToUpper(TrimmedText(At(row, 1)).GetOr([])),
               TextOrNull(At(row, 2)), CheckedAmount(At(row, 3)), ParseExcelDate(At(row, 4), now, generic),
               TextOrNull(At(row, 5)), TextOrNull(At(row, 6)), TextOrNull(At(row, 7)), Some("active"))
  }

  /** The update sent for a ticket number already on file: every column of
      the new penalty, null ones included. */
  function FullPatch(np: NewPenalty): PenaltyPatch {
    PenaltyPatch(Some(np.ticketNo), Some(np.vrm), Some(np.vehicleMake), Some(np.penaltyAmount),
                 Some(np.dateIssued), Some(np.site), Some(np.reasonForIssue), Some(np.badgeId), np.status)
  }

  /** The stored row carries every column of the penalty as the database
      converts it. */
  predicate Stores(p: Penalty, np: NewPenalty) {
    p.ticketNo == np.ticketNo && p.vrm == np.vrm && p.vehicleMake == np.vehicleMake
    && ToPence(np.penaltyAmount) == Success(p.penaltyAmount) && np.dateIssued == Valid(p.dateIssued)
    && p.site == np.site && p.reasonForIssue == np.reasonForIssue && p.badgeId == np.badgeId
    && p.status == np.status.GetOr(DefaultPenaltyStatus)
  }

  /** Look the ticket number up, then `updatePenalty` the row found or
      `createPenalty` a new one. */
  function Upsert(db: Db, np: NewPenalty, now: int): (r: Result<(Db, Penalty), DbError>)
    ensures r.Success? && np.status.Some? ==> Stores(r.value.1, np)
    ensures r.Success? && GetPenaltyByTicketNo(db, np.ticketNo).Some? ==> r.value.1.id == GetPenaltyByTicketNo(db, np.ticketNo).value.id
  {
    match GetPenaltyByTicketNo(db, np.ticketNo)
    case Some(p) => UpdatePenalty(db, p.id, FullPatch(np), now)
    case None => CreatePenalty(db, np, now)
  }

  /** One pass of the loop body: the row's outcome and the store after it.
      A refused row leaves the store as it was. */
  function IngestRow(db: Db, row: Row, rowNum: nat, now: int, generic: string -> Time): (r: (Db, Option<RowError>))
    ensures r.1.Some? ==> r.0 == db && r.1.value.rowNum == rowNum
  {
    if !HasRequired(row) then (db, Some(MissingFields(rowNum)))
    else if !Positive(CheckedAmount(At(row, 3))) then (db, Some(InvalidAmount(rowNum)))
    else
      match Upsert(db, RowPenalty(row, now, generic), now)
      case Failure(e) => (db, Some(StoreFailed(rowNum, e)))
      case Success((db', _)) => (db', None)
  }

  /** The three ways a row ends: refused for a missing cell, refused for its
      amount, or upserted, in which case the store is the upsert's. */
  lemma IngestRowCases(db: Db, row: Row, rowNum: nat, now: int, generic: string -> Time)
    ensures var r := IngestRow(db, row, rowNum, now, generic);
      && (!HasRequired(row) ==> r == (db, Some(MissingFields(rowNum))))
      && (HasRequired(row) && !Positive(CheckedAmount(At(row, 3))) ==> r == (db, Some(InvalidAmount(rowNum))))
      && (r.1.None? <==> HasRequired(row) && Positive(CheckedAmount(At(row, 3)))
                         && Upsert(db, RowPenalty(row, now, generic), now).Success?)
      && (r.1.None? ==> r.0 == Upsert(db, RowPenalty(row, now, generic), now).value.0)
  {
  }

  // ---------------------------------------------------------------------------
  // The loop

  /** What one pass of the loop body does to the store, given the row and
      its number. */
  type RowStep = (Db, Row, nat) -> (Db, Option<RowError>)

  /** The loop body of `processExcelFile` at a fixed clock and date parser. */
  function Loader(now: int, generic: string -> Time): (f: RowStep)
    ensures forall d, row, n :: f(d, row, n) == IngestRow(d, row, n, now, generic)
  {
    (d: Db, row: Row, n: nat) => IngestRow(d, row, n, now, generic)
  }

  /** A row step that never blames another row than the one it was given. */
  ghost predicate Numbered(f: RowStep) {
    forall d, row, n :: f(d, row, n).1.Some? ==> f(d, row, n).1.value.rowNum == n
  }

  /** The rows from `start` on, front to back, each seeing the store the
      previous ones left; every row is counted once, as loaded or as an
      error. */
  function Fold(db: Db, rows: seq<Row>, start: nat, f: RowStep): (o: Outcome)
    ensures o.processed + |o.errors| == |rows|
    decreases |rows|
  {
    if rows == [] then Outcome(db, 0, [])
    else
      var r := f(db, rows[0], start);
      Join(Step(r.0, r.1), Fold(r.0, rows[1..], start + 1, f))
  }

  /** The row at `i`, then the rest. */
  lemma FoldCons(db: Db, rows: seq<Row>, i: nat, f: RowStep)
    requires i < |rows|
    ensures var r := f(db, rows[i], i + 2);
      Fold(db, rows[i..], i + 2, f) == Join(Step(r.0, r.1), Fold(r.0, rows[i + 1..], i + 3, f))
  {
    assert rows[i..][0] == rows[i] && rows[i..][1..] == rows[i + 1..];
  }

  /** Every error names a row in `[lo, hi)`. */
  predicate RowsWithin(es: seq<RowError>, lo: int, hi: int) {
    forall k :: 0 <= k < |es| ==> lo <= es[k].rowNum < hi
  }

  /** The errors name their rows in strictly increasing order. */
  predicate RowsIncreasing(es: seq<RowError>) {
    forall k, l :: 0 <= k < l < |es| ==> es[k].rowNum < es[l].rowNum
  }

  /** An error for row `lo` put in front of errors for later rows. */
  lemma ConsRows(e: RowError, es: seq<RowError>, lo: int, hi: int)
    requires e.rowNum == lo < hi && RowsWithin(es, lo + 1, hi) && RowsIncreasing(es)
    ensures RowsWithin([e] + es, lo, hi) && RowsIncreasing([e] + es)
  {
    var t := [e] + es;
    forall k | 0 <= k < |t| ensures lo <= t[k].rowNum < hi {
      if k > 0 { assert t[k] == es[k - 1]; }
    }
    forall k, l | 0 <= k < l < |t| ensures t[k].rowNum < t[l].rowNum {
      assert t[l] == es[l - 1];
      if k > 0 { assert t[k] == es[k - 1]; }
    }
  }

  lemma WithinWiden(es: seq<RowError>, lo: int, lo': int, hi: int)
    requires lo' <= lo && RowsWithin(es, lo, hi)
    ensures RowsWithin(es, lo', hi)
  {
  }

  /** The errors of a fold name rows in its range, in increasing order. */
  lemma {:induction false} FoldNumbers(db: Db, rows: seq<Row>, start: nat, f: RowStep)
    requires Numbered(f)
    ensures RowsWithin(Fold(db, rows, start, f).errors, start, start + |rows|)
    ensures RowsIncreasing(Fold(db, rows, start, f).errors)
    decreases |rows|
  {
    if rows != [] {
      var r := f(db, rows[0], start);
      var rest := Fold(r.0, rows[1..], start + 1, f).errors;
      FoldNumbers(r.0, rows[1..], start + 1, f);
      var es := Fold(db, rows, start, f).errors;
      assert es == Step(r.0, r.1).errors + rest;
      assert start + 1 + |rows[1..]| == start + |rows|;
      if r.1.Some? {
        assert r.1.value.rowNum == start;
        ConsRows(r.1.value, rest, start, start + |rows|);
      } else {
        WithinWiden(rest, start + 1, start, start + |rows|);
      }
    }
  }

  /** The rows from `start` on, processed by the real loop body: every row is
      counted once, as loaded or as an error, and the errors name their
      rows in increasing order. */
  function IngestFrom(db: Db, rows: seq<Row>, start: nat, now: int, generic: string -> Time): (o: Outcome)
    ensures o.processed + |o.errors| == |rows|
    ensures forall k :: 0 <= k < |o.errors| ==> start <= o.errors[k].rowNum < start + |rows|
    ensures forall k, l :: 0 <= k < l < |o.errors| ==> o.errors[k].rowNum < o.errors[l].rowNum
  {
    var f := Loader(now, generic);
    assert Numbered(f) by {
      forall d, row, n ensures f(d, row, n).1.Some? ==> f(d, row, n).1.value.rowNum == n {
        assert f(d, row, n) == IngestRow(d, row, n, now, generic);
      }
    }
    FoldNumbers(db, rows, start, f);
    Fold(db, rows, start, f)
  }

  /** The first row, then the rest. */
  lemma IngestFromCons(db: Db, rows: seq<Row>, start: nat, now: int, generic: string -> Time)
    requires rows != []
    ensures var (d, e) := IngestRow(db, rows[0], start, now, generic);
      IngestFrom(db, rows, start, now, generic) == Join(Step(d, e), IngestFrom(d, rows[1..], start + 1, now, generic))
  {
  }

  /** A single row's outcome. */
  function Step(d: Db, e: Option<RowError>): (o: Outcome)
    ensures o.processed + |o.errors| == 1
  {
    if e.None? then Outcome(d, 1, []) else Outcome(d, 0, [e.value])
  }

  /** The outcome of two runs in sequence: the later store, counts added,
      errors in order. */
  function Join(a: Outcome, b: Outcome): (o: Outcome)
    ensures o.processed == a.processed + b.processed && o.errors == a.errors + b.errors && o.db == b.db
  {
    Outcome(b.db, a.processed + b.processed, a.errors + b.errors)
  }

  /** The `for` loop over the data rows, numbered from 2, with a running
      count and error list. */
  method RunRows(db: Db, rows: seq<Row>, f: RowStep) returns (o: Outcome)
    ensures o == Fold(db, rows, 2, f)
  {
    o := Outcome(db, 0, []);
    var i := 0;
    while i < |rows|
      invariant 0 <= i <= |rows|
      invariant Join(o, Fold(o.db, rows[i..], i + 2, f)) == Fold(db, rows, 2, f)
      decreases |rows| - i
    {
      var r := f(o.db, rows[i], i + 2);
      FoldCons(o.db, rows, i, f);
      JoinAssociative(o, Step(r.0, r.1), Fold(r.0, rows[i + 1..], i + 3, f));
      o := Join(o, Step(r.0, r.1));
      i := i + 1;
    }
    assert rows[i..] == [];
  }

  /** `processExcelFile`'s loop over the data rows. */
  method ProcessRows(db: Db, rows: seq<Row>, now: int, generic: string -> Time) returns (o: Outcome)
    ensures o == IngestFrom(db, rows, 2, now, generic)
    ensures o.processed + |o.errors| == |rows|
  {
    o := RunRows(db, rows, Loader(now, generic));
  }

  lemma JoinAssociative(a: Outcome, b: Outcome, c: Outcome)
    ensures Join(a, Join(b, c)) == Join(Join(a, b), c)
  {
    assert a.errors + (b.errors + c.errors) == (a.errors + b.errors) + c.errors;
  }

  /** `Failed to process Excel file: ` and the download's message. */
  function FailedToProcess(message: string): (m: string)
    ensures StartsWith(m, FailedToProcessHead)
  {
    ConcatStartsWith(FailedToProcessHead, message);
    FailedToProcessHead + message
  }

  const FailedToProcessHead := "Failed to process Excel file: "

  /** `processExcelFile`: a download or read failure is rethrown with its
      message; otherwise every data row of the first sheet is processed by
      `load`, which the routes instantiate with `Loader`. */
  function ProcessExcelFile(c: Container, db: Db, fileName: string, load: RowStep)
    : (r: Result<Outcome, string>)
    ensures Download(c, fileName).Failure? ==> r == Failure(FailedToProcess(ErrorMessage(Download(c, fileName).error)))
    ensures Download(c, fileName).Success? ==> r.Success? && |r.value.errors| + r.value.processed == |DataRows(Download(c, fileName).value)|
  {
    match Download(c, fileName)
    case Failure(e) => Failure(FailedToProcess(ErrorMessage(e)))
    case Success(sheet) => Success(Fold(db, DataRows(sheet), 2, load))
  }

  // ---------------------------------------------------------------------------
  // Every workbook in the container

  /** One entry of `results`: the file, the rows loaded, and the messages. */
  datatype FileResult = FileResult(file: string, processed: nat, errors: seq<string>)

  /** The result a file gets: a failed file counts zero rows and carries
      the one message it failed with. */
  function FileOutcome(file: string, r: Result<Outcome, string>): FileResult {
    match r
    case Failure(msg) => FileResult(file, 0, [msg])
    case Success(o) => FileResult(file, o.processed, MapSeq(o.errors, RowMessage))
  }

  /** The loop of `checkAndProcessNewFiles`: each file in turn against the
      store the previous files left. A file whose download fails changes
      nothing and is not listed as processed. */
  function ProcessFiles(c: Container, db: Db, files: seq<string>, load: RowStep)
    : (r: (Db, seq<string>, seq<FileResult>))
    ensures |r.2| == |files| && forall i :: 0 <= i < |files| ==> r.2[i].file == files[i]
    ensures forall f :: f in r.1 <==> f in files && Download(c, f).Success?
    decreases |files|
  {
    if files == [] then (db, [], [])
    else
      var f := files[0];
      var res := ProcessExcelFile(c, db, f, load);
      var db1 := if res.Success? then res.value.db else db;
      var rest := ProcessFiles(c, db1, files[1..], load);
      assert forall g :: g in files <==> g == f || g in files[1..];
      (rest.0, (if res.Success? then [f] else []) + rest.1, [FileOutcome(f, res)] + rest.2)
  }

  /** `checkAndProcessNewFiles`: a failed listing is thrown; otherwise every
      `.xlsx` or `.xls` blob, in listing order, is processed. */
  function CheckAndProcessNewFiles(c: Container, db: Db, load: RowStep)
    : (r: Result<(Db, seq<string>, seq<FileResult>), StoreError>)
    ensures ListFiles(c).Failure? ==> r == Failure(ListFiles(c).error)
    ensures r.Success? ==> |r.value.2| == |WorkbookNames(ListFiles(c).value)|
    ensures r.Success? ==> forall f :: f in r.value.1 ==> IsWorkbookName(f) && Download(c, f).Success?
    ensures r.Success? ==> forall f :: f in ListFiles(c).value && IsWorkbookName(f) && Download(c, f).Success? ==> f in r.value.1
  {
    match ListFiles(c)
    case Failure(e) => Failure(e)
    case Success(names) => Success(ProcessFiles(c, db, WorkbookNames(names), load))
  }

  // ---------------------------------------------------------------------------
  // Properties

  /** The stored amount of a rounded value is its number of hundredths. */
  lemma StoredPence(p: int)
    ensures SignedHundredths(Dec(p, -2)) == p
  {
    assert Pow10(0) == 1;
  }

  /** A loaded row's amount is a positive number of pence. */
  lemma LoadedAmountPositive(c: Cell)
    requires Positive(CheckedAmount(c)) && ToPence(CheckedAmount(c)).Success?
    ensures ToPence(CheckedAmount(c)).value > 0
  {
    StoredPence(SignedHundredths(AmountValue(c).d));
  }

  /** In a consistent store an upsert fails only when the date or the amount
      cannot be converted; it keeps the store consistent, leaves the row
      findable by its ticket number, and adds a row only for a new ticket. */
  lemma UpsertThenGet(db: Db, np: NewPenalty, now: int)
    requires Consistent(db)
    ensures Upsert(db, np, now).Failure? <==> np.dateIssued.Invalid? || ToPence(np.penaltyAmount).Failure?
    ensures Upsert(db, np, now).Success? ==> var (db', row) := Upsert(db, np, now).value;
      Consistent(db') && GetPenaltyByTicketNo(db', np.ticketNo) == Some(row)
      && |db'.penalties| == |db.penalties| + (if GetPenaltyByTicketNo(db, np.ticketNo).Some? then 0 else 1)
  {
    match GetPenaltyByTicketNo(db, np.ticketNo)
    case None =>
      if CreatePenalty(db, np, now).Success? {
        CreatePenaltyThenGet(db, np, now);
        CreatePenaltyConsistent(db, np, now);
      }
    case Some(p) =>
      var k := FindKey(db.penalties, TicketOf, np.ticketNo).value;
      DistinctFindKey(db.penalties, PenaltyKey, k);
      assert !TicketTakenElsewhere(db.penalties, k, np.ticketNo);
      if UpdatePenalty(db, p.id, FullPatch(np), now).Success? {
        var (db', row) := UpdatePenalty(db, p.id, FullPatch(np), now).value;
        UpdatePenaltyConsistent(db, p.id, FullPatch(np), now);
        assert db'.penalties[k] == row;
        DistinctFindKey(db'.penalties, TicketOf, k);
      }
  }

  /** An upsert touches no other ticket number. */
  lemma UpsertKeepsOtherTickets(db: Db, np: NewPenalty, now: int, t: string)
    requires Consistent(db) && Upsert(db, np, now).Success? && t != np.ticketNo
    ensures GetPenaltyByTicketNo(Upsert(db, np, now).value.0, t) == GetPenaltyByTicketNo(db, t)
  {
    var (db', row) := Upsert(db, np, now).value;
    match GetPenaltyByTicketNo(db, np.ticketNo)
    case None =>
      FindKeyAppendOther(db.penalties, row, TicketOf, t);
    case Some(p) =>
      var k := FindKey(db.penalties, TicketOf, np.ticketNo).value;
      DistinctFindKey(db.penalties, PenaltyKey, k);
      FindKeyReplaceOther(db.penalties, k, row, TicketOf, t);
  }

  /** A row with another ticket number keeps the store consistent and the
      penalty under `t` as it was. */
  lemma IngestRowKeepsOtherTickets(db: Db, row: Row, rowNum: nat, now: int, generic: string -> Time, t: string)
    requires Consistent(db) && TrimmedText(At(row, 0)) != Some(t)
    ensures var d := IngestRow(db, row, rowNum, now, generic).0;
      Consistent(d) && GetPenaltyByTicketNo(d, t) == GetPenaltyByTicketNo(db, t)
  {
    var np := RowPenalty(row, now, generic);
    IngestRowCases(db, row, rowNum, now, generic);
    if IngestRow(db, row, rowNum, now, generic).1.None? {
      UpsertThenGet(db, np, now);
      UpsertKeepsOtherTickets(db, np, now, t);
    }
  }

  /** Processing rows keeps the store consistent. */
  lemma {:induction false} IngestConsistent(db: Db, rows: seq<Row>, start: nat, now: int, generic: string -> Time)
    requires Consistent(db)
    ensures Consistent(IngestFrom(db, rows, start, now, generic).db)
    decreases |rows|
  {
    if rows != [] {
      var (d, e) := IngestRow(db, rows[0], start, now, generic);
      IngestFromCons(db, rows, start, now, generic);
      IngestRowCases(db, rows[0], start, now, generic);
      if e.None? { UpsertThenGet(db, RowPenalty(rows[0], now, generic), now); }
      IngestConsistent(d, rows[1..], start + 1, now, generic);
    }
  }

  /** Rows whose ticket number is not `t` leave the penalty under `t` as it was. */
  lemma IngestKeepsOtherTickets(db: Db, rows: seq<Row>, start: nat, now: int, generic: string -> Time, t: string)
    requires Consistent(db)
    requires forall i :: 0 <= i < |rows| ==> TrimmedText(At(rows[i], 0)) != Some(t)
    ensures GetPenaltyByTicketNo(IngestFrom(db, rows, start, now, generic).db, t) == GetPenaltyByTicketNo(db, t)
  {
    var f := Loader(now, generic);
    forall d, row, n | Consistent(d) && TrimmedText(At(row, 0)) != Some(t)
      ensures Consistent(f(d, row, n).0) && GetPenaltyByTicketNo(f(d, row, n).0, t) == GetPenaltyByTicketNo(d, t)
    {
      IngestRowKeepsOtherTickets(d, row, n, now, generic, t);
    }
    FoldKeepsTicket(db, rows, start, f, t);
  }

  /** A row step that keeps the store consistent and, for rows with another
      ticket number, the penalty under `t`. */
  ghost predicate KeepsTicket(f: RowStep, t: string) {
    forall d, row, n :: Consistent(d) && TrimmedText(At(row, 0)) != Some(t) ==>
      Consistent(f(d, row, n).0) && GetPenaltyByTicketNo(f(d, row, n).0, t) == GetPenaltyByTicketNo(d, t)
  }

  lemma {:induction false} FoldKeepsTicket(db: Db, rows: seq<Row>, start: nat, f: RowStep, t: string)
    requires Consistent(db) && KeepsTicket(f, t)
    requires forall i :: 0 <= i < |rows| ==> TrimmedText(At(rows[i], 0)) != Some(t)
    ensures GetPenaltyByTicketNo(Fold(db, rows, start, f).db, t) == GetPenaltyByTicketNo(db, t)
    decreases |rows|
  {
    if rows != [] {
      var d := f(db, rows[0], start).0;
      assert forall i :: 0 <= i < |rows[1..]| ==> rows[1..][i] == rows[i + 1];
      FoldKeepsTicket(d, rows[1..], start + 1, f, t);
    }
  }

  /** Processing two blocks of rows in one run leaves the store that
      processing them one after the other does. */
  lemma IngestConcat(db: Db, a: seq<Row>, b: seq<Row>, start: nat, now: int, generic: string -> Time)
    ensures IngestFrom(db, a + b, start, now, generic).db
         == IngestFrom(IngestFrom(db, a, start, now, generic).db, b, start + |a|, now, generic).db
  {
    FoldConcat(db, a, b, start, Loader(now, generic));
  }

  lemma {:induction false} FoldConcat(db: Db, a: seq<Row>, b: seq<Row>, start: nat, f: RowStep)
    ensures Fold(db, a + b, start, f).db == Fold(Fold(db, a, start, f).db, b, start + |a|, f).db
    decreases |a|
  {
    if a == [] {
      assert a + b == b;
    } else {
      assert (a + b)[0] == a[0] && (a + b)[1..] == a[1..] + b;
      FoldConcat(f(db, a[0], start).0, a[1..], b, start + 1, f);
    }
  }

  /** The last row with a ticket number wins: when a loaded row is followed
      only by rows with other ticket numbers, the store ends up holding
      exactly that row's penalty under its ticket number. */
  lemma LastOccurrenceWins(db: Db, a: seq<Row>, row: Row, b: seq<Row>, now: int, generic: string -> Time)
    requires Consistent(db)
    requires IngestRow(IngestFrom(db, a, 2, now, generic).db, row, 2 + |a|, now, generic).1.None?
    requires forall i :: 0 <= i < |b| ==> TrimmedText(At(b[i], 0)) != TrimmedText(At(row, 0))
    ensures var np := RowPenalty(row, now, generic);
      var p := GetPenaltyByTicketNo(IngestFrom(db, a + [row] + b, 2, now, generic).db, np.ticketNo);
      p.Some? && Stores(p.value, np)
  {
    var np := RowPenalty(row, now, generic);
    var da := IngestFrom(db, a, 2, now, generic).db;
    var dr := IngestRow(da, row, 2 + |a|, now, generic).0;
    assert Consistent(da) by { IngestConsistent(db, a, 2, now, generic); }
    assert IngestFrom(db, a + [row] + b, 2, now, generic).db == IngestFrom(dr, b, 2 + |a| + 1, now, generic).db by {
      IngestPrefixRow(db, a, row, b, now, generic);
    }
    IngestRowLoaded(da, row, 2 + |a|, now, generic);
    IngestKeepsOtherTickets(dr, b, 2 + |a| + 1, now, generic, np.ticketNo);
  }

  /** The store after `a`, one row, then `b` is the store `b` leaves when
      started from the store the row left. */
  lemma IngestPrefixRow(db: Db, a: seq<Row>, row: Row, b: seq<Row>, now: int, generic: string -> Time)
    ensures var dr := IngestRow(IngestFrom(db, a, 2, now, generic).db, row, 2 + |a|, now, generic).0;
      IngestFrom(db, a + [row] + b, 2, now, generic).db == IngestFrom(dr, b, 2 + |a| + 1, now, generic).db
  {
    var da := IngestFrom(db, a, 2, now, generic).db;
    IngestConcat(db, a + [row], b, 2, now, generic);
    IngestConcat(db, a, [row], 2, now, generic);
    IngestFromCons(da, [row], 2 + |a|, now, generic);
    assert [row][0] == row && [row][1..] == [];
  }

  /** A loaded row leaves a consistent store holding its penalty under its
      ticket number. */
  lemma IngestRowLoaded(db: Db, row: Row, rowNum: nat, now: int, generic: string -> Time)
    requires Consistent(db) && IngestRow(db, row, rowNum, now, generic).1.None?
    ensures var d := IngestRow(db, row, rowNum, now, generic).0; var np := RowPenalty(row, now, generic);
      Consistent(d) && GetPenaltyByTicketNo(d, np.ticketNo).Some? && Stores(GetPenaltyByTicketNo(d, np.ticketNo).value, np)
      && TrimmedText(At(row, 0)) == Some(np.ticketNo)
  {
    IngestRowCases(db, row, rowNum, now, generic);
    UpsertThenGet(db, RowPenalty(row, now, generic), now);
  }
}
