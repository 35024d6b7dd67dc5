/** A decoded worksheet as the spreadsheet reader hands it over with
    `header: 1`: rows of cells, each a number, a string or nothing. */
module Cells {
  import opened Wrappers
  import opened JsText
  import opened JsNumber

  /** One cell: a finite number, a string, or `undefined` (an absent cell). */
  datatype Cell = Num(value: Dec) | Str(text: string) | Empty

  type Row = seq<Cell>
  type Sheet = seq<Row>

  /** `row[i]`: reading past the end of a row gives `undefined`. */
  function At(row: Row, i: nat): (c: Cell)
    ensures i >= |row| ==> c == Empty
    ensures i < |row| ==> c == row[i]
  {
    if i < |row| then row[i] else Empty
  }

  /** `!cell`: `undefined`, the empty string and the number zero are falsy;
      a string of spaces is not. */
  predicate Falsy(c: Cell) {
    match c
    case Empty => true
    case Str(s) => s == []
    case Num(d) => d.mant == 0
  }

  /** `cell?.toString()`: no text for an absent cell. */
  function CellString(c: Cell): (r: Option<string>)
    ensures r.None? <==> c.Empty?
  {
    match c
    case Empty => None
    case Str(s) => Some(s)
    case Num(d) => Some(NumberToString(d))
  }

  /** `cell?.toString().trim()`. */
  function TrimmedText(c: Cell): (r: Option<string>)
    ensures r.None? <==> c.Empty?
    ensures r.Some? ==> r.value == Trim(CellString(c).value)
  {
    match CellString(c)
    case None => None
    case Some(s) => Some(Trim(s))
  }

  /** `cell?.toString().trim() || null`: the trimmed text, or nothing when the
      cell is absent or only white space. */
  function TextOrNull(c: Cell): (r: Option<string>)
    ensures r.Some? ==> r.value != [] && r == TrimmedText(c)
    ensures r.None? ==> c.Empty? || TrimmedText(c) == Some([])
  {
    match TrimmedText(c)
    case Some(t) => if t == [] then None else Some(t)
    case None => None
  }

  /** `sheet.slice(1)`: the data rows, without the header row. */
  function DataRows(sheet: Sheet): (rows: seq<Row>)
    ensures |rows| == if sheet == [] then 0 else |sheet| - 1
    ensures forall i :: 0 <= i < |rows| ==> rows[i] == sheet[i + 1]
  {
    if sheet == [] then [] else sheet[1..]
  }
}
