/**
 * The spreadsheet as `sheet_to_json(…, { header: 1 })` hands it over: an
 * array of rows, each an array of cell values. A cell is a string, a number
 * or missing (a hole in the row, read as `undefined`).
 */
module Sheet {
  import opened Wrappers
  import opened Strings

  datatype Cell = Str(text: string) | Num(value: int) | Blank

  type Row = seq<Cell>

  /** `row[i]`: reading past the end of a row gives `undefined`. */
  function CellAt(row: Row, i: int): (c: Cell)
    ensures 0 <= i < |row| ==> c == row[i]
    ensures !(0 <= i < |row|) ==> c == Blank
  {
    if 0 <= i < |row| then row[i] else Blank
  }

  /** `String(cell)`. */
  function Text(c: Cell): string {
    match c
    case Str(t) => t
    case Num(v) => IntToString(v)
    case Blank => "undefined"
  }

  /** `data[0] || []`: the header row, or none for an empty sheet. */
  function HeaderRow(data: seq<Row>): (h: Row)
    ensures data != [] ==> h == data[0]
    ensures data == [] ==> h == []
  {
    if data == [] then [] else data[0]
  }

  /** The first position whose cell satisfies `p`. */
  function FirstWhere(row: Row, p: Cell -> bool): (r: Option<nat>)
    ensures r.None? <==> forall j :: 0 <= j < |row| ==> !p(row[j])
    ensures r.Some? ==> r.value < |row| && p(row[r.value]) && forall j :: 0 <= j < r.value ==> !p(row[j])
    decreases |row|
  {
    if row == [] then None
    else if p(row[0]) then Some(0)
    else match FirstWhere(row[1..], p)
      case None => None
      case Some(i) => Some(i + 1)
  }

  /** A search loop over a header row: the first cell that satisfies `p`,
      or none. */
  method FindHeader(header: Row, p: Cell -> bool) returns (r: Option<nat>)
    ensures r == FirstWhere(header, p)
  {
    var i := 0;
    while i < |header|
      invariant 0 <= i <= |header|
      invariant forall j :: 0 <= j < i ==> !p(header[j])
    {
      if p(header[i]) {
        FirstWhereUnique(header, p, i);
        return Some(i);
      }
      i := i + 1;
    }
    r := None;
  }

  lemma FirstWhereUnique(row: Row, p: Cell -> bool, i: nat)
    requires i < |row| && p(row[i]) && forall j :: 0 <= j < i ==> !p(row[j])
    ensures FirstWhere(row, p) == Some(i)
  {
  }
}
