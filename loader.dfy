/**
 * The `load-excel-data` handler of main.js: the domain column of the desktop
 * front end's sheet and the list of entries its table starts from. Opening
 * the workbook is outside the model; the handler starts here from the rows
 * of the first sheet.
 */
module Loader {
  import opened Wrappers
  import opened Strings
  import opened Sheet
  import opened Domain
  import opened Seqs

  // Column detection (main.js:89-120).

  const FirstColumn: nat := 0
  const ExactKeywords: seq<string> := ["도메인주소", "domain", "url", "website", "사이트", "link", "링크", "주소"]
  const PartialKeywords: seq<string> :=
    ["domain", "url", "website", "site", "link", "address", "도메인", "사이트", "링크", "주소"]

  /** `String(headerRow[i]).toLowerCase().trim()`. */
  function HeaderText(c: Cell): string {
    Trim(Lower(Text(c)))
  }

  predicate ExactHeader(c: Cell) {
    HeaderText(c) in ExactKeywords
  }

  predicate PartialHeader(c: Cell) {
    exists k :: 0 <= k < |PartialKeywords| && Includes(HeaderText(c), PartialKeywords[k])
  }

  /** The column choice as main.js writes it: the partial search runs while
      the column is still 0, also when the exact keyword was found in column A. */
  function DetectedColumn(header: Row): nat {
    var exact := match FirstWhere(header, ExactHeader) case Some(i) => i case None => FirstColumn;
    if exact != FirstColumn then exact
    else match FirstWhere(header, PartialHeader) case Some(i) => i case None => FirstColumn
  }

  /** The search loops of main.js:89-115. */
  method DetectColumn(header: Row) returns (col: nat)
    ensures col == DetectedColumn(header)
  {
    col := FirstColumn;
    var exact := FindHeader(header, ExactHeader);
    if exact.Some? {
      col := exact.value;
    }
    if col == FirstColumn {
      var partial := FindHeader(header, PartialHeader);
      if partial.Some? {
        col := partial.value;
      }
    }
  }

  /** Every exact keyword begins with a partial keyword. */
  lemma KeywordIsPartial(h: string)
    requires h in ExactKeywords
    ensures exists p :: 0 <= p < |PartialKeywords| && Includes(h, PartialKeywords[p])
  {
    var p :=
      if h == ExactKeywords[0] then 6
      else if h == ExactKeywords[1] then 0
      else if h == ExactKeywords[2] then 1
      else if h == ExactKeywords[3] then 2
      else if h == ExactKeywords[4] then 7
      else if h == ExactKeywords[5] then 4
      else if h == ExactKeywords[6] then 8
      else 9;
    assert StartsWith(h, PartialKeywords[p]);
  }

  /** A header equal to an exact keyword also contains a partial one. */
  lemma ExactIsPartial(c: Cell)
    requires ExactHeader(c)
    ensures PartialHeader(c)
  {
    KeywordIsPartial(HeaderText(c));
  }

  /** Unlike index.js, the sentinel is harmless here: the result is the first
      header equal to an exact keyword, else the first one containing a
      partial keyword, else column A; so it is column A or a header column. */
  lemma DetectedColumnSpec(header: Row)
    ensures var col := DetectedColumn(header);
      && (col == FirstColumn || col < |header|)
      && ((exists i :: 0 <= i < |header| && ExactHeader(header[i])) ==>
            col < |header| && ExactHeader(header[col]) && forall j :: 0 <= j < col ==> !ExactHeader(header[j]))
      && ((forall i :: 0 <= i < |header| ==> !ExactHeader(header[i]))
          && (exists i :: 0 <= i < |header| && PartialHeader(header[i])) ==>
            col < |header| && PartialHeader(header[col]) && forall j :: 0 <= j < col ==> !PartialHeader(header[j]))
      && ((forall i :: 0 <= i < |header| ==> !PartialHeader(header[i])) ==> col == FirstColumn)
  {
    var exact := FirstWhere(header, ExactHeader);
    if exact == Some(FirstColumn) {
      ExactIsPartial(header[0]);
    }
    if forall i :: 0 <= i < |header| ==> !PartialHeader(header[i]) {
      forall i | 0 <= i < |header| ensures !ExactHeader(header[i]) {
        if ExactHeader(header[i]) {
          ExactIsPartial(header[i]);
        }
      }
    }
  }

  // Entry extraction (main.js:123-154).

  /** A row of the table of the desktop front end. */
  datatype Entry = Entry(
    originalIndex: nat,
    url: string,
    status: string,
    httpStatus: string,
    httpsStatus: string,
    responseTime: Option<nat>)

  const Pending: string := "pending"

  predicate NonEmpty(row: Row) {
    |row| > 0
  }

  /** `jsonData.slice(1).filter(row => row && row.length > 0)`. */
  function KeptRows(data: seq<Row>): seq<Row> {
    if data == [] then [] else Filter(data[1..], NonEmpty)
  }

  /** The cell as a string: `String(domain || '')` for what is not a string,
      so a missing cell and the number 0 give the empty string. */
  function CellString(c: Cell): string {
    match c
    case Str(t) => t
    case Num(v) => if v == 0 then "" else IntToString(v)
    case Blank => ""
  }

  /** What the `map` callback makes of cell `c` of kept row `index`. */
  function EntryFor(c: Cell, index: nat): (r: Option<Entry>)
    ensures r.Some? <==> Normalize(CellString(c)).Some?
    ensures r.Some? ==>
      r.value.originalIndex == index && IsHostLike(r.value.url)
      && Normalize(CellString(c)) == Some(r.value.url)
      && r.value.status == Pending && r.value.httpStatus == Pending && r.value.httpsStatus == Pending
      && r.value.responseTime.None?
  {
    var d := CellString(c);
    if d == "" || Trim(d) == "" then None
    else
      NormalizeTrimmed(d);
      match Normalize(Trim(d))
      case None => None
      case Some(n) => Some(Entry(index, n, Pending, Pending, Pending, None))
  }

  /** What the `map` callback makes of kept row `index`. */
  function EntryOf(row: Row, col: nat, index: nat): Option<Entry> {
    EntryFor(CellAt(row, col), index)
  }

  /** `normalizeDomain(domain.trim())` is `normalizeDomain(domain)`. */
  lemma NormalizeTrimmed(d: string)
    requires Trim(d) != ""
    ensures Normalize(Trim(d)) == Normalize(d)
  {
    TrimFixed(Trim(d));
  }

  /** The callback's result for every kept row, in order. */
  function Mapped(rows: seq<Row>, col: nat): (r: seq<Option<Entry>>)
    ensures |r| == |rows|
  {
    seq(|rows|, i requires 0 <= i < |rows| => EntryOf(rows[i], col, i))
  }

  /** The entries the handler returns for column `col`. */
  function LoadDomains(data: seq<Row>, col: nat): seq<Entry> {
    Collect(Mapped(KeptRows(data), col), Present)
  }

  /** The handler's entries for the column it detects. */
  function LoadExcelData(data: seq<Row>): seq<Entry> {
    LoadDomains(data, DetectedColumn(HeaderRow(data)))
  }

  /** `originalIndex` counts the non-empty rows after the header, not the
      rows of the sheet: each entry is what the callback gives for the kept
      row at its index, the indices increase, and every kept row for which
      the callback gives an entry has it in the list. */
  lemma LoadDomainsSpec(data: seq<Row>, col: nat)
    ensures var kept := KeptRows(data); var m := Mapped(kept, col); var es := LoadDomains(data, col);
      && (forall k :: 0 <= k < |es| ==> es[k].originalIndex < |kept| && m[es[k].originalIndex] == Some(es[k]))
      && (forall k, l :: 0 <= k < l < |es| ==> es[k].originalIndex < es[l].originalIndex)
      && (forall i :: 0 <= i < |kept| && m[i].Some? ==> m[i].value in es)
  {
    var kept := KeptRows(data);
    var m := Mapped(kept, col);
    var key := (e: Entry) => e.originalIndex;
    forall i | 0 <= i < |m| && m[i].Some? ensures key(m[i].value) == i {
      assert m[i] == EntryFor(CellAt(kept[i], col), i);
    }
    GatherSpec(m, key);
  }

  /** Every entry is pending, with no time, and its URL is the normalised
      cell of its kept row. */
  lemma LoadDomainsPending(data: seq<Row>, col: nat)
    ensures var kept := KeptRows(data); var es := LoadDomains(data, col);
      forall k :: 0 <= k < |es| ==>
        es[k].originalIndex < |kept|
        && Normalize(CellString(CellAt(kept[es[k].originalIndex], col))) == Some(es[k].url)
        && IsHostLike(es[k].url) && es[k].status == Pending && es[k].httpStatus == Pending
        && es[k].httpsStatus == Pending && es[k].responseTime.None?
  {
    var kept := KeptRows(data);
    var m := Mapped(kept, col);
    var es := LoadDomains(data, col);
    LoadDomainsSpec(data, col);
    forall k | 0 <= k < |es|
      ensures Normalize(CellString(CellAt(kept[es[k].originalIndex], col))) == Some(es[k].url)
        && IsHostLike(es[k].url) && es[k].status == Pending && es[k].httpStatus == Pending
        && es[k].httpsStatus == Pending && es[k].responseTime.None?
    {
      var i := es[k].originalIndex;
      assert m[i] == EntryFor(CellAt(kept[i], col), i);
    }
  }
}
