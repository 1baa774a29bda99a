/**
 * `main` of index.js from end to end: help, arguments, the workbook, the
 * domain column (detected as the code does, including the column-F case
 * that `Cli.ColumnAsWrittenMissesF` describes), the candidates, the probes,
 * the result sheet and the summary. Reading and writing workbooks is outside the model: the sheets
 * that can be opened are a map from file name to the rows of their first
 * sheet, and what the run would write is returned as a value.
 */
module Tool {
  import opened Wrappers
  import opened Numbers
  import opened Sheet
  import opened Domain
  import opened Probe
  import opened Seqs
  import opened Fallback
  import opened Report
  import opened Cli

  // The result sheet (index.js:497-525).

  /** The six columns appended to the header row. */
  const ResultHeaders: Row :=
    [Str("접속가능여부"), Str("프로토콜"), Str("상태코드"), Str("응답시간(ms)"), Str("테스트URL"), Str("에러메시지")]

  /** `results.find(r => r.rowIndex === index)`, as the position found. */
  function FindIndex(results: seq<Outcome>, rowIndex: nat): (r: Option<nat>)
    ensures r.None? <==> forall k :: 0 <= k < |results| ==> results[k].rowIndex != rowIndex
    ensures r.Some? ==>
      r.value < |results| && results[r.value].rowIndex == rowIndex
      && forall k :: 0 <= k < r.value ==> results[k].rowIndex != rowIndex
    decreases |results|
  {
    if results == [] then None
    else if results[0].rowIndex == rowIndex then Some(0)
    else match FindIndex(results[1..], rowIndex)
      case None => None
      case Some(k) => Some(k + 1)
  }

  /** The cells appended to a row that was checked. */
  function ResultCells(f: Final): Row {
    match f
    case Reached(p, code, t, url) => [Str("성공"), Str(p.Label()), Num(code), Num(t), Str(url), Str("")]
    case Unreachable(he, hse, _) => [Str("실패"), Str(""), Str(""), Str(""), Str(""), Str(he + " / " + hse)]
  }

  /** Row `index` of `resultData`. */
  function ResultRow(row: Row, results: seq<Outcome>, index: nat): Row {
    if index == 0 then row + ResultHeaders
    else match FindIndex(results, index)
      case Some(k) => row + ResultCells(results[k].finalResult)
      case None => row
  }

  /** `data.map(…)`: each row of the input, with the result columns added. */
  function ResultData(data: seq<Row>, results: seq<Outcome>): (r: seq<Row>)
    ensures |r| == |data|
  {
    seq(|data|, i requires 0 <= i < |data| => ResultRow(data[i], results, i))
  }

  /** The appended cells line up with the headers; the first says whether a
      protocol was reached; a reached domain shows its protocol, status, time
      and URL and no error; an unreachable one shows only both errors. */
  lemma ResultCellsSpec(f: Final)
    ensures |ResultCells(f)| == |ResultHeaders|
    ensures ResultCells(f)[0] == Str("성공") <==> f.Reached?
    ensures ResultCells(f)[0] == Str("실패") <==> f.Unreachable?
    ensures f.Reached? ==>
      ResultCells(f)[1..] == [Str(f.protocol.Label()), Num(f.statusCode), Num(f.responseTime), Str(f.url), Str("")]
    ensures f.Unreachable? ==>
      (forall j :: 1 <= j < 5 ==> ResultCells(f)[j] == Str(""))
      && ResultCells(f)[5] == Str(f.httpError + " / " + f.httpsError)
  {
  }

  /** Every row keeps its cells in front; the header row gains the six
      headers; a later row gains the cells of the first result for it, and
      stays as it was when no result is for it. */
  lemma ResultDataSpec(data: seq<Row>, results: seq<Outcome>)
    ensures var r := ResultData(data, results);
      (forall i :: 0 <= i < |data| ==> |r[i]| >= |data[i]| && r[i][..|data[i]|] == data[i])
      && (data != [] ==> r[0] == data[0] + ResultHeaders)
      && (forall i :: 1 <= i < |data| ==>
            ((forall k :: 0 <= k < |results| ==> results[k].rowIndex != i) <==> r[i] == data[i]))
      && (forall i, k ::
            (1 <= i < |data| && 0 <= k < |results| && results[k].rowIndex == i
             && forall l :: 0 <= l < k ==> results[l].rowIndex != i) ==>
            r[i] == data[i] + ResultCells(results[k].finalResult))
  {
    var r := ResultData(data, results);
    forall i | 0 <= i < |data|
      ensures |r[i]| >= |data[i]| && r[i][..|data[i]|] == data[i]
    {
      if i > 0 {
        match FindIndex(results, i) {
          case Some(k) =>
            assert r[i] == data[i] + ResultCells(results[k].finalResult);
            ResultCellsSpec(results[k].finalResult);
          case None =>
        }
      }
    }
    forall i | 1 <= i < |data|
      ensures (forall k :: 0 <= k < |results| ==> results[k].rowIndex != i) <==> r[i] == data[i]
    {
      match FindIndex(results, i) {
        case Some(k) =>
          ResultCellsSpec(results[k].finalResult);
          assert |r[i]| == |data[i]| + 6;
        case None =>
      }
    }
  }

  /** With the results in increasing row order, as the sequential run produces them, the
      row of each result carries that result's cells. */
  lemma ResultRowsInOrder(data: seq<Row>, results: seq<Outcome>, k: nat)
    requires forall a, b :: 0 <= a < b < |results| ==> results[a].rowIndex < results[b].rowIndex
    requires k < |results| && 1 <= results[k].rowIndex < |data|
    ensures ResultData(data, results)[results[k].rowIndex]
         == data[results[k].rowIndex] + ResultCells(results[k].finalResult)
  {
    ResultDataSpec(data, results);
  }

  // The whole batch and the run.

  /** The outcomes of the tasks in order, or `None` when one of them throws. */
  function Outcomes(domains: seq<Candidate>, probe: Prober): Option<seq<Outcome>> {
    MapAll(domains, d => Resolve(d, probe))
  }

  /** The batch completes exactly when no task throws, and then outcome `i`
      is the outcome of task `i`. */
  lemma OutcomesSpec(domains: seq<Candidate>, probe: Prober)
    ensures Outcomes(domains, probe).Some? <==> forall i :: 0 <= i < |domains| ==> Resolve(domains[i], probe).Some?
    ensures Outcomes(domains, probe).Some? ==>
      |Outcomes(domains, probe).value| == |domains|
      && forall i :: 0 <= i < |domains| ==> Resolve(domains[i], probe) == Some(Outcomes(domains, probe).value[i])
  {
    MapAllSpec(domains, d => Resolve(d, probe));
  }

  /** Outcomes given one by one are the outcomes of the batch. */
  lemma OutcomesAre(domains: seq<Candidate>, probe: Prober, results: seq<Outcome>)
    requires |results| == |domains|
    requires forall i :: 0 <= i < |domains| ==> Resolve(domains[i], probe) == Some(results[i])
    ensures Outcomes(domains, probe) == Some(results)
  {
    MapAllAre(domains, d => Resolve(d, probe), results);
  }

  /** Records given one by one are the records of the batch. */
  lemma RecordsAre(results: seq<Outcome>, records: seq<StatusRecord>)
    requires |records| == |results|
    requires forall i :: 0 <= i < |results| ==> records[i] == StatusRecordOf(i, results[i])
    ensures records == RecordsOf(results)
  {
  }

  /** The outcomes keep the text and the row of their candidates. */
  lemma OutcomesRows(domains: seq<Candidate>, probe: Prober)
    requires Outcomes(domains, probe).Some?
    ensures var os := Outcomes(domains, probe).value;
      forall i :: 0 <= i < |domains| ==>
        os[i].original == domains[i].original && os[i].normalized == domains[i].normalized
        && os[i].rowIndex == domains[i].rowIndex
  {
    OutcomesSpec(domains, probe);
    forall i | 0 <= i < |domains| {
      ResolveSpec(domains[i], probe);
    }
  }

  /** The records written for the desktop front end, one per task. */
  function RecordsOf(results: seq<Outcome>): (r: seq<StatusRecord>)
    ensures |r| == |results|
  {
    seq(|results|, i requires 0 <= i < |results| => StatusRecordOf(i, results[i]))
  }

  /** How `main` ends. */
  datatype Finish =
    | ShowedHelp
    | NoFileName
    | FileMissing(name: string)
    | Aborted
    | Saved(resultData: seq<Row>, summary: Summary, records: seq<StatusRecord>)

  /** The arguments as the loop leaves them. */
  function ArgsOfArgv(argv: seq<string>): Args {
    ArgsOf(Classified(UserArgs(argv)))
  }

  /** The candidates a run checks in the sheet `data`. */
  function Domains(data: seq<Row>, a: Args): seq<Candidate> {
    var col := ColumnAsWritten(HeaderRow(data), a.columnIndex);
    Limited(Extracted(data, col, |data|), a.maxCount)
  }

  /** What `main` does with the rows of the workbook it opened. */
  function Checked(data: seq<Row>, a: Args, probe: Prober): Finish {
    match Outcomes(Domains(data, a), probe)
    case None => Aborted
    case Some(results) => Saved(ResultData(data, results), SummaryOf(results, |data| - 1), RecordsOf(results))
  }

  /** What `main` does, as a value. `files` maps the names of the files that
      exist to the rows of their first sheet. */
  function MainResult(argv: seq<string>, files: map<string, seq<Row>>, probe: Prober): Finish {
    if WantsHelp(argv) then ShowedHelp
    else
      var a := ArgsOfArgv(argv);
      if a.fileName.None? || a.fileName.value == "" then NoFileName
      else if a.fileName.value !in files then FileMissing(a.fileName.value)
      else Checked(files[a.fileName.value], a, probe)
  }

  /** The steps of `main` after the workbook is read. */
  method RunChecks(data: seq<Row>, a: Args, probe: Prober) returns (f: Finish)
    ensures f == Checked(data, a, probe)
  {
    var col := DetectColumnAsWritten(HeaderRow(data), a.columnIndex);
    var domains := ExtractCandidates(data, col, a.maxCount);
    var run, ok := ProbeAll(domains, probe);
    var results, records := run.results, run.records;
    if !ok {
      OutcomesSpec(domains, probe);
      return Aborted;
    }
    OutcomesAre(domains, probe, results);
    RecordsAre(results, records);
    var summary := GenerateSummary(results, |data| - 1);
    f := Saved(ResultData(data, results), summary, records);
  }

  /** `main`, step by step. */
  method RunMain(argv: seq<string>, files: map<string, seq<Row>>, probe: Prober) returns (f: Finish)
    ensures f == MainResult(argv, files, probe)
  {
    if "--help" in argv || "-h" in argv {
      return ShowedHelp;
    }
    var a := ParseArgs(argv);
    if a.fileName.None? || a.fileName.value == "" {
      return NoFileName;
    }
    var fileName := a.fileName.value;
    if fileName !in files {
      return FileMissing(fileName);
    }
    f := RunChecks(files[fileName], a, probe);
  }

  /** The candidates of a run are in increasing row order, each from a row
      after the header, and at most `maxCount` of them when that is set. */
  lemma DomainsInOrder(data: seq<Row>, a: Args)
    ensures var domains := Domains(data, a);
      && (a.maxCount.Some? && Truthy(a.maxCount.value) ==> |domains| <= Bound(a.maxCount.value.value))
      && (forall k :: 0 <= k < |domains| ==> 1 <= domains[k].rowIndex < |data|)
      && (forall p, q :: 0 <= p < q < |domains| ==> domains[p].rowIndex < domains[q].rowIndex)
  {
    var col := ColumnAsWritten(HeaderRow(data), a.columnIndex);
    var all := Extracted(data, col, |data|);
    var domains := Domains(data, a);
    ExtractedSpec(data, col, |data|);
    assert domains == all[..|domains|] by {
      if a.maxCount.Some? && Truthy(a.maxCount.value) {
        assert domains == Take(all, Bound(a.maxCount.value.value));
      }
    }
    forall k | 0 <= k < |domains|
      ensures 1 <= domains[k].rowIndex < |data|
    {
      assert domains[k] == all[k];
    }
    forall p, q | 0 <= p < q < |domains|
      ensures domains[p].rowIndex < domains[q].rowIndex
    {
      assert domains[p] == all[p] && domains[q] == all[q];
    }
  }

  /** With the results in increasing row order, each for a row after the
      header, the row of every result carries that result's cells. */
  lemma ResultRowsAll(data: seq<Row>, results: seq<Outcome>)
    requires forall p, q :: 0 <= p < q < |results| ==> results[p].rowIndex < results[q].rowIndex
    requires forall k :: 0 <= k < |results| ==> 1 <= results[k].rowIndex < |data|
    ensures forall k :: 0 <= k < |results| ==>
      ResultData(data, results)[results[k].rowIndex] == data[results[k].rowIndex] + ResultCells(results[k].finalResult)
  {
    forall k | 0 <= k < |results|
      ensures ResultData(data, results)[results[k].rowIndex]
           == data[results[k].rowIndex] + ResultCells(results[k].finalResult)
    {
      ResultRowsInOrder(data, results, k);
    }
  }

  /** When the batch completes with `results`, every checked row of the
      result sheet carries its own outcome and the summary counts every
      checked domain once. */
  lemma CheckedSaved(data: seq<Row>, a: Args, probe: Prober, results: seq<Outcome>)
    requires Outcomes(Domains(data, a), probe) == Some(results)
    ensures var f := Checked(data, a, probe);
      && f.Saved?
      && |results| == |Domains(data, a)| == |f.records|
      && (forall p, q :: 0 <= p < q < |results| ==> results[p].rowIndex < results[q].rowIndex)
      && (forall k :: 0 <= k < |results| ==>
            1 <= results[k].rowIndex < |data|
            && f.resultData[results[k].rowIndex] == data[results[k].rowIndex] + ResultCells(results[k].finalResult))
      && f.summary.totalRows == |data| - 1
      && f.summary.successful + f.summary.failed == |results|
  {
    var domains := Domains(data, a);
    DomainsInOrder(data, a);
    OutcomesRows(domains, probe);
    OutcomesSpec(domains, probe);
    ResultRowsAll(data, results);
    SummaryCounts(results, |data| - 1);
  }

  /** A saved run checked the candidates of its sheet in row order, at most
      `maxCount` of them when that is set; every checked row of the result
      sheet carries its own outcome; the summary counts every checked domain
      once, and its row total is the number of rows after the header. */
  lemma MainSaved(argv: seq<string>, files: map<string, seq<Row>>, probe: Prober)
    requires MainResult(argv, files, probe).Saved?
    ensures var a := ArgsOfArgv(argv);
      var data := files[a.fileName.value];
      var domains := Domains(data, a);
      var results := Outcomes(domains, probe).value;
      var f := MainResult(argv, files, probe);
      && |results| == |domains| == |f.records|
      && (a.maxCount.Some? && Truthy(a.maxCount.value) ==> |domains| <= Bound(a.maxCount.value.value))
      && (forall p, q :: 0 <= p < q < |results| ==> results[p].rowIndex < results[q].rowIndex)
      && (forall k :: 0 <= k < |results| ==>
            1 <= results[k].rowIndex < |data|
            && f.resultData[results[k].rowIndex] == data[results[k].rowIndex] + ResultCells(results[k].finalResult))
      && f.summary.totalRows == |data| - 1
      && f.summary.successful + f.summary.failed == |results|
  {
    var a := ArgsOfArgv(argv);
    var data := files[a.fileName.value];
    DomainsInOrder(data, a);
    CheckedSaved(data, a, probe, Outcomes(Domains(data, a), probe).value);
  }
}
