/**
 * The command-line entry of index.js up to the probes: the arguments, the
 * choice of the domain column and the extraction of candidate domains.
 */
module Cli {
  import opened Wrappers
  import opened Strings
  import opened Numbers
  import opened Sheet
  import opened Domain
  import opened Seqs
  import opened Fallback

  /** `process.argv.includes('--help') || process.argv.includes('-h')`. */
  predicate WantsHelp(argv: seq<string>) {
    "--help" in argv || "-h" in argv
  }

  /** The user arguments: everything after the interpreter and the script. */
  function UserArgs(argv: seq<string>): seq<string> {
    if |argv| <= 2 then [] else argv[2..]
  }

  /** `null` is `None`; `columnIndex` only ever holds an integer, `maxCount`
      any number, `NaN` included. */
  datatype Args = Args(columnIndex: Option<int>, fileName: Option<string>, maxCount: Option<Number>)

  /** An argument as the loop sees it: numeric when `!isNaN(arg)`, with the
      value `parseInt(arg)`, or else a word. */
  datatype Arg = Numeric(num: Number) | Word(text: string)

  function Classify(arg: string): (r: Arg)
    ensures r.Numeric? <==> IsNumericString(arg)
    ensures r.Numeric? ==> r.num == ParseInt(arg)
    ensures r.Word? ==> r.text == arg
  {
    if IsNumericString(arg) then Numeric(ParseInt(arg)) else Word(arg)
  }

  function Classified(args: seq<string>): (r: seq<Arg>)
    ensures |r| == |args|
  {
    if args == [] then [] else Classified(args[..|args| - 1]) + [Classify(args[|args| - 1])]
  }

  lemma {:induction false} ClassifiedAt(args: seq<string>, i: nat)
    requires i < |args|
    ensures Classified(args)[i] == Classify(args[i])
    decreases |args|
  {
    if i < |args| - 1 {
      ClassifiedAt(args[..|args| - 1], i);
    }
  }

  /** A numeric argument that reads as a column index: `parseInt(arg) <= 9`. */
  predicate IsSmall(a: Arg) {
    a.Numeric? && AtMost(a.num, 9)
  }

  /** One turn of the argument loop. */
  function StepArg(a: Args, arg: Arg): Args {
    match arg
    case Numeric(num) =>
      if AtMost(num, 9) && a.columnIndex.None? then a.(columnIndex := Some(num.value))
      else a.(maxCount := Some(num))
    case Word(text) => a.(fileName := Some(text))
  }

  function ArgsOf(args: seq<Arg>): Args {
    if args == [] then Args(None, None, None)
    else StepArg(ArgsOf(args[..|args| - 1]), args[|args| - 1])
  }

  /** The argument loop of `main`, which starts at `process.argv[2]`; each
      argument is classified as the loop reaches it. */
  method ParseArgs(argv: seq<string>) returns (a: Args)
    ensures a == ArgsOf(Classified(UserArgs(argv)))
  {
    var args := Classified(UserArgs(argv));
    a := Args(None, None, None);
    var i := 0;
    while i < |args|
      invariant 0 <= i <= |args|
      invariant a == ArgsOf(args[..i])
    {
      assert args[..i + 1][..i] == args[..i];
      match args[i] {
        case Numeric(num) =>
          if AtMost(num, 9) && a.columnIndex.None? {
            a := a.(columnIndex := Some(num.value));
          } else {
            a := a.(maxCount := Some(num));
          }
        case Word(text) =>
          a := a.(fileName := Some(text));
      }
      i := i + 1;
    }
    assert args[..i] == args;
  }

  /** Position `i` holds the first argument that reads as a column index. */
  predicate FirstSmall(args: seq<Arg>, i: int) {
    0 <= i < |args| && IsSmall(args[i]) && forall j :: 0 <= j < i ==> !IsSmall(args[j])
  }

  lemma FirstSmallSnoc(args: seq<Arg>, i: int)
    requires args != []
    ensures var init := args[..|args| - 1];
      FirstSmall(args, i) <==>
        (FirstSmall(init, i) || (i == |init| && IsSmall(args[i]) && forall j :: 0 <= j < |init| ==> !IsSmall(init[j])))
  {
  }

  /** The column index is the first argument reading as an integer of at most
      9, and there is none exactly when no argument does. */
  lemma {:induction false} ColumnIndexSpec(args: seq<Arg>)
    ensures ArgsOf(args).columnIndex.None? <==> forall i :: 0 <= i < |args| ==> !IsSmall(args[i])
    ensures ArgsOf(args).columnIndex.Some? ==>
      exists i :: FirstSmall(args, i) && args[i].num == Int(ArgsOf(args).columnIndex.value)
    decreases |args|
  {
    if args != [] {
      var init := args[..|args| - 1];
      var x := args[|args| - 1];
      ColumnIndexSpec(init);
      assert forall j :: 0 <= j < |init| ==> init[j] == args[j];
      if ArgsOf(init).columnIndex.Some? {
        var i :| FirstSmall(init, i) && init[i].num == Int(ArgsOf(init).columnIndex.value);
        FirstSmallSnoc(args, i);
      } else if IsSmall(x) {
        FirstSmallSnoc(args, |init|);
      }
    }
  }

  /** The file name is the last argument that is not numeric, and there is
      none exactly when every argument is numeric. */
  lemma {:induction false} FileNameSpec(args: seq<Arg>)
    ensures ArgsOf(args).fileName.None? <==> forall i :: 0 <= i < |args| ==> args[i].Numeric?
    ensures ArgsOf(args).fileName.Some? ==>
      exists i :: 0 <= i < |args| && args[i] == Word(ArgsOf(args).fileName.value)
        && forall j :: i < j < |args| ==> args[j].Numeric?
    decreases |args|
  {
    if args != [] {
      var init := args[..|args| - 1];
      FileNameSpec(init);
      assert forall j :: 0 <= j < |init| ==> init[j] == args[j];
      if args[|args| - 1].Numeric? && ArgsOf(init).fileName.Some? {
        var i :| 0 <= i < |init| && init[i] == Word(ArgsOf(init).fileName.value)
          && forall j :: i < j < |init| ==> init[j].Numeric?;
        assert args[i] == init[i];
      }
    }
  }

  /** The count limit is the last numeric argument other than the one taken
      as the column index, and there is none exactly when there is no such
      argument. */
  lemma {:induction false} MaxCountSpec(args: seq<Arg>)
    ensures ArgsOf(args).maxCount.None? <==>
      forall i :: 0 <= i < |args| && args[i].Numeric? ==> FirstSmall(args, i)
    ensures ArgsOf(args).maxCount.Some? ==>
      exists i :: 0 <= i < |args| && args[i] == Numeric(ArgsOf(args).maxCount.value) && !FirstSmall(args, i)
        && forall j :: i < j < |args| && args[j].Numeric? ==> FirstSmall(args, j)
    decreases |args|
  {
    if args != [] {
      var init := args[..|args| - 1];
      var x := args[|args| - 1];
      MaxCountSpec(init);
      ColumnIndexSpec(init);
      assert forall j :: 0 <= j < |init| ==> init[j] == args[j];
      forall j | 0 <= j < |args| ensures FirstSmall(args, j) <==>
        (FirstSmall(init, j) || (j == |init| && IsSmall(args[j]) && forall k :: 0 <= k < |init| ==> !IsSmall(init[k])))
      {
        FirstSmallSnoc(args, j);
      }
      if x.Numeric? && !FirstSmall(args, |init|) {
        assert ArgsOf(args).maxCount == Some(x.num);
      } else if ArgsOf(init).maxCount.Some? {
        var i :| 0 <= i < |init| && init[i] == Numeric(ArgsOf(init).maxCount.value) && !FirstSmall(init, i)
          && forall j :: i < j < |init| && init[j].Numeric? ==> FirstSmall(init, j);
        assert args[i] == init[i];
      }
    }
  }

  // Column detection (index.js:291-329).

  const DefaultColumn: nat := 5
  const ExactKeyword: string := "도메인주소"
  const PartialKeywords: seq<string> := ["domain", "url", "website", "사이트", "link", "링크"]

  /** `String(headerRow[i]).toLowerCase()`. */
  function HeaderText(c: Cell): string {
    Lower(Text(c))
  }

  predicate ExactHeader(c: Cell) {
    HeaderText(c) == ExactKeyword
  }

  predicate PartialHeader(c: Cell) {
    exists k :: 0 <= k < |PartialKeywords| && Includes(HeaderText(c), PartialKeywords[k])
  }

  predicate ValidColumn(columnIndex: Option<int>, header: Row) {
    columnIndex.Some? && 0 <= columnIndex.value < |header|
  }

  /** The column choice as index.js writes it: the partial search runs whenever
      the column is still 5 after the exact search, which is also the case
      when the exact keyword was found in column F. */
  function ColumnAsWritten(header: Row, columnIndex: Option<int>): nat {
    if ValidColumn(columnIndex, header) then columnIndex.value
    else
      var exact := match FirstWhere(header, ExactHeader) case Some(i) => i case None => DefaultColumn;
      if exact != DefaultColumn then exact
      else match FirstWhere(header, PartialHeader) case Some(i) => i case None => DefaultColumn
  }

  /** The column choice as intended: an exact match wins wherever it is. */
  function ColumnIntended(header: Row, columnIndex: Option<int>): nat {
    if ValidColumn(columnIndex, header) then columnIndex.value
    else match FirstWhere(header, ExactHeader)
      case Some(i) => i
      case None => match FirstWhere(header, PartialHeader) case Some(i) => i case None => DefaultColumn
  }

  /** The column choice of index.js:291-329, as written. */
  method DetectColumnAsWritten(header: Row, columnIndex: Option<int>) returns (col: nat)
    ensures col == ColumnAsWritten(header, columnIndex)
  {
    col := DefaultColumn;
    if columnIndex.Some? && 0 <= columnIndex.value < |header| {
      col := columnIndex.value;
      return;
    }
    var exact := FindHeader(header, ExactHeader);
    if exact.Some? {
      col := exact.value;
    }
    if col == DefaultColumn {
      var partial := FindHeader(header, PartialHeader);
      if partial.Some? {
        col := partial.value;
      }
    }
  }

  /** The same choice with the outcome of the exact search remembered. */
  method DetectColumn(header: Row, columnIndex: Option<int>) returns (col: nat)
    ensures col == ColumnIntended(header, columnIndex)
  {
    col := DefaultColumn;
    if columnIndex.Some? && 0 <= columnIndex.value < |header| {
      col := columnIndex.value;
      return;
    }
    var exact := FindHeader(header, ExactHeader);
    if exact.Some? {
      col := exact.value;
    } else {
      var partial := FindHeader(header, PartialHeader);
      if partial.Some? {
        col := partial.value;
      }
    }
  }

  /** No part of the exact keyword contains a partial keyword. */
  lemma ExactIsNotPartial(c: Cell)
    requires ExactHeader(c)
    ensures !PartialHeader(c)
  {
    forall k | 0 <= k < |PartialKeywords|
      ensures !Includes(HeaderText(c), PartialKeywords[k])
    {
      NotIncludes(ExactKeyword, PartialKeywords[k]);
    }
  }

  /** A string does not include a word whose first letter it lacks. */
  lemma {:induction false} NotIncludes(s: string, w: string)
    requires w != [] && w[0] !in s
    ensures !Includes(s, w)
    decreases |s|
  {
    if |s| > 0 {
      assert s[1..] == s[1..] && forall i :: 0 <= i < |s| - 1 ==> s[1..][i] == s[i + 1];
      NotIncludes(s[1..], w);
    }
  }

  /** As written, the exact keyword in column F is passed over for the first
      header that contains a partial keyword, in whichever column that is. */
  lemma ColumnAsWrittenMissesF(header: Row, columnIndex: Option<int>, j: nat)
    requires !ValidColumn(columnIndex, header)
    requires |header| > DefaultColumn && ExactHeader(header[DefaultColumn])
    requires forall i :: 0 <= i < DefaultColumn ==> !ExactHeader(header[i])
    requires j < |header| && PartialHeader(header[j])
    ensures ColumnAsWritten(header, columnIndex) != DefaultColumn
    ensures ColumnIntended(header, columnIndex) == DefaultColumn
  {
    ExactIsNotPartial(header[DefaultColumn]);
  }

  /** The intended choice: a valid column argument; otherwise the first header
      equal to the exact keyword; otherwise the first one containing a
      partial keyword; otherwise column F. */
  lemma ColumnIntendedSpec(header: Row, columnIndex: Option<int>)
    ensures var col := ColumnIntended(header, columnIndex);
      (ValidColumn(columnIndex, header) ==> col == columnIndex.value)
      && (!ValidColumn(columnIndex, header) ==>
            ((exists i :: 0 <= i < |header| && ExactHeader(header[i])) ==>
               col < |header| && ExactHeader(header[col]) && forall j :: 0 <= j < col ==> !ExactHeader(header[j]))
            && ((forall i :: 0 <= i < |header| ==> !ExactHeader(header[i]))
                && (exists i :: 0 <= i < |header| && PartialHeader(header[i])) ==>
                  col < |header| && PartialHeader(header[col]) && forall j :: 0 <= j < col ==> !PartialHeader(header[j]))
            && ((forall i :: 0 <= i < |header| ==> !ExactHeader(header[i]) && !PartialHeader(header[i])) ==>
                  col == DefaultColumn))
  {
  }

  // Candidate extraction (index.js:332-354).

  /** The length checks after normalisation. */
  predicate Accepted(n: string) {
    |n| >= 3 && n != "d" && n != "D"
  }

  /** What a cell of the domain column contributes: a non-blank string that
      normalises. */
  function CandidateOf(c: Cell, i: nat): (r: Option<Candidate>)
    ensures r.Some? <==> c.Str? && Normalize(c.text).Some?
    ensures r.Some? ==>
      r.value.rowIndex == i && c == Str(r.value.original)
      && Normalize(r.value.original) == Some(r.value.normalized)
  {
    match c
    case Str(t) =>
      if Trim(t) == "" then None
      else (match Normalize(t)
        case None => None
        case Some(n) => AcceptedNormalized(t); if Accepted(n) then Some(Candidate(t, n, i)) else None)
    case Num(_) => None
    case Blank => None
  }

  /** What row `i` contributes. */
  function CandidateAt(data: seq<Row>, col: nat, i: nat): Option<Candidate>
    requires i < |data|
  {
    CandidateOf(CellAt(data[i], col), i)
  }

  /** The checks after normalisation never reject a normalised domain. */
  lemma AcceptedNormalized(t: string)
    requires Normalize(t).Some?
    ensures Accepted(Normalize(t).value)
  {
  }

  /** The candidate of each row after the header, as a function of the row
      number. */
  function RowCandidates(data: seq<Row>, col: nat): nat -> Option<Candidate> {
    i => if 0 < i < |data| then CandidateAt(data, col, i) else None
  }

  /** The contributions `f(0)` to `f(n - 1)`, one per row. */
  function PicksBy(f: nat -> Option<Candidate>, n: nat): (r: seq<Option<Candidate>>)
    ensures |r| == n
  {
    if n == 0 then [] else PicksBy(f, n - 1) + [f(n - 1)]
  }

  lemma {:induction false} PicksByAt(f: nat -> Option<Candidate>, n: nat, i: nat)
    requires i < n
    ensures PicksBy(f, n)[i] == f(i)
    decreases n
  {
    if i < n - 1 {
      PicksByAt(f, n - 1, i);
    }
  }

  lemma {:induction false} PicksByPrefix(f: nat -> Option<Candidate>, m: nat, n: nat)
    requires m <= n
    ensures PicksBy(f, m) == PicksBy(f, n)[..m]
    decreases n
  {
    if m < n {
      PicksByPrefix(f, m, n - 1);
      assert PicksBy(f, n)[..n - 1] == PicksBy(f, n - 1);
    }
  }

  /** What rows 0 to `n - 1` contribute; the header row contributes nothing. */
  function Picks(data: seq<Row>, col: nat, n: nat): seq<Option<Candidate>> {
    PicksBy(RowCandidates(data, col), n)
  }

  /** Row `i` contributes its own candidate, except the header row. */
  lemma PicksAt(data: seq<Row>, col: nat, n: nat, i: nat)
    requires i < n <= |data|
    ensures Picks(data, col, n)[i] == if i == 0 then None else CandidateAt(data, col, i)
  {
    PicksByAt(RowCandidates(data, col), n, i);
  }

  /** The values among the contributions `f(0)` to `f(n - 1)`, in order. */
  function CollectedBy(f: nat -> Option<Candidate>, n: nat): seq<Candidate> {
    Collect(PicksBy(f, n), Present)
  }

  /** The candidates found in rows 1 to `n - 1`, with no limit. */
  function Extracted(data: seq<Row>, col: nat, n: nat): seq<Candidate>
    requires n <= |data|
  {
    CollectedBy(RowCandidates(data, col), n)
  }

  /** The number of candidates a truthy `maxCount` lets through: the check
      `domains.length >= maxCount` comes after a push, so at least one. */
  function Bound(m: int): nat {
    if m >= 1 then m else 1
  }

  function Limited(all: seq<Candidate>, maxCount: Option<Number>): seq<Candidate> {
    if maxCount.Some? && Truthy(maxCount.value) then Take(all, Bound(maxCount.value.value)) else all
  }

  /** A contribution without a candidate adds nothing. */
  lemma CollectedSkip(f: nat -> Option<Candidate>, i: nat)
    requires f(i) == None
    ensures CollectedBy(f, i + 1) == CollectedBy(f, i)
  {
    assert PicksBy(f, i + 1) == PicksBy(f, i) + [None];
    CollectAppend(PicksBy(f, i), None, Present);
  }

  /** A contribution with a candidate adds it at the end. */
  lemma CollectedAdd(f: nat -> Option<Candidate>, i: nat, d: Candidate)
    requires f(i) == Some(d)
    ensures CollectedBy(f, i + 1) == CollectedBy(f, i) + [d]
  {
    assert PicksBy(f, i + 1) == PicksBy(f, i) + [Some(d)];
    CollectAppend(PicksBy(f, i), Some(d), Present);
  }

  /** The candidates of the first `n` contributions begin those of the first `m`. */
  lemma CollectedStop(f: nat -> Option<Candidate>, n: nat, m: nat)
    requires n <= m
    ensures |CollectedBy(f, n)| <= |CollectedBy(f, m)|
    ensures CollectedBy(f, n) == CollectedBy(f, m)[..|CollectedBy(f, n)|]
  {
    PicksByPrefix(f, n, m);
    CollectPrefix(PicksBy(f, m), n, Present);
  }

  /** Stopping once the bound is reached gives the limited candidates. */
  lemma StopIsLimited(f: nat -> Option<Candidate>, n: nat, m: nat, maxCount: Option<Number>)
    requires n <= m
    requires maxCount.Some? && Truthy(maxCount.value)
    requires |CollectedBy(f, n)| == Bound(maxCount.value.value)
    ensures CollectedBy(f, n) == Limited(CollectedBy(f, m), maxCount)
  {
    CollectedStop(f, n, m);
  }

  /** Candidates below the bound are not cut. */
  lemma UnderLimit(all: seq<Candidate>, maxCount: Option<Number>)
    requires maxCount.Some? && Truthy(maxCount.value) ==> |all| < Bound(maxCount.value.value)
    ensures Limited(all, maxCount) == all
  {
  }

  /** The extraction loop over rows 1 to `n - 1`, with its early stop, for
      the candidate `pick(i)` of row `i`. */
  method ExtractBy(pick: nat -> Option<Candidate>, n: nat, maxCount: Option<Number>) returns (domains: seq<Candidate>)
    requires 1 <= n && pick(0) == None
    ensures domains == Limited(CollectedBy(pick, n), maxCount)
  {
    domains := [];
    assert PicksBy(pick, 1) == [None];
    var limited := maxCount.Some? && Truthy(maxCount.value);
    var i := 1;
    while i < n
      invariant 1 <= i <= n
      invariant domains == CollectedBy(pick, i)
      invariant limited ==> |domains| < Bound(maxCount.value.value)
    {
      match pick(i) {
        case None =>
          CollectedSkip(pick, i);
        case Some(d) =>
          CollectedAdd(pick, i, d);
          domains := domains + [d];
          if limited && |domains| >= maxCount.value.value {
            assert |domains| == Bound(maxCount.value.value);
            StopIsLimited(pick, i + 1, n, maxCount);
            return;
          }
      }
      i := i + 1;
    }
    UnderLimit(domains, maxCount);
  }

  /** The extraction of index.js: the loop over the rows of the sheet. */
  method ExtractCandidates(data: seq<Row>, col: nat, maxCount: Option<Number>) returns (domains: seq<Candidate>)
    ensures domains == Limited(Extracted(data, col, |data|), maxCount)
  {
    if |data| == 0 {
      assert PicksBy(RowCandidates(data, col), 0) == [];
      return [];
    }
    domains := ExtractBy(RowCandidates(data, col), |data|, maxCount);
  }

  /** The candidates are exactly the acceptable rows after the header, once
      each, in row order. */
  lemma ExtractedSpec(data: seq<Row>, col: nat, n: nat)
    requires n <= |data|
    ensures var cs := Extracted(data, col, n);
      (forall k :: 0 <= k < |cs| ==> 1 <= cs[k].rowIndex < n && CandidateAt(data, col, cs[k].rowIndex) == Some(cs[k]))
      && (forall k, l :: 0 <= k < l < |cs| ==> cs[k].rowIndex < cs[l].rowIndex)
      && (forall i :: 1 <= i < n && CandidateAt(data, col, i).Some? ==> CandidateAt(data, col, i).value in cs)
  {
    var s := Picks(data, col, n);
    forall i | 0 <= i < n
      ensures s[i] == if i == 0 then None else CandidateAt(data, col, i)
    {
      PicksAt(data, col, n, i);
    }
    GatherSpec(s, (d: Candidate) => d.rowIndex);
  }
}
