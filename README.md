# URL connection test: a verified model

The tool reads a spreadsheet of domains and checks each one for reachability.
It tries HTTP first, and tries HTTPS only when HTTP fails. It writes one result
row per domain and a summary sheet. It has two front ends:

- `index.js` is the command-line tool;
- `main.js` and `renderer.js` are an Electron desktop app, which runs
  `index.js` as a child process and shows its results live.

This project models the deterministic core of all three files in Dafny and
proves what they promise.

Modules, one per concern:

- `Strings`, `Seqs`, `Numbers`, `Sheet`, `Histogram`: the JavaScript built-ins
  the core relies on, modelled with the source's semantics:
  - `trim`, `toLowerCase` and `split`;
  - `filter`, `slice` and the stable `sort`;
  - `parseInt` and `isNaN` on strings;
  - spreadsheet cells;
  - a keyed counter object.
- `Domain`: `normalizeDomain` and `buildUrl`. `index.js` and `main.js` carry
  identical copies of `normalizeDomain`; both front ends use this one
  definition.
- `Probe`: `testUrl`. The network is a parameter `probe: string -> Reply`, an
  oracle fixed for the run.
- `Fallback`: the per-domain task, which runs HTTP, then HTTPS only if HTTP
  failed. It covers the outcome it pushes, `completedCount`, and the status
  record written for the desktop app. The `Run` class holds the shared state
  of a run. `ProbeAll` runs the tasks one after another.
- `Report`: `generateSummaryData`, namely:
  - the counts;
  - the response-time figures;
  - the status-code and error-pattern tables, with top 10 and top 5;
  - the samples.
- `Cli`: four parts of `index.js`:
  - the argument loop;
  - the header-based column detection;
  - the row extraction with its `maxCount` stop;
  - a Finding, below.
- `Tool`: the result sheet of `index.js` and its `main` as a whole. It goes
  from `argv`, the files and the oracle to the help text, an error exit, an
  abort, or the saved sheets.
- `Loader`: the `load-excel-data` handler of `main.js`, which does column
  detection and entry extraction.
- `Relay`: the `run-url-test` stdout handler of `main.js`. It frames output
  into lines and forwards `DOMAIN_RESULT:` payloads. The module also models
  the `stop-url-test` handle.
- `Dashboard`: `renderer.js`, namely:
  - the table filter and the status texts;
  - partial-success reclassification;
  - the statistics and their arithmetic;
  - the progress-message parse;
  - the state object `Board`, whose methods are the handlers that update it
    in place.

Three behaviours of the code that a reader may not expect, which the model
keeps as written:

- **Only one scheme prefix comes off.** `normalizeDomain` strips a single
  leading `http://` or `https://` (index.js:85), so its result can still
  begin with a scheme. `Domain.NormalizeNotIdempotent` states this.
- **One domain can abort the whole run.** `testUrl` catches every request
  error and turns it into a failed result (index.js:63-71), so a bad domain
  is evidently meant to fail alone. But `buildUrl` normalises the already
  normalised host again and can return `null` (index.js:104-106). Then
  `url.startsWith` throws inside that `catch`, and `Promise.all` rejects the
  whole run. `Fallback.Resolve` returns `None` in that case, `Tool.Checked`
  ends in `Aborted`, and `Domain.BuildUrlRejectsNormalizedHost` shows an
  input that gets there.
- **The summary's overall percentages divide by the row count unguarded**
  (index.js:158-163). A sheet with only a header row gives `NaN%`. The
  percentages are not part of the model.

## Model

| member | source | states |
|---|---|---|
| Strings.Trim | index.js:82 | The result has no white space at either end and is no longer than the input. |
| Strings.TrimInfix | index.js:82 | The trim is the input with its leading and trailing white space removed, and nothing else. |
| Strings.TrimEmpty | index.js:337 | The trim is empty exactly when every character is white space. |
| Strings.Lower | index.js:82 | The result has the input's length, and every character is lower-cased. |
| Strings.Split | index.js:148 | `split` gives at least one piece, no piece holds the separator, and the pieces joined with it give the string back. |
| Strings.SplitHead | index.js:148 | The first piece is the text before the first separator, or the whole string when there is none. |
| Strings.SplitLast | main.js:311-318 | The last piece is empty exactly when the string is empty or ends with the separator. |
| Strings.NatToString | index.js:139 | A numeral is non-empty, all digits, and has no leading zero. |
| Strings.NatToStringValue | index.js:139 | The numeral of `n` reads back as `n`. |
| Numbers.ParseInt | index.js:246 | `parseInt(s)` with no radix: leading white space and a sign are skipped, `0x` selects hexadecimal, the longest digit run is read, and no digit gives `NaN`. Its properties are in the rows below. |
| Numbers.IsNumericString | index.js:245 | `!isNaN(s)`: the trimmed string is empty, a hex, octal or binary literal, `Infinity`, or a decimal with an optional sign, fraction and exponent. |
| Numbers.ParseIntOfPlainDigits | index.js:246 | `parseInt` of a digit string is its value. |
| Numbers.ParseIntOfNegatedDigits | index.js:246 | `parseInt` of `-` and a digit string is the negated value. |
| Numbers.ParseIntOfNumeral | index.js:246 | `parseInt` reads back every integer written in decimal. |
| Numbers.NumeralIsNumeric | index.js:245 | `isNaN` is false for every decimal integer and for the empty string. |
| Sheet.CellAt | index.js:334 | A cell past the end of a row is `undefined` (`Blank`). |
| Sheet.HeaderRow | index.js:291 | The header is the first row, or empty for an empty sheet. |
| Sheet.FirstWhere | index.js:304-311 | The first column whose header qualifies: none qualifies before it, and `None` means no column qualifies. |
| Sheet.FindHeader | index.js:304-311 | The search loop with `break` finds the column `FirstWhere` defines. |
| Sheet.FirstWhereUnique | index.js:304-311 | The first qualifying index is the one found. |
| Domain.StripScheme | index.js:85 | The input is the result behind `http://` or `https://`, or the result itself when the input has no scheme prefix. |
| Domain.Normalize | index.js:75-101 | Empty input gives `null`. A result has at least 3 characters, a dot and no upper-case letter, and is the trimmed lower-cased input with at most one scheme prefix removed. |
| Domain.NormalizeSpec | index.js:75-101 | `normalizeDomain` gives `h` exactly when `h` looks like a host and the canonical input is `h`, `http://` + `h` or `https://` + `h`. A bare `h` must not itself start with a scheme. The identical copy at main.js:166-192 is the same function. |
| Domain.NormalizeStripsHttp | index.js:85 | `http://` followed by a lower-case host normalises to that host, or to `null` when the host is too short or has no dot. |
| Domain.NormalizeNotIdempotent | index.js:85 | A doubled `http://` loses one layer per pass, so normalising twice differs from normalising once. |
| Domain.NormalizedLast | index.js:82 | A normalised host does not end in white space. |
| Domain.RenormalizeFixes | index.js:75-101 | A normalised host with no scheme prefix and no leading white space normalises to itself. |
| Domain.NormalizeFixes | index.js:75-101 | A lower-case host with no scheme prefix and no white space at its ends normalises to itself. |
| Domain.BuildUrl | index.js:104-114 | `buildUrl` is `null` exactly when `normalizeDomain` is. Otherwise it is the scheme, `://` and the normalised host, so the re-check at line 109 never fires. |
| Domain.BuildUrlRejectsNormalizedHost | index.js:104-106 | Some results of `normalizeDomain` make `buildUrl` return `null` for either protocol, for example `http://a.` from `http://http://a.`. |
| Probe.ProtocolOf | index.js:61 | The protocol is HTTPS exactly when the URL starts with `https`. |
| Probe.TestUrl | index.js:27-72 | A response is a success whatever its status; the protocol is read off the URL; the time is the oracle's. |
| Probe.TestUrlCarries | index.js:57-70 | A success carries the response's status code, and a failure carries the error message. |
| Probe.BuiltUrlProtocol | index.js:61 | Reading the protocol back off a built URL gives the protocol it was built with. |
| Fallback.Resolve | index.js:399-433 | The outcome of the task body for one domain, or `None` when `buildUrl` gives `null` and the run aborts. Its properties are stated by `Fallback.ResolveSpec`. |
| Fallback.StatusRecordOf | index.js:439-446 | The `DOMAIN_RESULT:` record of a task, with its properties stated by `Fallback.StatusRecordSpec`. |
| Fallback.ResolveSpec | index.js:399-433 | Covers every branch of the fallback task body; see the list after the table. |
| Fallback.ProbedSteps | index.js:399-416 | The URLs probed number exactly the requests the task counts. |
| Fallback.SingleReachedUnlogged | index.js:463-470 | One domain reached over HTTP ends the run at count 1 of 2, which the progress test does not log, although the comment at line 466 promises a line for the last request. |
| Fallback.StatusRecordSpec | index.js:439-446 | The record's final status is `success` exactly when one protocol succeeded, and `failed` exactly when both failed. An HTTP success comes with `https-failed`, and a time is present exactly on success. |
| Fallback.TotalStepsBounds | index.js:401-416 | Over `n` domains the requests number between `n` and `2n`, and exactly `2n` when every HTTP attempt failed. |
| Fallback.RunInvariantStep | index.js:401-473 | One more task keeps the run invariant; see the list after the table. |
| Fallback.Run.constructor | index.js:380-382 | A run starts with nothing recorded and expects two requests per domain. |
| Fallback.Run.RunTask | index.js:389-473 | One task appends its outcome, its URLs and its status record, and adds 1 or 2 to `completedCount`. It logs a progress line after the task exactly when the new count is a multiple of 5 or equals `totalRequests` (twice the domain count); the test runs once per task, so a count a two-request task steps over is not logged. An aborting task changes nothing. |
| Fallback.Run.Commit | index.js:401-473 | The bookkeeping of one task keeps the run invariant. |
| Fallback.ProbeDomain | index.js:399-434 | The probing steps give exactly the outcome and the URLs of the task body. |
| Fallback.ProbeAll | index.js:387-478 | Running the tasks in order succeeds exactly when no task aborts; see the list after the table. |
| Histogram.KeyIndex | index.js:139 | The position of a key in the counter object, or `None` exactly when the key is absent. |
| Histogram.BumpSpec | index.js:139 | `counts[k] = (counts[k] \|\| 0) + 1` raises the count of `k` by one, leaves every other count alone, and keeps keys distinct and counts positive. |
| Histogram.TallySpec | index.js:136-141 | The counter's value for every key is the number of its occurrences, and the counts add up to the number of keys. |
| Histogram.TallyPerm | index.js:136-151 | Counting a permutation gives the same count for every key and the same total. |
| Report.ErrorPattern | index.js:147-148 | `(httpError \|\| httpsError \|\| '').split(':')[0] \|\| 'Unknown Error'`, characterised by `Report.ErrorPatternSpec`. |
| Report.SummaryOf | index.js:117-203 | What `generateSummaryData` computes, before the rows are laid out. Its properties are stated by the `Report.Summary*` lemmas. |
| Report.ErrorPatternSpec | index.js:147-148 | The pattern is the text before the first `:` of the HTTP error, or else of the HTTPS error; it is `Unknown Error` when that text is empty. |
| Report.ObjectEntriesSpec | index.js:171 | `Object.entries` is a permutation of the counter. It lists integer keys first in ascending order, then the other keys in insertion order. |
| Report.SortedEntriesSpec | index.js:171-172 | The sorted entries are a permutation of the counter, by descending count, with distinct keys. Each count is the key's number of occurrences. |
| Report.SortedEntriesComplete | index.js:171-172 | Every key that occurs is listed with its number of occurrences. |
| Report.RankedSpec | index.js:171-179 | The top `k` are sorted by descending count, with each count exact. A key left out means the list is full and every listed count is at least that key's. |
| Report.CountStatusCodes | index.js:135-141 | The `forEach` loop builds the counter of the truthy status codes of the successes. |
| Report.CountErrorPatterns | index.js:144-151 | The `forEach` loop builds the counter of the error patterns of the failures. |
| Report.GenerateSummary | index.js:117-203 | The summary the function computes is `SummaryOf` the results. |
| Report.SuccessByProtocol | index.js:118-121 | Every success is an HTTP success or an HTTPS success. |
| Report.SummaryCounts | index.js:118-121 | `successful + failed` is the number of results, and `httpSuccess + httpsSuccess == successful`. |
| Report.SummaryTimes | index.js:124-132 | With no truthy time, the average, minimum and maximum are all 0. Otherwise the minimum and maximum are times that bound every time, and the rounded average lies between them. |
| Report.TimeFigures | index.js:128-132 | The same statement about any list of times. |
| Report.SummaryDistributions | index.js:135-151 | The status-code counts add up to the number of successes with a truthy code, and the error-pattern counts add up to `failed`. |
| Report.SummarySamples | index.js:182-201 | The samples are the first 10 successes and the first 10 failures, in result order, or all of them when there are fewer. |
| Report.CountsPerm | index.js:118-121 | The counts do not depend on the order of the results. |
| Report.TimesPerm | index.js:124-132 | The time figures do not depend on the order of the results. |
| Report.StatsPerm | index.js:128-132 | The rounded mean, minimum and maximum of a permuted list are the same. |
| Report.KeysPerm | index.js:135-151 | The count of every status code or error pattern does not depend on the order of the results. |
| Report.SummaryPerm | index.js:117-132 | The counts and time figures of the summary do not depend on the order in which tasks pushed their results. |
| Cli.Classify | index.js:245-252 | An argument is numeric exactly when `isNaN` is false, with the value `parseInt` gives; otherwise it is a word. |
| Cli.ParseArgs | index.js:242-258 | The argument loop computes `ArgsOf` the classified arguments after `argv[1]`. |
| Cli.ArgsOf | index.js:242-258 | The column index, maximum count and file name the argument loop leaves, characterised by the three lemmas below. |
| Cli.ColumnIndexSpec | index.js:248-250 | The column index is set exactly when some numeric argument is at most 9, and then it is the first such argument. |
| Cli.FileNameSpec | index.js:254-256 | A file name is set exactly when some argument is a word, and then it is the last word. |
| Cli.MaxCountSpec | index.js:248-252 | `maxCount` is set exactly when some numeric argument is not the first small one, and then it is the last such argument. |
| Cli.ColumnAsWritten | index.js:291-329 | The column as written: a valid column argument, else the first exact match. The partial search still runs whenever that result is 5, whether it came from a match or is the default. |
| Cli.ColumnIntended | index.js:291-329 | The corrected column: a valid column argument, else the first exact match, else the first partial match, else 5. It is characterised by `Cli.ColumnIntendedSpec`. |
| Cli.DetectColumnAsWritten | index.js:291-329 | The detection loops compute the column as written; see Findings. |
| Cli.DetectColumn | index.js:291-329 | The corrected detection computes `ColumnIntended`. |
| Cli.ExactIsNotPartial | index.js:300-301 | The exact keyword contains none of the partial keywords. |
| Cli.ColumnAsWrittenMissesF | index.js:314 | When the exact keyword heads column F and a partial keyword heads another column, the code as written moves away from F. The intended detection keeps F. |
| Cli.ColumnIntendedSpec | index.js:291-329 | See the list after the table. |
| Cli.CandidateOf | index.js:334-346 | A cell gives a candidate exactly when it is a string that `normalizeDomain` accepts. The candidate's normalised form is `normalizeDomain` of the cell, and its row is its own. |
| Cli.AcceptedNormalized | index.js:341 | The length and `d` checks after normalisation never reject a normalised domain. |
| Cli.StopIsLimited | index.js:349-351 | Stopping once the count reaches the bound gives the first `maxCount` candidates, and at least one. |
| Cli.UnderLimit | index.js:349-351 | Candidates under the bound are not cut. |
| Cli.ExtractBy | index.js:333-354 | The loop over the rows, with its early stop, yields the candidates of rows 1 on, cut to the bound when `maxCount` is truthy. |
| Cli.ExtractCandidates | index.js:332-354 | The extraction over the sheet is that loop for the sheet's rows. |
| Cli.ExtractedSpec | index.js:333-346 | Before the cut, the candidates are exactly the acceptable rows after the header, once each, in increasing row order. |
| Tool.FindIndex | index.js:511 | `results.find` gives the first result for the row, or `None` exactly when there is none. |
| Tool.ResultData | index.js:497 | The result sheet has a row for every input row. |
| Tool.ResultCellsSpec | index.js:513-521 | The six result cells: see the list after the table. |
| Tool.ResultDataSpec | index.js:497-525 | Every output row begins with its input row, and the header gains the six result headers. A data row is unchanged exactly when no result names it. Otherwise it gains the cells of the first result for it. |
| Tool.ResultRowsInOrder | index.js:511-521 | When results are in increasing row order, each one's row gains that result's cells. |
| Tool.OutcomesSpec | index.js:387-478 | The run succeeds exactly when no task aborts. It then yields one outcome per domain, in order. |
| Tool.OutcomesRows | index.js:389-392 | Each outcome keeps its candidate's text, normalised form and row. |
| Tool.RecordsOf | index.js:439-446 | One status record per outcome, indexed by the domain's position. |
| Tool.MainResult | index.js:206-563 | `main` as a value: help, missing file name, missing file, abort, or the saved sheets. Its properties are `Tool.MainSaved`. |
| Tool.RunChecks | index.js:291-528 | Detecting the column as the code does, then extracting, checking and building the sheets, computes `Checked`. |
| Tool.RunMain | index.js:206-563 | The whole of `main`, column detection as written included, computes `MainResult`: help text, missing file name, missing file, abort, or saved sheets. |
| Tool.DomainsInOrder | index.js:332-354 | The domains checked number at most the `maxCount` bound, come from data rows, and are in increasing row order. |
| Tool.CheckedSaved | index.js:332-528 | A run that does not abort saves one result per domain, and each domain's row gains its result's cells. The summary counts every row after the header, and its successes and failures add up to the results. |
| Tool.MainSaved | index.js:206-563 | The same for the whole of `main`, when it saves. |
| Loader.DetectedColumn | main.js:89-120 | The column `load-excel-data` picks, characterised by `Loader.DetectedColumnSpec`. |
| Loader.LoadExcelData | main.js:86-154 | The entries the handler returns: `LoadDomains` over the detected column. |
| Loader.DetectColumn | main.js:89-115 | The two search loops compute `DetectedColumn`. |
| Loader.KeywordIsPartial | main.js:92-93 | Every exact keyword begins with a partial keyword. |
| Loader.ExactIsPartial | main.js:96-109 | A header equal to an exact keyword also contains a partial one. |
| Loader.DetectedColumnSpec | main.js:89-120 | The column is column A or a header column; see the list after the table. |
| Loader.EntryFor | main.js:127-152 | A cell gives an entry exactly when `normalizeDomain` accepts `String(domain \|\| '')`. An entry has the kept row's index, and its URL is `normalizeDomain` of the cell. Every status is `pending` and the time is `null`. |
| Loader.NormalizeTrimmed | main.js:140 | Normalising the trimmed cell is normalising the cell. |
| Loader.Mapped | main.js:125 | The `map` callback gives one result per kept row. |
| Loader.LoadDomainsSpec | main.js:123-154 | `originalIndex` counts the non-empty rows after the header; see the list after the table. |
| Loader.LoadDomainsPending | main.js:145-152 | Every entry is pending with no time, and its URL is the normalised cell of its kept row. |
| Relay.FramingJoin | main.js:311-318 | The complete lines, each with its newline, followed by the kept tail give the buffer back. |
| Relay.FramingPieces | main.js:311-318 | Neither the kept tail nor any complete line holds a newline. |
| Relay.FramingSpec | main.js:306-318 | Both of the above. A buffer that ends in a newline also processes a final empty line. |
| Relay.ProcessedLinesSpec | main.js:311-321 | The lines the loop visits are the complete lines, plus an empty one when the buffer ends in a newline. |
| Relay.FrameStep | main.js:306-318 | After a chunk, everything framed so far plus the new buffer is the old text plus the chunk, and the buffer holds no newline. |
| Relay.Payload | main.js:322-325 | A line carries a result exactly when its trimmed form starts with `DOMAIN_RESULT:`. |
| Relay.PayloadOfResultLine | main.js:322-325 | The payload of a written result line is the JSON text after the prefix. |
| Relay.ScanBySpec | main.js:309-336 | The lines before the first payload that fails to parse forward their payloads in order; that failure ends the chunk. |
| Relay.ScanLinesSpec | main.js:309-336 | The same for the handler's prefix test. |
| Relay.LaterResultLost | main.js:309-336 | A result line after a line that fails to parse, in the same chunk, is never forwarded. |
| Relay.Forward | main.js:321-332 | The forwarding loop sends exactly the payloads `ScanLines` gives. |
| Relay.StdoutRelay.constructor | main.js:293-295 | The output, the message buffer and everything forwarded start empty. |
| Relay.StdoutRelay.OnData | main.js:297-337 | A chunk is appended to the output and sent as progress. The buffer becomes the kept tail, the complete lines are framed, and the scan's payloads are forwarded. |
| Relay.StopTwice | main.js:364-384 | A stop succeeds exactly when there is a live handle and clears it, so a second stop finds no test. |
| Relay.TestControl.Spawn | main.js:359 | Spawning stores the new child as the current handle. |
| Relay.TestControl.Stop | main.js:364-384 | A stop signals the current child, clears the handle and answers success. Without a handle it answers "no running test". |
| Dashboard.FilterData | renderer.js:343-354 | Every listed entry is from the table and shown under the filter, and an unknown filter lists everything. |
| Dashboard.FilterDataSpec | renderer.js:343-354 | An entry is listed exactly when it is in the table and shown under the filter. |
| Dashboard.FilterDataConcat | renderer.js:343-354 | Filtering keeps table order: it distributes over concatenation. |
| Dashboard.FilterDataIdempotent | renderer.js:343-354 | Filtering twice is filtering once. |
| Dashboard.StatusText | renderer.js:357-377 | The text is the pending text exactly for `pending` and for an unknown status. |
| Dashboard.StatusTextDistinct | renderer.js:357-377 | Distinct known statuses have distinct texts. |
| Dashboard.Reclassify | renderer.js:691-696 | A `failed` status becomes `partial-success` exactly when one protocol succeeded and the other failed. Nothing else changes. |
| Dashboard.RecordConsistent | index.js:439-446 | Every record the task writes for the desktop app is consistent. |
| Dashboard.ReclassifyNeverApplies | renderer.js:691-696 | For a consistent record the reclassification changes nothing. |
| Dashboard.SuccessRate | renderer.js:150 | The rate is 0 without requests; otherwise `100 * success / requests`, between 0 and 100 when the successes do not exceed the requests. |
| Dashboard.AverageTime | renderer.js:153-155 | The average is 0 for no times and otherwise `Math.round` of the mean, between the minimum and the maximum. |
| Dashboard.WithStatus | renderer.js:383-384 | An out-of-range index changes nothing. In range, only that entry's status and time change. |
| Dashboard.WithProtocolStatus | renderer.js:422-424 | An out-of-range index changes nothing. In range, only that entry's field for the protocol changes. |
| Dashboard.ApplyResultSpec | renderer.js:698-707 | The result's entry gains the reclassified status and time, and every non-empty protocol status. Other entries stay. |
| Dashboard.ResetEntries | renderer.js:576-582 | Every entry keeps its index and URL and becomes pending with no time. |
| Dashboard.ResetShownPending | renderer.js:576-582 | After the reset every entry is listed as pending, and none as succeeded or failed. |
| Dashboard.ResetForgetsResult | renderer.js:576-582 | The reset erases what a result wrote. |
| Dashboard.ParseProgress | renderer.js:648-676 | In a message that contains `진행률`: the two comma-stripped counts of the leftmost full progress match. Failing that, the counts of the leftmost bare `n/m` match, else `None`. Its round trip is `Dashboard.ParseProgressLine`. |
| Dashboard.Leftmost | renderer.js:649 | `match` finds the leftmost position where the pattern matches, and `None` means no position does. |
| Dashboard.NumeralCount | renderer.js:651-652 | Removing commas from a numeral and parsing it gives its value. |
| Dashboard.ParseProgressFront | renderer.js:648-659 | A message that starts with a progress match yields that match's counts. |
| Dashboard.ParseProgressLine | renderer.js:643-681 | Parsing the progress line `index.js` writes at line 468 gives back its two counts. |
| Dashboard.TotalsSpec | renderer.js:710-725 | After a series of results, the counters are the numbers of successes, failures and protocol successes, and the time list holds the truthy times in order. |
| Dashboard.CountersOfConsistent | renderer.js:710-725 | For consistent records, successes and failures add up to the results, and protocol successes add up to the successes. |
| Dashboard.Board.constructor | renderer.js:51-62 | The front end starts with zero counters, no time list, no start time and an empty table. |
| Dashboard.Board.Load | renderer.js:270 | Loading replaces the table and nothing else. |
| Dashboard.Board.UpdateDomainStatus | renderer.js:381-417 | Updates the table in place as `WithStatus`, and nothing else. |
| Dashboard.Board.UpdateProtocolStatus | renderer.js:420-446 | Updates the table in place as `WithProtocolStatus`, and nothing else. |
| Dashboard.Board.OnDomainResult | renderer.js:684-731 | The table changes as `ApplyResult`, the counters move by one result, the received list grows by it, and the invariant holds. |
| Dashboard.Board.ShowResult | renderer.js:698-707 | The table part of the handler. |
| Dashboard.Board.OnProgress | renderer.js:643-681 | `requestCount` becomes the parsed current count when the message parses, and stays otherwise. Nothing else changes. |
| Dashboard.Board.ResetProgressAndStats | renderer.js:166-183 | Zeroes every counter, empties the time list, drops the start time, and keeps the table. |
| Dashboard.Board.StartReset | renderer.js:499-505 | The same, with the start time set to the clock. |
| Dashboard.Board.StopReset | renderer.js:572-582 | Zeroes the statistics and resets every entry to pending. |

Details of the longer rows above:

- **Fallback.ResolveSpec.**
  - HTTP is probed first.
  - HTTPS is probed exactly when HTTP failed, and then once.
  - An HTTP success gives success/HTTP with HTTP's code and time.
  - An HTTPS success gives success/HTTPS with HTTPS's code and time.
  - Two failures give a failure carrying both errors.
  - `None`, which aborts the run, comes exactly when `buildUrl` gives `null`.
- **Fallback.RunInvariantStep.** It covers:
  - the counts of results, requests and records;
  - the `[n, 2n]` bound;
  - the strictly increasing progress counts.
- **Fallback.ProbeAll.**
  - Each result is the task's outcome for its domain, with its record.
  - `completedCount` lies in `[n, 2n]`.
  - It equals `totalRequests` exactly when every HTTP attempt failed.
- **Cli.ColumnIntendedSpec.**
  - A valid column index is used as given.
  - Otherwise the first header equal to the exact keyword wins.
  - Failing that, the first header containing a partial keyword wins.
  - Failing both, the column is F (5).
- **Tool.ResultCellsSpec.**
  - A success writes `성공`, protocol, code, time, URL and an empty error.
  - A failure writes `실패`, four empty cells and `httpError / httpsError`.
- **Loader.DetectedColumnSpec.**
  - The first exact match wins.
  - Then the first partial match.
  - Else column A.
  - The partial search also runs after an exact match in column A, and keeps A.
- **Loader.LoadDomainsSpec.**
  - `originalIndex` counts the non-empty rows after the header.
  - Each entry is the callback's value for its kept row.
  - The indices increase.
  - Every kept row that gives an entry has it in the list.

Two behaviours of the desktop app are worth knowing; the model states them as
they are:

- **Two numberings meet in the table.** The `index` in a `DOMAIN_RESULT:`
  record is the domain's position among the candidates `index.js` extracted.
  The table the renderer updates is indexed by the entries `load-excel-data`
  returned. The two come from different column-detection and filtering rules,
  so a record can update the wrong row or none.
- **The handle outlives the run.** The `stop-url-test` handle is not cleared
  when the child exits, so a stop after a finished run still answers success.

## Left out

- The network: `got`, its agents, timeouts and retries are the oracle `probe`. The response time is the oracle's `elapsed`, so wall-clock timing is not modelled.
- Concurrency: `pLimit` and `Promise.all` run the tasks in any order. The model runs them in list order, and `Report.SummaryPerm` shows that the counts and time figures do not depend on that order.
- Spreadsheet I/O: a sheet is a `seq<Row>`, and the files are a map from name to sheet. Reading and writing workbooks and the time-stamped output file name are not modelled.
- The Electron shell: windows, dialogs, IPC channels, `spawn`, signals and the SIGKILL timer, plus the child's stderr, `close` and `error` handlers. `TestControl` keeps only the handle state.
- The argument list `run-url-test` builds for the child (main.js:244-281): it is path handling and file checks.
- The DOM, modals, toasts, timers, `localStorage` and keyboard shortcuts. `updateStats` and `updateProgress` are modelled only through the values they read.
- JSON: encoding and `JSON.parse` of records. Records are datatypes, and whether a payload parses is the parameter `parses`.
- Console output, the help text and exit codes: `main` ends in a `Finish` value instead.
- The progress bar of command-line mode: `progressBar` is never defined there, so only Electron mode is modelled.
- `Date.now`: it is a parameter of `Board.StartReset`.
- Fallback.ProgressLine: the percentage and speed are strings given as parameters, because they are `toFixed` floats. Counts are written without the grouping commas `toLocaleString` may add; the parser removes commas anyway.
- Dashboard.SuccessRate: an exact rational, not the `toFixed(1)` string of a float quotient.
- Report.SummaryOf: the percentage columns, including their unguarded division by zero, are not modelled. The average is an exact rounding of the integer mean, not a float `toFixed(0)`.
- Domain.Normalize: its length test counts characters (Unicode scalar values), where JavaScript's `.length` counts UTF-16 code units. So a host with characters outside the Basic Multilingual Plane, such as `😀.`, is rejected by the model but accepted at index.js:91 and main.js:182. The same holds for the length test of `Cli.Accepted` (index.js:341) and of `buildUrl` (index.js:109).
- Report.SummaryOf: `Math.min(...responseTimes)` and `Math.max(...)` (index.js:131-132) pass every time as a separate argument. With a very large list, such as about 10^5 or more successes, the engine throws a `RangeError`. The model always returns the minimum and maximum.
- Strings.Lower: lower-cases ASCII letters only, so letters beyond ASCII that `toLowerCase` would change are left as they are.
- Numbers.ParseInt: reads a number as a mathematical integer, so precision lost above 2^53 is not modelled.
- Loader.CellString and Sheet.Cell: a numeric cell holds an integer, so fractional cells are not modelled. main.js:129-131 turns a cell such as 12.5 into the string `12.5`, which has a dot and so becomes an entry; the model has no such cell.
- Histogram.BumpSpec: `statusCodes` and `errorPatterns` (index.js:135-149) are plain objects, so a key equal to an inherited property such as `constructor`, `toString` or `__proto__` would read an inherited value and not count as expected. The model treats every key as fresh. The error messages of the probes do not in practice begin with such a word.
- The CSS row classes and cell texts of `updateDomainStatus` and `updateProtocolStatus`: they are display only.

## Findings

| source | as written | input that shows it | evidently intended | confidence | as-written member | corrected member |
|---|---|---|---|---|---|---|
| index.js:314 | The partial search runs whenever the column is still 5. An exact match in column F therefore looks just like no match, and a later partial match overrides it. | header `["a","b","c","d","e","도메인주소","url"]` with no column argument: column 6 (G) is chosen instead of 5 (F) | An exact match wins wherever it is; the partial search runs only when there is no exact match | high (not executed) | Cli.ColumnAsWrittenMissesF | Cli.ColumnIntendedSpec |

`Cli.ColumnAsWritten` and `Cli.DetectColumnAsWritten` model the code as
written, and `Tool` uses them, so `Tool.MainResult` is `main` as it behaves.
`Cli.ColumnIntended` and `Cli.DetectColumn` are the corrected detection.
`Cli.ColumnIntendedSpec` proves its intended property, and
`Cli.ColumnAsWrittenMissesF` shows where the two differ. The lemmas about
`Tool` (`DomainsInOrder`, `CheckedSaved`, `MainSaved`) hold for any domain
column, so they hold for the corrected tool as well.
