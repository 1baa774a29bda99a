/**
 * The state of the desktop front end (renderer.js): the table of entries it
 * loaded, the statistics it keeps while a test runs, and how it folds the
 * messages of the test process into them. The table of entries is shown
 * through a status filter; drawing it is outside the model.
 */
module Dashboard {
  import opened Wrappers
  import opened Strings
  import opened Numbers
  import opened Seqs
  import opened Domain
  import opened Probe
  import opened Fallback
  import opened Loader

  // The table filter (renderer.js:343-354).

  /** Whether an entry is listed under `filter`; any other filter lists everything. */
  predicate Shown(filter: string, e: Entry) {
    if filter == "pending" then e.status == "" || e.status == Pending
    else if filter == "success" then e.status == "success" || e.status == "partial-success"
    else if filter == "failed" then e.status == "failed"
    else true
  }

  predicate PendingItem(e: Entry) { e.status == "" || e.status == Pending }
  predicate SucceededItem(e: Entry) { e.status == "success" || e.status == "partial-success" }
  predicate FailedItem(e: Entry) { e.status == "failed" }

  const Filters: seq<string> := ["pending", "success", "failed"]

  /** `filterData`: the entries listed under `filter`, in table order. */
  function FilterData(data: seq<Entry>, filter: string): (r: seq<Entry>)
    ensures filter !in Filters ==> r == data
    ensures forall e :: e in r ==> e in data && Shown(filter, e)
  {
    if filter == "pending" then Filter(data, PendingItem)
    else if filter == "success" then Filter(data, SucceededItem)
    else if filter == "failed" then Filter(data, FailedItem)
    else data
  }

  /** An entry is listed exactly when it is in the table and passes the filter. */
  lemma FilterDataSpec(data: seq<Entry>, filter: string)
    ensures forall e :: e in FilterData(data, filter) <==> e in data && Shown(filter, e)
  {
    forall e | e in data && Shown(filter, e) ensures e in FilterData(data, filter) {
      if filter == "pending" {
        FilterKeeps(data, PendingItem, e);
      } else if filter == "success" {
        FilterKeeps(data, SucceededItem, e);
      } else if filter == "failed" {
        FilterKeeps(data, FailedItem, e);
      }
    }
  }

  /** Filtering keeps the table order: it distributes over concatenation. */
  lemma FilterDataConcat(a: seq<Entry>, b: seq<Entry>, filter: string)
    ensures FilterData(a + b, filter) == FilterData(a, filter) + FilterData(b, filter)
  {
    if filter == "pending" {
      FilterConcat(a, b, PendingItem);
    } else if filter == "success" {
      FilterConcat(a, b, SucceededItem);
    } else if filter == "failed" {
      FilterConcat(a, b, FailedItem);
    }
  }

  /** Applying the same filter twice lists what applying it once does. */
  lemma FilterDataIdempotent(data: seq<Entry>, filter: string)
    ensures FilterData(FilterData(data, filter), filter) == FilterData(data, filter)
  {
    if filter == "pending" {
      FilterIdempotent(data, PendingItem);
    } else if filter == "success" {
      FilterIdempotent(data, SucceededItem);
    } else if filter == "failed" {
      FilterIdempotent(data, FailedItem);
    }
  }

  // Status texts (renderer.js:357-377).

  const KnownStatuses: seq<string> :=
    ["pending", "success", "failed", "partial-success",
     "http-success", "https-success", "http-failed", "https-failed"]

  const PendingText: string := "대기 중"

  /** `getStatusText`: the text shown for a status. */
  function StatusText(status: string): (text: string)
    ensures text == PendingText <==> status == Pending || status !in KnownStatuses
  {
    if status == "success" then "성공"
    else if status == "failed" then "실패"
    else if status == "partial-success" then "부분 성공"
    else if status == "http-success" then "HTTP 성공"
    else if status == "https-success" then "HTTPS 성공"
    else if status == "http-failed" then "HTTP 실패"
    else if status == "https-failed" then "HTTPS 실패"
    else PendingText
  }

  /** The known statuses have texts of their own. */
  lemma StatusTextDistinct(a: string, b: string)
    requires a in KnownStatuses && b in KnownStatuses && a != b
    ensures StatusText(a) != StatusText(b)
  {
  }

  // Reclassification of a result (renderer.js:691-696).

  /** The final status the front end records: a `failed` result becomes
      `partial-success` when one protocol succeeded and the other failed. */
  function Reclassify(finalStatus: string, httpStatus: string, httpsStatus: string): (actual: string)
    ensures actual == "partial-success" && finalStatus != "partial-success" <==>
      finalStatus == "failed"
      && ((httpStatus == "http-success" && httpsStatus == "https-failed")
          || (httpStatus == "http-failed" && httpsStatus == "https-success"))
    ensures actual != finalStatus ==> actual == "partial-success"
  {
    if finalStatus == "failed"
       && ((httpStatus == "http-success" && httpsStatus == "https-failed")
           || (httpStatus == "http-failed" && httpsStatus == "https-success"))
    then "partial-success"
    else finalStatus
  }

  function ActualStatus(r: StatusRecord): string {
    Reclassify(r.finalStatus, r.httpStatus, r.httpsStatus)
  }

  /** What holds of every record the test process writes (index.js:439-446)
      for the outcome of a task. */
  predicate Consistent(r: StatusRecord) {
    && (r.finalStatus == "success" || r.finalStatus == "failed")
    && (r.httpStatus == "http-success" || r.httpStatus == "http-failed")
    && (r.httpsStatus == "https-success" || r.httpsStatus == "https-failed")
    && (r.finalStatus == "success" <==> r.httpStatus == "http-success" || r.httpsStatus == "https-success")
    && (r.httpStatus == "http-success" ==> r.httpsStatus == "https-failed")
  }

  lemma RecordConsistent(index: nat, d: Candidate, probe: Prober)
    requires Resolve(d, probe).Some?
    ensures Consistent(StatusRecordOf(index, Resolve(d, probe).value))
  {
    StatusRecordSpec(index, d, probe);
  }

  /** The reclassification never applies to such a record: a protocol that
      succeeded already made it `success`. */
  lemma ReclassifyNeverApplies(r: StatusRecord)
    requires Consistent(r)
    ensures ActualStatus(r) == r.finalStatus
  {
  }

  // The statistics display (renderer.js:150-155).

  /** The success rate in percent; 0 unless the request count is positive. */
  function SuccessRate(success: nat, requests: Number): (rate: real)
    ensures !(requests.Int? && requests.value > 0) ==> rate == 0.0
    ensures requests.Int? && requests.value > 0 ==> rate * requests.value as real == 100.0 * success as real
    ensures requests.Int? && 0 < requests.value && success <= requests.value ==> 0.0 <= rate <= 100.0
  {
    if requests.Int? && requests.value > 0 then (success as real / requests.value as real) * 100.0 else 0.0
  }

  /** The average response time, rounded half up; 0 for no times. */
  function AverageTime(times: seq<nat>): (avg: nat)
    ensures times == [] ==> avg == 0
    ensures times != [] ==> 2 * |times| * avg <= 2 * Sum(times) + |times| < 2 * |times| * (avg + 1)
    ensures times != [] ==> Min(times) <= avg <= Max(times)
  {
    if times == [] then 0
    else
      MeanBetweenMinMax(times);
      DivRange(2 * Sum(times) + |times|, 2 * |times|);
      RoundedMean(times)
  }

  lemma DivRange(m: nat, d: nat)
    requires d > 0
    ensures d * (m / d) <= m < d * (m / d + 1)
  {
    assert d * (m / d + 1) == d * (m / d) + d;
  }

  // Entry updates (renderer.js:383-384, 422-424, 576-582).

  /** `updateDomainStatus` on the table: entry `index`, when there is one,
      takes the new status and response time and keeps its other fields. */
  function WithStatus(data: seq<Entry>, index: int, status: string, time: Option<nat>): (r: seq<Entry>)
    ensures |r| == |data|
    ensures !(0 <= index < |data|) ==> r == data
    ensures forall i :: 0 <= i < |data| && i != index ==> r[i] == data[i]
    ensures 0 <= index < |data| ==>
      && r[index].status == status && r[index].responseTime == time
      && r[index].originalIndex == data[index].originalIndex && r[index].url == data[index].url
      && r[index].httpStatus == data[index].httpStatus && r[index].httpsStatus == data[index].httpsStatus
  {
    if 0 <= index < |data| then data[index := data[index].(status := status, responseTime := time)]
    else data
  }

  /** `updateProtocolStatus` on the table: only the status field of the protocol changes. */
  function WithProtocolStatus(data: seq<Entry>, index: int, protocol: Protocol, status: string): (r: seq<Entry>)
    ensures |r| == |data|
    ensures !(0 <= index < |data|) ==> r == data
    ensures forall i :: 0 <= i < |data| && i != index ==> r[i] == data[i]
    ensures 0 <= index < |data| ==>
      && (if protocol == Http then r[index].httpStatus == status && r[index].httpsStatus == data[index].httpsStatus
          else r[index].httpsStatus == status && r[index].httpStatus == data[index].httpStatus)
      && r[index].originalIndex == data[index].originalIndex && r[index].url == data[index].url
      && r[index].status == data[index].status && r[index].responseTime == data[index].responseTime
  {
    if !(0 <= index < |data|) then data
    else if protocol == Http then data[index := data[index].(httpStatus := status)]
    else data[index := data[index].(httpsStatus := status)]
  }

  /** The table after a `domain-result` event. */
  function ApplyResult(data: seq<Entry>, r: StatusRecord): seq<Entry> {
    var d1 := WithStatus(data, r.index, ActualStatus(r), r.responseTime);
    var d2 := if r.httpStatus != "" then WithProtocolStatus(d1, r.index, Http, r.httpStatus) else d1;
    if r.httpsStatus != "" then WithProtocolStatus(d2, r.index, Https, r.httpsStatus) else d2
  }

  /** A result changes the entry at its index, if the table has one, and no
      other: the entry takes the reclassified status, the response time and
      every protocol status the record carries. */
  lemma ApplyResultSpec(data: seq<Entry>, r: StatusRecord)
    ensures var t := ApplyResult(data, r);
      && |t| == |data|
      && (r.index >= |data| ==> t == data)
      && (forall i :: 0 <= i < |data| && i != r.index ==> t[i] == data[i])
      && (r.index < |data| ==>
            && t[r.index].originalIndex == data[r.index].originalIndex && t[r.index].url == data[r.index].url
            && t[r.index].status == ActualStatus(r) && t[r.index].responseTime == r.responseTime
            && t[r.index].httpStatus == (if r.httpStatus != "" then r.httpStatus else data[r.index].httpStatus)
            && t[r.index].httpsStatus == (if r.httpsStatus != "" then r.httpsStatus else data[r.index].httpsStatus))
  {
  }

  /** The entry as the stop reset leaves it. */
  function ResetEntry(e: Entry): Entry {
    e.(status := Pending, httpStatus := Pending, httpsStatus := Pending, responseTime := None)
  }

  /** The table after the stop reset: the same entries, each pending with no time. */
  function ResetEntries(data: seq<Entry>): (r: seq<Entry>)
    ensures |r| == |data|
    ensures forall i :: 0 <= i < |data| ==>
      && r[i].originalIndex == data[i].originalIndex && r[i].url == data[i].url
      && r[i].status == Pending && r[i].httpStatus == Pending && r[i].httpsStatus == Pending
      && r[i].responseTime.None?
  {
    seq(|data|, i requires 0 <= i < |data| => ResetEntry(data[i]))
  }

  /** After the reset every entry is listed as pending and none as succeeded or failed. */
  lemma ResetShownPending(data: seq<Entry>)
    ensures FilterData(ResetEntries(data), "pending") == ResetEntries(data)
    ensures FilterData(ResetEntries(data), "success") == []
    ensures FilterData(ResetEntries(data), "failed") == []
  {
    var r := ResetEntries(data);
    forall e | e in r ensures PendingItem(e) && !SucceededItem(e) && !FailedItem(e) {
      var i :| 0 <= i < |r| && r[i] == e;
    }
    FilterAll(r, PendingItem);
    FilterNone(r, SucceededItem);
    FilterNone(r, FailedItem);
  }

  /** The reset erases what results did to the table. */
  lemma ResetForgetsResult(data: seq<Entry>, r: StatusRecord)
    ensures ResetEntries(ApplyResult(data, r)) == ResetEntries(data)
  {
    ApplyResultSpec(data, r);
    var a := ResetEntries(ApplyResult(data, r));
    var b := ResetEntries(data);
    forall i | 0 <= i < |b| ensures a[i] == b[i] {
      if i == r.index {
        assert a[i] == ResetEntry(ApplyResult(data, r)[i]);
      }
    }
  }

  // The progress message (renderer.js:643-681).

  const ProgressWord: string := "진행률"

  predicate IsCountChar(c: char) { IsDigit(c) || c == ',' }
  predicate IsPercentChar(c: char) { IsDigit(c) || c == '.' }
  predicate NotComma(c: char) { c != ',' }

  /** `([\d,]+)\/([\d,]+)` matched at the front of `s`. Each quantifier can
      only take its longest run, so the match is unique when there is one. */
  function CountsAt(s: string): (r: Option<(string, string)>)
    ensures r.Some? ==> |r.value.0| + 1 + |r.value.1| <= |s|
  {
    var g1 := PrefixWhile(s, IsCountChar);
    var c := s[|g1|..];
    if g1 == [] || c == [] || c[0] != '/' then None
    else
      var g2 := PrefixWhile(c[1..], IsCountChar);
      if g2 == [] then None else Some((g1, g2))
  }

  /** `진행률:\s*([\d,]+)\/([\d,]+)\s*\(([\d.]+)%\)` matched at the front of `s`. */
  function ProgressAt(s: string): Option<(string, string)> {
    if !StartsWith(s, ProgressHead) then None else ProgressAfter(s[|ProgressHead|..])
  }

  /** The literal part of the full pattern in front of its first `\s*`. */
  const ProgressHead: string := ProgressWord + ":"

  /** `\s*([\d,]+)\/([\d,]+)\s*\(([\d.]+)%\)` matched at the front of `a`. */
  function ProgressAfter(a: string): Option<(string, string)> {
    CountsPercent(SkipSpaces(a))
  }

  /** `s` after what `\s*` matches at its front. */
  function SkipSpaces(s: string): string {
    s[|PrefixWhile(s, IsSpace)|..]
  }

  /** `([\d,]+)\/([\d,]+)\s*\(([\d.]+)%\)` matched at the front of `b`. */
  function CountsPercent(b: string): Option<(string, string)> {
    var g := CountsAt(b);
    if g.Some? && PercentAt(b[|g.value.0| + 1 + |g.value.1|..]) then g else None
  }

  /** `\s*\(([\d.]+)%\)` matched at the front of `e`. */
  predicate PercentAt(e: string) {
    var f := SkipSpaces(e);
    && f != [] && f[0] == '('
    && var g3 := PrefixWhile(f[1..], IsPercentChar);
    g3 != [] && StartsWith(f[1..][|g3|..], "%)")
  }

  /** `s.match(re)` for a pattern matched by `at`: the match at the leftmost
      position where there is one. */
  function Leftmost(s: string, at: string -> Option<(string, string)>): (r: Option<(string, string)>)
    ensures r.Some? ==> exists p :: 0 <= p <= |s| && at(s[p..]) == r && forall q :: 0 <= q < p ==> at(s[q..]).None?
    ensures r.None? ==> forall p :: 0 <= p <= |s| ==> at(s[p..]).None?
    decreases |s|
  {
    if at(s).Some? then
      assert s[0..] == s;
      at(s)
    else if s == [] then None
    else
      var r := Leftmost(s[1..], at);
      assert forall p :: 1 <= p <= |s| ==> s[1..][p - 1..] == s[p..];
      r
  }

  /** `parseInt(g.replace(/,/g, ''))`. */
  function CountValue(g: string): Number {
    ParseInt(Filter(g, NotComma))
  }

  /** The current and total counts a progress message reports, if any; the
      full pattern is tried first and the bare `current/total` pattern after it. */
  function ParseProgress(message: string): Option<(Number, Number)> {
    if !Includes(message, ProgressWord) then None
    else match Leftmost(message, ProgressAt)
      case Some(g) => Some((CountValue(g.0), CountValue(g.1)))
      case None =>
        match Leftmost(message, CountsAt)
        case Some(g) => Some((CountValue(g.0), CountValue(g.1)))
        case None => None
  }

  lemma {:induction false} PrefixWhileStops(a: string, b: string, p: char -> bool)
    requires forall i :: 0 <= i < |a| ==> p(a[i])
    requires b != [] && !p(b[0])
    ensures PrefixWhile(a + b, p) == a
    decreases |a|
  {
    if a != [] {
      assert (a + b)[1..] == a[1..] + b;
      PrefixWhileStops(a[1..], b, p);
    }
  }

  lemma NumeralCount(n: nat)
    ensures CountValue(NatToString(n)) == Int(n)
  {
    FilterAll(NatToString(n), NotComma);
    ParseIntOfNumeral(n);
  }

  /** The counts part of a progress line, for numerals made of digits. */
  lemma CountsOf(nc: string, nt: string, rest: string)
    requires nc != [] && AllDigits(nc) && nt != [] && AllDigits(nt)
    requires rest != [] && rest[0] == ' '
    ensures var b := nc + ("/" + (nt + rest));
      && CountsAt(b) == Some((nc, nt)) && b[|nc| + 1 + |nt|..] == rest
      && b != [] && !IsSpace(b[0])
  {
    var s := nc + ("/" + (nt + rest));
    PrefixWhileStops(nc, "/" + (nt + rest), IsCountChar);
    assert s[|nc|..] == "/" + (nt + rest);
    assert ("/" + (nt + rest))[1..] == nt + rest;
    PrefixWhileStops(nt, rest, IsCountChar);
    assert s[|nc| + 1 + |nt|..] == rest;
    assert s[0] == nc[0];
  }

  /** The tail of a progress line after the counts. */
  lemma TailOfLine(pct: string, more: string)
    requires pct != [] && forall i :: 0 <= i < |pct| ==> IsPercentChar(pct[i])
    ensures PercentAt(" (" + (pct + ("%)" + more)))
  {
    var e := " (" + (pct + ("%)" + more));
    assert e == " " + ("(" + (pct + ("%)" + more)));
    PrefixWhileStops(" ", "(" + (pct + ("%)" + more)), IsSpace);
    var f := "(" + (pct + ("%)" + more));
    assert f[1..] == pct + ("%)" + more);
    PrefixWhileStops(pct, "%)" + more, IsPercentChar);
    assert f[1..][|pct|..] == "%)" + more;
  }

  /** Nine pieces joined from the left are the same pieces grouped from the
      right, once the first and the seventh are each split in two. */
  lemma Regroup(l: string, h: string, x: string, nc: string, sl: string, nt: string, op: string,
                pct: string, m: string, p: string, q: string, speed: string, rq: string)
    requires l == h + x && m == p + q
    ensures l + nc + sl + nt + op + pct + m + speed + rq
         == h + (x + (nc + (sl + (nt + (op + (pct + (p + (q + speed + rq))))))))
  {
  }

  /** The progress line, grouped the way the pattern reads it. */
  lemma LineShape(c: nat, t: nat, pct: string, speed: string)
    ensures ProgressLine(c, t, pct, speed)
      == ProgressHead + (" " + (NatToString(c) + ("/" + (NatToString(t)
           + (" (" + (pct + ("%)" + (" - 속도: " + speed + " req/s"))))))))
  {
    assert "진행률: " == ProgressHead + " ";
    assert "%) - 속도: " == "%)" + " - 속도: ";
    Regroup("진행률: ", ProgressHead, " ", NatToString(c), "/", NatToString(t), " (",
            pct, "%) - 속도: ", "%)", " - 속도: ", speed, " req/s");
  }

  /** The full pattern after the word and its colon. */
  lemma ProgressAtHead(x: string)
    ensures ProgressAt(ProgressHead + x) == ProgressAfter(x)
  {
    assert (ProgressHead + x)[..|ProgressHead|] == ProgressHead;
    assert (ProgressHead + x)[|ProgressHead|..] == x;
  }

  /** `\s*` takes exactly the one space in front of `b`. */
  lemma SkipOneSpace(b: string)
    requires b != [] && !IsSpace(b[0])
    ensures SkipSpaces(" " + b) == b
  {
    PrefixWhileStops(" ", b, IsSpace);
    assert (" " + b)[1..] == b;
  }

  /** The counts and the percentage part of a progress line. */
  lemma CountsPercentLine(nc: string, nt: string, pct: string, more: string)
    requires nc != [] && AllDigits(nc) && nt != [] && AllDigits(nt)
    requires pct != [] && forall i :: 0 <= i < |pct| ==> IsPercentChar(pct[i])
    ensures var b := nc + ("/" + (nt + (" (" + (pct + ("%)" + more)))));
      b != [] && !IsSpace(b[0]) && CountsPercent(b) == Some((nc, nt))
  {
    var b := nc + ("/" + (nt + (" (" + (pct + ("%)" + more)))));
    CountsOf(nc, nt, " (" + (pct + ("%)" + more)));
    TailOfLine(pct, more);
    CountsPercentOf(b, nc, nt);
  }

  /** The counts followed by the percentage part. */
  lemma CountsPercentOf(b: string, nc: string, nt: string)
    requires CountsAt(b) == Some((nc, nt))
    requires PercentAt(b[|nc| + 1 + |nt|..])
    ensures CountsPercent(b) == Some((nc, nt))
  {
  }

  /** A message that begins with a full match reports its counts. */
  lemma ParseProgressFront(s: string, g: (string, string))
    requires ProgressAt(s) == Some(g) && StartsWith(s, ProgressWord)
    ensures ParseProgress(s) == Some((CountValue(g.0), CountValue(g.1)))
  {
    assert Leftmost(s, ProgressAt) == ProgressAt(s);
  }

  /** The full pattern on the word, its colon, one space and the counts
      followed by the percentage part. */
  lemma ProgressAtOf(s: string, b: string, g: (string, string))
    requires s == ProgressHead + (" " + b)
    requires b != [] && !IsSpace(b[0]) && CountsPercent(b) == Some(g)
    ensures ProgressAt(s) == Some(g)
  {
    ProgressAtHead(" " + b);
    SkipOneSpace(b);
  }

  /** The progress line begins with the word, and after its colon and one
      space come the counts and the percentage part. */
  lemma LineStart(c: nat, t: nat, pct: string, speed: string)
    ensures var more := " - 속도: " + speed + " req/s";
      var s := ProgressLine(c, t, pct, speed);
      && s == ProgressHead + (" " + (NatToString(c) + ("/" + (NatToString(t) + (" (" + (pct + ("%)" + more)))))))
      && StartsWith(s, ProgressWord)
  {
    var s := ProgressLine(c, t, pct, speed);
    LineShape(c, t, pct, speed);
    assert s[..|ProgressWord|] == ProgressWord;
  }

  /** Reading back the progress line the test process logs gives its counts,
      whatever the speed, for a percentage written with digits and a point. */
  lemma ParseProgressLine(c: nat, t: nat, pct: string, speed: string)
    requires pct != [] && forall i :: 0 <= i < |pct| ==> IsPercentChar(pct[i])
    ensures ParseProgress(ProgressLine(c, t, pct, speed)) == Some((Int(c), Int(t)))
  {
    var nc, nt := NatToString(c), NatToString(t);
    var more := " - 속도: " + speed + " req/s";
    LineStart(c, t, pct, speed);
    CountsPercentLine(nc, nt, pct, more);
    ProgressAtOf(ProgressLine(c, t, pct, speed), nc + ("/" + (nt + (" (" + (pct + ("%)" + more))))), (nc, nt));
    ParseProgressFront(ProgressLine(c, t, pct, speed), (nc, nt));
    NumeralCount(c);
    NumeralCount(t);
  }

  // The front end's state (renderer.js:51-62).

  /** How a result moves the success and failure counters. */
  predicate CountsAsSuccess(r: StatusRecord) {
    ActualStatus(r) == "success" || ActualStatus(r) == "partial-success"
  }

  predicate CountsAsFailure(r: StatusRecord) {
    ActualStatus(r) == "failed"
  }

  predicate HttpSucceeded(r: StatusRecord) { r.httpStatus == "http-success" }
  predicate HttpsSucceeded(r: StatusRecord) { r.httpsStatus == "https-success" }

  /** The time a result adds to the list: only a truthy one. */
  function TimeOf(r: StatusRecord): Option<nat> {
    if r.responseTime.Some? && r.responseTime.value != 0 then r.responseTime else None
  }

  /** The counters and the time list of the statistics display, as one value. */
  datatype Stats = Stats(success: nat, failed: nat, http: nat, https: nat, times: seq<nat>)

  const NoStats: Stats := Stats(0, 0, 0, 0, [])

  /** How the `domain-result` handler moves the statistics (renderer.js:710-725). */
  function CountResult(st: Stats, r: StatusRecord): Stats {
    Stats(
      st.success + (if CountsAsSuccess(r) then 1 else 0),
      st.failed + (if CountsAsFailure(r) then 1 else 0),
      st.http + (if HttpSucceeded(r) then 1 else 0),
      st.https + (if HttpsSucceeded(r) then 1 else 0),
      st.times + (match TimeOf(r) case Some(v) => [v] case None => []))
  }

  /** The statistics after the results `rs`, from zero. */
  function Totals(rs: seq<StatusRecord>): Stats {
    if rs == [] then NoStats else CountResult(Totals(rs[..|rs| - 1]), rs[|rs| - 1])
  }

  /** Each counter counts the results it is meant to, and the time list holds
      the truthy times in arrival order. */
  lemma {:induction false} TotalsSpec(rs: seq<StatusRecord>)
    ensures Totals(rs).success == Count(rs, CountsAsSuccess)
    ensures Totals(rs).failed == Count(rs, CountsAsFailure)
    ensures Totals(rs).http == Count(rs, HttpSucceeded)
    ensures Totals(rs).https == Count(rs, HttpsSucceeded)
    ensures Totals(rs).times == Collect(rs, TimeOf)
    decreases |rs|
  {
    if rs != [] {
      var init, last := rs[..|rs| - 1], rs[|rs| - 1];
      TotalsSpec(init);
      assert rs == init + [last];
      CountAppend(init, last, CountsAsSuccess);
      CountAppend(init, last, CountsAsFailure);
      CountAppend(init, last, HttpSucceeded);
      CountAppend(init, last, HttpsSucceeded);
      CollectAppend(init, last, TimeOf);
    }
  }

  /** For records the test process writes, every result counts once as a
      success or a failure, and a success counts once for HTTP or for HTTPS. */
  lemma {:induction false} CountersOfConsistent(rs: seq<StatusRecord>)
    requires forall i :: 0 <= i < |rs| ==> Consistent(rs[i])
    ensures Count(rs, CountsAsSuccess) + Count(rs, CountsAsFailure) == |rs|
    ensures Count(rs, HttpSucceeded) + Count(rs, HttpsSucceeded) == Count(rs, CountsAsSuccess)
    decreases |rs|
  {
    if rs != [] {
      var init := rs[..|rs| - 1];
      assert forall i :: 0 <= i < |init| ==> init[i] == rs[i];
      CountersOfConsistent(init);
      ReclassifyNeverApplies(rs[|rs| - 1]);
    }
  }

  class Board {
    var requestCount: Number
    var successCount: nat
    var failCount: nat
    var httpSuccess: nat
    var httpsSuccess: nat
    var responseTimes: seq<nat>
    var startTime: Option<nat>
    var domainData: seq<Entry>
    /** The results received since the statistics were last reset. */
    ghost var received: seq<StatusRecord>

    /** The counters and the time list are what the results received since
        the last reset add up to. */
    ghost predicate Valid()
      reads this
    {
      Counters() == Totals(received)
    }

    function Counters(): Stats
      reads this
    {
      Stats(successCount, failCount, httpSuccess, httpsSuccess, responseTimes)
    }

    /** The initial state: an empty table and zero counters. */
    constructor()
      ensures Valid() && received == []
      ensures requestCount == Int(0) && Counters() == NoStats
      ensures startTime.None? && domainData == []
    {
      requestCount := Int(0);
      successCount, failCount, httpSuccess, httpsSuccess := 0, 0, 0, 0;
      responseTimes := [];
      startTime := None;
      domainData := [];
      received := [];
    }

    /** The table takes the entries a load returned (renderer.js:270). */
    method Load(entries: seq<Entry>)
      modifies this
      ensures domainData == entries
      ensures requestCount == old(requestCount) && Counters() == old(Counters())
      ensures startTime == old(startTime) && received == old(received)
    {
      domainData := entries;
    }

    /** `updateDomainStatus`. */
    method UpdateDomainStatus(index: int, status: string, time: Option<nat>)
      modifies this
      ensures domainData == WithStatus(old(domainData), index, status, time)
      ensures requestCount == old(requestCount) && Counters() == old(Counters())
      ensures startTime == old(startTime) && received == old(received)
    {
      if 0 <= index < |domainData| {
        domainData := domainData[index := domainData[index].(status := status, responseTime := time)];
      }
    }

    /** `updateProtocolStatus`. */
    method UpdateProtocolStatus(index: int, protocol: Protocol, status: string)
      modifies this
      ensures domainData == WithProtocolStatus(old(domainData), index, protocol, status)
      ensures requestCount == old(requestCount) && Counters() == old(Counters())
      ensures startTime == old(startTime) && received == old(received)
    {
      if 0 <= index < |domainData| {
        if protocol == Http {
          domainData := domainData[index := domainData[index].(httpStatus := status)];
        } else {
          domainData := domainData[index := domainData[index].(httpsStatus := status)];
        }
      }
    }

    /** The `domain-result` handler: the table update and the counters. */
    method OnDomainResult(r: StatusRecord)
      requires Valid()
      modifies this
      ensures Valid() && received == old(received) + [r]
      ensures domainData == ApplyResult(old(domainData), r)
      ensures Counters() == CountResult(old(Counters()), r)
      ensures requestCount == old(requestCount) && startTime == old(startTime)
    {
      ghost var history := received;
      var actual := Reclassify(r.finalStatus, r.httpStatus, r.httpsStatus);
      ShowResult(r, actual);
      var st := Counted(Counters(), r, actual);
      successCount, failCount, httpSuccess, httpsSuccess, responseTimes := st.success, st.failed, st.http, st.https, st.times;
      received := received + [r];
      assert received[..|history|] == history;
      assert Totals(received) == CountResult(Totals(history), r);
    }

    /** The counter part of the `domain-result` handler (renderer.js:710-725). */
    static method Counted(st: Stats, r: StatusRecord, actual: string) returns (u: Stats)
      requires actual == ActualStatus(r)
      ensures u == CountResult(st, r)
    {
      var success, failed, http, https, times := st.success, st.failed, st.http, st.https, st.times;
      if actual == "success" || actual == "partial-success" {
        success := success + 1;
      } else if actual == "failed" {
        failed := failed + 1;
      }
      if r.httpStatus == "http-success" {
        http := http + 1;
      }
      if r.httpsStatus == "https-success" {
        https := https + 1;
      }
      if r.responseTime.Some? && r.responseTime.value != 0 {
        times := times + [r.responseTime.value];
      }
      u := Stats(success, failed, http, https, times);
    }

    /** The table part of the `domain-result` handler (renderer.js:698-707). */
    method ShowResult(r: StatusRecord, actual: string)
      requires actual == ActualStatus(r)
      modifies this
      ensures domainData == ApplyResult(old(domainData), r)
      ensures requestCount == old(requestCount) && Counters() == old(Counters())
      ensures startTime == old(startTime) && received == old(received)
    {
      UpdateDomainStatus(r.index, actual, r.responseTime);
      if r.httpStatus != "" {
        UpdateProtocolStatus(r.index, Http, r.httpStatus);
      }
      if r.httpsStatus != "" {
        UpdateProtocolStatus(r.index, Https, r.httpsStatus);
      }
    }

    /** The `test-progress` handler: a message with counts sets the request count. */
    method OnProgress(message: string)
      modifies this
      ensures ParseProgress(message).Some? ==> requestCount == ParseProgress(message).value.0
      ensures ParseProgress(message).None? ==> requestCount == old(requestCount)
      ensures Counters() == old(Counters()) && received == old(received)
      ensures startTime == old(startTime) && domainData == old(domainData)
    {
      var parsed := ParseProgress(message);
      if parsed.Some? {
        requestCount := parsed.value.0;
      }
    }

    /** `resetProgressAndStats`. */
    method ResetProgressAndStats()
      modifies this
      ensures Valid() && received == []
      ensures requestCount == Int(0) && Counters() == NoStats
      ensures startTime.None? && domainData == old(domainData)
    {
      requestCount := Int(0);
      successCount, failCount, httpSuccess, httpsSuccess := 0, 0, 0, 0;
      responseTimes := [];
      startTime := None;
      received := [];
    }

    /** The reset when a test starts (renderer.js:499-505); `now` is the clock. */
    method StartReset(now: nat)
      modifies this
      ensures Valid() && received == []
      ensures requestCount == Int(0) && Counters() == NoStats
      ensures startTime == Some(now) && domainData == old(domainData)
    {
      startTime := Some(now);
      requestCount := Int(0);
      successCount, failCount, httpSuccess, httpsSuccess := 0, 0, 0, 0;
      responseTimes := [];
      received := [];
    }

    /** The reset after a stop (renderer.js:572-582): the statistics and every entry. */
    method StopReset()
      modifies this
      ensures Valid() && received == []
      ensures requestCount == Int(0) && Counters() == NoStats
      ensures startTime.None? && domainData == ResetEntries(old(domainData))
    {
      ResetProgressAndStats();
      if |domainData| > 0 {
        domainData := ResetEntries(domainData);
      }
    }
  }
}

