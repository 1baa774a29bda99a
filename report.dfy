/**
 * The summary sheet of index.js (`generateSummaryData`): success and failure
 * counts, the counts per protocol, response-time statistics, the ten most
 * frequent status codes, the five most frequent error patterns and the first
 * ten successful and failed domains.
 */
module Report {
  import opened Wrappers
  import opened Strings
  import opened Seqs
  import opened Histogram
  import opened Domain
  import opened Fallback

  predicate Succeeded(o: Outcome) {
    o.finalResult.Reached?
  }

  predicate FailedOutcome(o: Outcome) {
    !o.finalResult.Reached?
  }

  predicate HttpSucceeded(o: Outcome) {
    o.finalResult.Reached? && o.finalResult.protocol == Http
  }

  predicate HttpsSucceeded(o: Outcome) {
    o.finalResult.Reached? && o.finalResult.protocol == Https
  }

  /** The response time of a success, when it is not 0 (a 0 is falsy and skipped). */
  function ResponseTime(o: Outcome): Option<nat> {
    if o.finalResult.Reached? && o.finalResult.responseTime != 0 then Some(o.finalResult.responseTime)
    else None
  }

  /** The status code of a success, as the property name it is counted under;
      a 0 status is falsy and is not counted. */
  function StatusKey(o: Outcome): Option<string> {
    if o.finalResult.Reached? && o.finalResult.statusCode != 0 then Some(NatToString(o.finalResult.statusCode))
    else None
  }

  /** The text before the first colon of the first non-empty error message, or
      `"Unknown Error"` when that text is empty. */
  function ErrorPattern(httpError: string, httpsError: string): string {
    var error := if httpError != "" then httpError else httpsError;
    var pattern := Split(error, ':')[0];
    if pattern == "" then "Unknown Error" else pattern
  }

  function ErrorKey(o: Outcome): Option<string> {
    match o.finalResult
    case Unreachable(httpError, httpsError, _) => Some(ErrorPattern(httpError, httpsError))
    case Reached(_, _, _, _) => None
  }

  /** The pattern is the whole message up to, not including, its first colon. */
  lemma ErrorPatternSpec(httpError: string, httpsError: string)
    ensures var error := if httpError != "" then httpError else httpsError;
      var r := ErrorPattern(httpError, httpsError);
      ((error == "" || error[0] == ':') ==> r == "Unknown Error")
      && (!(error == "" || error[0] == ':') ==>
            r != "" && ':' !in r && StartsWith(error, r) && (|r| == |error| || error[|r|] == ':'))
  {
    var error := if httpError != "" then httpError else httpsError;
    SplitHead(error, ':');
    if ':' in error {
      var i := IndexOf(error, ':');
      assert Split(error, ':')[0] == error[..i];
    }
  }

  // Property order of `Object.entries`: keys that are array indices (canonical
  // numerals below 2^32 - 1) come first in ascending numeric order, then the
  // other keys in insertion order.

  predicate IsIndexKey(k: string) {
    k != "" && AllDigits(k) && (k[0] != '0' || |k| == 1) && DigitsValue(k) < 0xFFFF_FFFF
  }

  predicate IsIndexEntry(e: (string, nat)) {
    IsIndexKey(e.0)
  }

  predicate IsNamedEntry(e: (string, nat)) {
    !IsIndexKey(e.0)
  }

  /** Sorting by descending `IndexRank` is sorting by ascending numeric key. */
  function IndexRank(e: (string, nat)): int {
    if AllDigits(e.0) then -(DigitsValue(e.0) as int) else 0
  }

  function CountRank(e: (string, nat)): int {
    e.1
  }

  function ObjectEntries(h: Entries<string>): Entries<string> {
    SortDesc(Filter(h, IsIndexEntry), IndexRank) + Filter(h, IsNamedEntry)
  }

  /** `Object.entries` lists every entry once, the index keys first in
      ascending order, the rest in insertion order. */
  lemma ObjectEntriesSpec(h: Entries<string>)
    ensures multiset(ObjectEntries(h)) == multiset(h)
    ensures var r := ObjectEntries(h);
      forall i, j :: 0 <= i < j < |r| ==>
        IsIndexEntry(r[j]) ==> IsIndexEntry(r[i]) && IndexRank(r[i]) >= IndexRank(r[j])
    ensures Filter(ObjectEntries(h), IsNamedEntry) == Filter(h, IsNamedEntry)
  {
    var a := SortDesc(Filter(h, IsIndexEntry), IndexRank);
    var b := Filter(h, IsNamedEntry);
    var r := a + b;
    SortDescSpec(Filter(h, IsIndexEntry), IndexRank);
    FilterPartition(h, IsIndexEntry, IsNamedEntry);
    forall x | x in a ensures IsIndexEntry(x) {
      assert x in multiset(Filter(h, IsIndexEntry));
    }
    forall i, j | 0 <= i < j < |r|
      ensures IsIndexEntry(r[j]) ==> IsIndexEntry(r[i]) && IndexRank(r[i]) >= IndexRank(r[j])
    {
      if j < |a| {
        assert r[i] == a[i] && r[j] == a[j];
      } else {
        assert r[j] in b;
      }
    }
    FilterConcat(a, b, IsNamedEntry);
    FilterNone(a, IsNamedEntry);
    FilterIdempotent(h, IsNamedEntry);
    assert [] + b == b;
  }

  /** `Object.entries(counts).sort((a, b) => b[1] - a[1]).slice(0, k)`. */
  function Ranked(h: Entries<string>, k: nat): Entries<string> {
    Take(SortDesc(ObjectEntries(h), CountRank), k)
  }

  predicate Listed(top: Entries<string>, key: string) {
    exists i :: 0 <= i < |top| && top[i].0 == key
  }

  /** The entries in ranked order, and what ranking keeps of the tally. */
  lemma SortedEntriesSpec(keys: seq<string>)
    ensures var s := SortDesc(ObjectEntries(Tally(keys)), CountRank);
      multiset(s) == multiset(Tally(keys)) && SortedDesc(s, CountRank) && DistinctKeys(s)
      && (forall i :: 0 <= i < |s| ==> s[i].1 == multiset(keys)[s[i].0] > 0)
  {
    var h := Tally(keys);
    TallySpec(keys);
    var o := ObjectEntries(h);
    ObjectEntriesSpec(h);
    var s := SortDesc(o, CountRank);
    SortDescSpec(o, CountRank);
    PermCounts(h, s);
  }

  /** A key that occurs is somewhere in the ranked entries. */
  lemma SortedEntriesComplete(keys: seq<string>, key: string) returns (j: nat)
    requires key in keys
    ensures var s := SortDesc(ObjectEntries(Tally(keys)), CountRank);
      j < |s| && s[j].0 == key && s[j].1 == multiset(keys)[key]
  {
    var h := Tally(keys);
    TallySpec(keys);
    var s := SortDesc(ObjectEntries(h), CountRank);
    SortedEntriesSpec(keys);
    CountOfPresent(h, key);
    var p :| 0 <= p < |h| && h[p].0 == key;
    CountOfEntry(h, p);
    assert h[p] in multiset(s);
    j :| 0 <= j < |s| && s[j] == h[p];
  }

  /** The ranked list of counted keys: at most `k` distinct keys, each with
      its number of occurrences, most frequent first; a key is left out only
      when `k` keys at least as frequent are listed. */
  lemma RankedSpec(keys: seq<string>, k: nat)
    ensures var top := Ranked(Tally(keys), k);
      |top| <= k && SortedDesc(top, CountRank) && DistinctKeys(top)
      && (forall i :: 0 <= i < |top| ==> top[i].1 == multiset(keys)[top[i].0] > 0)
      && (forall key :: key in keys && !Listed(top, key) ==>
            |top| == k && forall i :: 0 <= i < |top| ==> top[i].1 >= multiset(keys)[key])
  {
    var s := SortDesc(ObjectEntries(Tally(keys)), CountRank);
    SortedEntriesSpec(keys);
    var top := Take(s, k);
    assert forall i :: 0 <= i < |top| ==> top[i] == s[i];
    forall key | key in keys && !Listed(top, key)
      ensures |top| == k && forall i :: 0 <= i < |top| ==> top[i].1 >= multiset(keys)[key]
    {
      RankedOmits(keys, k, key);
    }
  }

  /** A key that occurs but is not among the top `k` is outranked by a full list. */
  lemma RankedOmits(keys: seq<string>, k: nat, key: string)
    requires key in keys && !Listed(Ranked(Tally(keys), k), key)
    ensures var top := Ranked(Tally(keys), k);
      |top| == k && forall i :: 0 <= i < |top| ==> top[i].1 >= multiset(keys)[key]
  {
    var s := SortDesc(ObjectEntries(Tally(keys)), CountRank);
    SortedEntriesSpec(keys);
    var top := Take(s, k);
    var j := SortedEntriesComplete(keys, key);
    assert forall i :: 0 <= i < |top| ==> top[i] == s[i];
    assert |top| <= j;
  }

  /** What `generateSummaryData` computes, before it is laid out as rows. */
  datatype Summary = Summary(
    totalRows: int,
    successful: nat,
    failed: nat,
    httpSuccess: nat,
    httpsSuccess: nat,
    avgResponseTime: nat,
    minResponseTime: nat,
    maxResponseTime: nat,
    statusCodes: Entries<string>,
    errorPatterns: Entries<string>,
    successSamples: seq<Outcome>,
    failureSamples: seq<Outcome>)

  function MinOrZero(xs: seq<nat>): nat {
    if xs == [] then 0 else Min(xs)
  }

  function MaxOrZero(xs: seq<nat>): nat {
    if xs == [] then 0 else Max(xs)
  }

  function SummaryOf(results: seq<Outcome>, totalRows: int): Summary {
    var times := Collect(results, ResponseTime);
    Summary(
      totalRows,
      Count(results, Succeeded),
      Count(results, FailedOutcome),
      Count(results, HttpSucceeded),
      Count(results, HttpsSucceeded),
      RoundedMean(times),
      MinOrZero(times),
      MaxOrZero(times),
      Ranked(Tally(Collect(results, StatusKey)), 10),
      Ranked(Tally(Collect(results, ErrorKey)), 5),
      Take(Filter(results, Succeeded), 10),
      Take(Filter(results, FailedOutcome), 10))
  }

  /** Counting one more result: the tally grows by that result's key, if it has one. */
  lemma CollectSnoc<K>(results: seq<Outcome>, i: nat, f: Outcome -> Option<K>)
    requires i < |results|
    ensures f(results[i]).None? ==> Tally(Collect(results[..i + 1], f)) == Tally(Collect(results[..i], f))
    ensures f(results[i]).Some? ==>
      Tally(Collect(results[..i + 1], f)) == Bump(Tally(Collect(results[..i], f)), f(results[i]).value)
  {
    var keys := Collect(results[..i], f);
    assert results[..i + 1][..i] == results[..i];
    if f(results[i]).Some? {
      var k := f(results[i]).value;
      assert Collect(results[..i + 1], f) == keys + [k];
      assert (keys + [k])[..|keys|] == keys;
    } else {
      assert Collect(results[..i + 1], f) == keys + [];
      assert keys + [] == keys;
    }
  }

  /** The `forEach` that counts status codes. */
  method CountStatusCodes(results: seq<Outcome>) returns (counts: Entries<string>)
    ensures counts == Tally(Collect(results, StatusKey))
  {
    counts := [];
    for i := 0 to |results|
      invariant counts == Tally(Collect(results[..i], StatusKey))
    {
      CollectSnoc(results, i, StatusKey);
      var o := results[i];
      if o.finalResult.Reached? && o.finalResult.statusCode != 0 {
        counts := Bump(counts, NatToString(o.finalResult.statusCode));
      }
    }
    assert results[..|results|] == results;
  }

  /** The `forEach` that counts error patterns. */
  method CountErrorPatterns(results: seq<Outcome>) returns (counts: Entries<string>)
    ensures counts == Tally(Collect(results, ErrorKey))
  {
    counts := [];
    for i := 0 to |results|
      invariant counts == Tally(Collect(results[..i], ErrorKey))
    {
      CollectSnoc(results, i, ErrorKey);
      var o := results[i];
      if !o.finalResult.Reached? {
        counts := Bump(counts, ErrorPattern(o.finalResult.httpError, o.finalResult.httpsError));
      }
    }
    assert results[..|results|] == results;
  }

  /** `generateSummaryData(results, totalRows)`. */
  method GenerateSummary(results: seq<Outcome>, totalRows: int) returns (s: Summary)
    ensures s == SummaryOf(results, totalRows)
  {
    var statusCodes := CountStatusCodes(results);
    var errorPatterns := CountErrorPatterns(results);
    var times := Collect(results, ResponseTime);
    var avg := 0;
    var lo := 0;
    var hi := 0;
    if |times| > 0 {
      avg := RoundedMean(times);
      lo := Min(times);
      hi := Max(times);
    }
    s := Summary(
      totalRows,
      Count(results, Succeeded),
      Count(results, FailedOutcome),
      Count(results, HttpSucceeded),
      Count(results, HttpsSucceeded),
      avg, lo, hi,
      Ranked(statusCodes, 10),
      Ranked(errorPatterns, 5),
      Take(Filter(results, Succeeded), 10),
      Take(Filter(results, FailedOutcome), 10));
  }

  lemma {:induction false} SuccessByProtocol(results: seq<Outcome>)
    ensures Count(results, Succeeded) == Count(results, HttpSucceeded) + Count(results, HttpsSucceeded)
    decreases |results|
  {
    if results != [] {
      SuccessByProtocol(results[..|results| - 1]);
    }
  }

  /** Every result is a success or a failure, and every success was over
      exactly one of the two protocols. */
  lemma SummaryCounts(results: seq<Outcome>, totalRows: int)
    ensures var s := SummaryOf(results, totalRows);
      s.successful + s.failed == |results| && s.httpSuccess + s.httpsSuccess == s.successful
  {
    CountComplement(results, Succeeded, FailedOutcome);
    SuccessByProtocol(results);
  }

  /** The response-time figures: all 0 when no success reported a time;
      otherwise the least and greatest reported times, with the rounded mean
      between them. */
  lemma SummaryTimes(results: seq<Outcome>, totalRows: int)
    ensures var s := SummaryOf(results, totalRows);
      var times := Collect(results, ResponseTime);
      (times == [] ==> s.avgResponseTime == s.minResponseTime == s.maxResponseTime == 0)
      && (times != [] ==>
            s.minResponseTime in times && s.maxResponseTime in times
            && (forall i :: 0 <= i < |times| ==> s.minResponseTime <= times[i] <= s.maxResponseTime)
            && s.minResponseTime <= s.avgResponseTime <= s.maxResponseTime)
  {
    TimeFigures(Collect(results, ResponseTime));
  }

  /** The three figures of a list of times. */
  lemma TimeFigures(times: seq<nat>)
    ensures times == [] ==> RoundedMean(times) == MinOrZero(times) == MaxOrZero(times) == 0
    ensures times != [] ==>
      MinOrZero(times) in times && MaxOrZero(times) in times
      && (forall i :: 0 <= i < |times| ==> MinOrZero(times) <= times[i] <= MaxOrZero(times))
      && MinOrZero(times) <= RoundedMean(times) <= MaxOrZero(times)
  {
    if times != [] {
      MinMaxSpec(times);
      MeanBetweenMinMax(times);
    }
  }

  predicate HasStatusCode(o: Outcome) {
    o.finalResult.Reached? && o.finalResult.statusCode != 0
  }

  /** The status-code and error-pattern tables: each lists distinct keys with
      their exact counts, most frequent first, cut at 10 and 5 entries; the
      status counts add up to the successes with a status code and the error
      counts to the failures. */
  lemma SummaryDistributions(results: seq<Outcome>, totalRows: int)
    ensures var s := SummaryOf(results, totalRows);
      var codes := Collect(results, StatusKey);
      var errors := Collect(results, ErrorKey);
      s.statusCodes == Ranked(Tally(codes), 10) && s.errorPatterns == Ranked(Tally(errors), 5)
      && Total(Tally(codes)) == Count(results, HasStatusCode)
      && Total(Tally(errors)) == s.failed
  {
    TallySpec(Collect(results, StatusKey));
    TallySpec(Collect(results, ErrorKey));
    CollectCount(results, StatusKey, HasStatusCode);
    CollectCount(results, ErrorKey, FailedOutcome);
  }

  /** The samples are the first successes and failures, at most ten of each:
      the successes (failures) among the first `j` results, in result order,
      where the first `j` results hold ten of them or are all the results. */
  lemma SummarySamples(results: seq<Outcome>, totalRows: int) returns (js: nat, jf: nat)
    ensures var s := SummaryOf(results, totalRows);
      |s.successSamples| == (if s.successful < 10 then s.successful else 10)
      && |s.failureSamples| == (if s.failed < 10 then s.failed else 10)
      && (forall o :: o in s.successSamples ==> o in results && Succeeded(o))
      && (forall o :: o in s.failureSamples ==> o in results && FailedOutcome(o))
    ensures var s := SummaryOf(results, totalRows);
      js <= |results| && s.successSamples == Filter(results[..js], Succeeded)
      && (|s.successSamples| == 10 || js == |results|)
    ensures var s := SummaryOf(results, totalRows);
      jf <= |results| && s.failureSamples == Filter(results[..jf], FailedOutcome)
      && (|s.failureSamples| == 10 || jf == |results|)
  {
    js := TakeFilterPrefix(results, Succeeded, 10);
    jf := TakeFilterPrefix(results, FailedOutcome, 10);
  }

  lemma CountsPerm(a: seq<Outcome>, b: seq<Outcome>, totalRows: int)
    requires multiset(a) == multiset(b)
    ensures var s, t := SummaryOf(a, totalRows), SummaryOf(b, totalRows);
      s.successful == t.successful && s.failed == t.failed
      && s.httpSuccess == t.httpSuccess && s.httpsSuccess == t.httpsSuccess
  {
    CountPerm(a, b, Succeeded);
    CountPerm(a, b, FailedOutcome);
    CountPerm(a, b, HttpSucceeded);
    CountPerm(a, b, HttpsSucceeded);
  }

  lemma TimesPerm(a: seq<Outcome>, b: seq<Outcome>, totalRows: int)
    requires multiset(a) == multiset(b)
    ensures var s, t := SummaryOf(a, totalRows), SummaryOf(b, totalRows);
      s.avgResponseTime == t.avgResponseTime
      && s.minResponseTime == t.minResponseTime && s.maxResponseTime == t.maxResponseTime
  {
    CollectPerm(a, b, ResponseTime);
    StatsPerm(Collect(a, ResponseTime), Collect(b, ResponseTime));
  }

  lemma StatsPerm(ta: seq<nat>, tb: seq<nat>)
    requires multiset(ta) == multiset(tb)
    ensures RoundedMean(ta) == RoundedMean(tb)
    ensures MinOrZero(ta) == MinOrZero(tb) && MaxOrZero(ta) == MaxOrZero(tb)
  {
    SumPerm(ta, tb);
    assert |ta| == |multiset(ta)| == |multiset(tb)| == |tb|;
    if ta != [] {
      MinMaxPerm(ta, tb);
    }
  }

  /** The count of every status code or error pattern does not depend on
      the order of the results. */
  lemma KeysPerm<K>(a: seq<Outcome>, b: seq<Outcome>, f: Outcome -> Option<K>)
    requires multiset(a) == multiset(b)
    ensures forall key :: CountOf(Tally(Collect(a, f)), key) == CountOf(Tally(Collect(b, f)), key)
  {
    CollectPerm(a, b, f);
    TallyPerm(Collect(a, f), Collect(b, f));
  }

  /** The counts and the response-time figures do not depend on the order
      the results arrived in (the key counts behind the tables do not either,
      by `KeysPerm`; only the order of entries with equal counts and the
      samples can differ). */
  lemma SummaryPerm(a: seq<Outcome>, b: seq<Outcome>, totalRows: int)
    requires multiset(a) == multiset(b)
    ensures var s, t := SummaryOf(a, totalRows), SummaryOf(b, totalRows);
      s.successful == t.successful && s.failed == t.failed
      && s.httpSuccess == t.httpSuccess && s.httpsSuccess == t.httpsSuccess
      && s.avgResponseTime == t.avgResponseTime
      && s.minResponseTime == t.minResponseTime && s.maxResponseTime == t.maxResponseTime
  {
    CountsPerm(a, b, totalRows);
    TimesPerm(a, b, totalRows);
  }
}
