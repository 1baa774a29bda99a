/**
 * The per-domain task of index.js: probe over HTTP, and only when that fails
 * over HTTPS; record the outcome, count the requests made, write a status
 * record for the desktop front end and log progress. The tasks run one after
 * another here; the concurrency limit of the source is not modelled.
 */
module Fallback {
  import opened Wrappers
  import opened Strings
  import opened Domain
  import opened Probe

  /** An extracted domain: the cell text, its normalised form and its row. */
  datatype Candidate = Candidate(original: string, normalized: string, rowIndex: nat)

  /** `finalResult`. */
  datatype Final =
    | Reached(protocol: Protocol, statusCode: nat, responseTime: nat, url: string)
    | Unreachable(httpError: string, httpsError: string, url: string)

  /** The `result` object a task pushes. */
  datatype Outcome = Outcome(
    original: string,
    normalized: string,
    rowIndex: nat,
    httpResult: Attempt,
    httpsResult: Option<Attempt>,
    finalResult: Final)

  /** The record written after `DOMAIN_RESULT:` for the desktop front end. */
  datatype StatusRecord = StatusRecord(
    index: nat,
    url: string,
    httpStatus: string,
    httpsStatus: string,
    responseTime: Option<nat>,
    finalStatus: string)

  /** The task body, as a value: `None` when building the HTTP URL gives
      `null`, since `testUrl(null)` then throws and the whole run rejects. */
  function Resolve(d: Candidate, probe: Prober): Option<Outcome> {
    var httpUrl := BuildUrl(d.normalized, Http);
    if httpUrl.None? then None
    else
      var h := TestUrl(httpUrl.value, probe);
      if h.Success? then
        Some(Outcome(d.original, d.normalized, d.rowIndex, h, None,
                     Reached(Http, h.statusCode, h.responseTime, httpUrl.value)))
      else
        var httpsUrl := BuildUrl(d.normalized, Https);
        assert httpsUrl.Some?;
        var s := TestUrl(httpsUrl.value, probe);
        Some(Outcome(d.original, d.normalized, d.rowIndex, h, Some(s),
                     if s.Success? then Reached(Https, s.statusCode, s.responseTime, httpsUrl.value)
                     else Unreachable(h.error, s.error, d.normalized)))
  }

  /** The URLs the task hands to the prober, in order. */
  function Probed(d: Candidate, probe: Prober): seq<string> {
    var httpUrl := BuildUrl(d.normalized, Http);
    if httpUrl.None? then []
    else if TestUrl(httpUrl.value, probe).Success? then [httpUrl.value]
    else [httpUrl.value, BuildUrl(d.normalized, Https).value]
  }

  /** How much the task adds to `completedCount`. */
  function Steps(o: Outcome): nat {
    if o.httpsResult.None? then 1 else 2
  }

  /** The fallback rule: HTTPS is probed exactly when HTTP failed, once, and
      the final result is HTTP's success, else HTTPS's success, else a
      failure carrying both error messages and the bare host. */
  lemma ResolveSpec(d: Candidate, probe: Prober)
    ensures Resolve(d, probe).None? <==> Normalize(d.normalized).None?
    ensures Resolve(d, probe).None? <==> Probed(d, probe) == []
    ensures Resolve(d, probe).Some? ==>
      var o := Resolve(d, probe).value;
      var httpUrl := BuildUrl(d.normalized, Http).value;
      var httpsUrl := BuildUrl(d.normalized, Https).value;
      && o.original == d.original && o.normalized == d.normalized && o.rowIndex == d.rowIndex
      && o.httpResult == TestUrl(httpUrl, probe)
      && o.httpResult.protocol == Http
      && |Probed(d, probe)| == Steps(o)
      && Probed(d, probe)[0] == httpUrl
      && (o.httpResult.Success? <==> o.httpsResult.None?)
      && (o.httpResult.Success? ==>
            o.finalResult == Reached(Http, o.httpResult.statusCode, o.httpResult.responseTime, httpUrl))
      && (o.httpsResult.Some? ==>
            o.httpsResult.value == TestUrl(httpsUrl, probe) && o.httpsResult.value.protocol == Https
            && Probed(d, probe)[1] == httpsUrl)
      && (o.httpsResult.Some? && o.httpsResult.value.Success? ==>
            o.finalResult == Reached(Https, o.httpsResult.value.statusCode,
                                     o.httpsResult.value.responseTime, httpsUrl))
      && (o.finalResult.Unreachable? <==>
            o.httpResult.Failure? && o.httpsResult.Some? && o.httpsResult.value.Failure?)
      && (o.finalResult.Unreachable? ==>
            o.finalResult == Unreachable(o.httpResult.error, o.httpsResult.value.error, d.normalized))
  {
    if Resolve(d, probe).Some? {
      BuiltUrlProtocol(d.normalized, Http);
      BuiltUrlProtocol(d.normalized, Https);
    }
  }

  /** The record of index.js:439-446. `httpsStatus` is `https-failed` also
      when HTTPS was never tried. */
  function StatusRecordOf(index: nat, o: Outcome): StatusRecord {
    StatusRecord(
      index,
      o.normalized,
      if o.httpResult.Success? then "http-success" else "http-failed",
      if o.httpsResult.Some? && o.httpsResult.value.Success? then "https-success" else "https-failed",
      if o.finalResult.Reached? then Some(o.finalResult.responseTime) else None,
      if o.finalResult.Reached? then "success" else "failed")
  }

  /** For the outcome of a task, the record says `success` exactly when a
      protocol succeeded, and `failed` only when both protocols failed. */
  lemma StatusRecordSpec(index: nat, d: Candidate, probe: Prober)
    requires Resolve(d, probe).Some?
    ensures var o := Resolve(d, probe).value; var r := StatusRecordOf(index, o);
      && r.index == index && r.url == d.normalized
      && (r.finalStatus == "success" <==> r.httpStatus == "http-success" || r.httpsStatus == "https-success")
      && (r.finalStatus == "failed" <==> r.httpStatus == "http-failed" && r.httpsStatus == "https-failed")
      && (r.httpStatus == "http-success" ==> r.httpsStatus == "https-failed")
      && (r.responseTime.Some? <==> r.finalStatus == "success")
  {
  }

  /** The requests made for a sequence of outcomes. */
  function TotalSteps(os: seq<Outcome>): nat {
    if os == [] then 0 else TotalSteps(os[..|os| - 1]) + Steps(os[|os| - 1])
  }

  predicate HttpFailed(o: Outcome) {
    o.httpsResult.Some?
  }

  /** Each outcome counts one or two requests; two for all of them exactly
      when every HTTP probe failed. */
  lemma {:induction false} TotalStepsBounds(os: seq<Outcome>)
    ensures |os| <= TotalSteps(os) <= 2 * |os|
    ensures TotalSteps(os) == 2 * |os| <==> forall i :: 0 <= i < |os| ==> HttpFailed(os[i])
    decreases |os|
  {
    if os != [] {
      var init := os[..|os| - 1];
      TotalStepsBounds(init);
      assert forall i :: 0 <= i < |init| ==> init[i] == os[i];
    }
  }

  /** The progress line logged after a task (index.js:468); the percentage
      and the speed are floating-point strings and stay parameters. */
  function ProgressLine(completed: nat, total: nat, percentage: string, speed: string): string {
    "진행률: " + NatToString(completed) + "/" + NatToString(total)
      + " (" + percentage + "%) - 속도: " + speed + " req/s"
  }

  /** After a task, a progress line is logged when the new count is a
      multiple of 5 or equals `totalRequests`, twice the number of domains.
      The test runs once per task, after both of its increments, so a count a
      two-request task steps over is never logged, and the final count is
      logged only when it is a multiple of 5 or every HTTP attempt failed. */
  predicate LogsProgress(completed: nat, total: nat) {
    completed % 5 == 0 || completed == total
  }

  predicate Increasing(xs: seq<nat>) {
    forall i, j :: 0 <= i < j < |xs| ==> xs[i] < xs[j]
  }

  /** What holds of a run at every point between tasks: the count is the
      requests made, one record per result, and the progress lines report
      increasing counts, each a multiple of 5 or the total. */
  predicate RunInvariant(results: seq<Outcome>, completed: nat, requested: nat, records: nat,
                         progress: seq<nat>, total: nat)
  {
    && completed == TotalSteps(results) == requested
    && records == |results|
    && Increasing(progress)
    && (forall i :: 0 <= i < |progress| ==> progress[i] <= completed)
    && (forall i :: 0 <= i < |progress| ==> LogsProgress(progress[i], total))
  }

  /** A finished task keeps the invariant. */
  lemma RunInvariantStep(results: seq<Outcome>, completed: nat, requested: nat, records: nat,
                         progress: seq<nat>, total: nat, o: Outcome)
    requires RunInvariant(results, completed, requested, records, progress, total)
    ensures var c := completed + Steps(o);
      RunInvariant(results + [o], c, requested + Steps(o), records + 1,
                   progress + (if LogsProgress(c, total) then [c] else []), total)
  {
    assert (results + [o])[..|results|] == results;
  }

  /** A single domain whose HTTP probe succeeds ends the run at count 1 of
      `totalRequests` 2, which is neither a multiple of 5 nor the total, so
      that run logs no progress line at all. */
  lemma SingleReachedUnlogged(d: Candidate, probe: Prober)
    requires Resolve(d, probe).Some? && !HttpFailed(Resolve(d, probe).value)
    ensures Steps(Resolve(d, probe).value) == 1
    ensures !LogsProgress(Steps(Resolve(d, probe).value), 2 * 1)
  {
  }

  /** One request per protocol tried. */
  lemma ProbedSteps(d: Candidate, probe: Prober)
    requires Resolve(d, probe).Some?
    ensures |Probed(d, probe)| == Steps(Resolve(d, probe).value)
  {
  }

  /** The shared state of a run: the results pushed, `completedCount`, and
      what the tasks wrote: the URLs probed, the status records and the
      counts of the progress lines. */
  class Run {
    var results: seq<Outcome>
    var completedCount: nat
    var requested: seq<string>
    var records: seq<StatusRecord>
    var progress: seq<nat>
    const totalRequests: nat

    /** A run over `domainCount` domains expects two requests per domain. */
    constructor(domainCount: nat)
      ensures results == [] && completedCount == 0 && requested == []
      ensures records == [] && progress == []
      ensures totalRequests == 2 * domainCount
    {
      results := [];
      completedCount := 0;
      requested := [];
      records := [];
      progress := [];
      totalRequests := 2 * domainCount;
    }

    /** What every state of a run satisfies. */
    predicate Valid()
      reads this
    {
      RunInvariant(results, completedCount, |requested|, |records|, progress, totalRequests)
    }

    /** One task (index.js:389-473). `ok` is false when `testUrl(null)`
        would throw; nothing is changed then. */
    method RunTask(domainIndex: nat, d: Candidate, probe: Prober) returns (ok: bool)
      requires Valid()
      modifies this
      ensures Valid()
      ensures ok <==> Resolve(d, probe).Some?
      ensures !ok ==> unchanged(this)
      ensures ok ==>
        var o := Resolve(d, probe).value;
        && results == old(results) + [o]
        && completedCount == old(completedCount) + Steps(o)
        && requested == old(requested) + Probed(d, probe)
        && records == old(records) + [StatusRecordOf(domainIndex, o)]
        && progress == old(progress)
             + (if LogsProgress(completedCount, totalRequests) then [completedCount] else [])
    {
      var httpUrl := BuildUrl(d.normalized, Http);
      if httpUrl.None? {
        return false;
      }
      var o, urls := ProbeDomain(d, probe, httpUrl.value);
      ProbedSteps(d, probe);
      Commit(domainIndex, o, urls);
      ok := true;
    }

    /** The bookkeeping after the probes of a task: `completedCount` goes up
        by one per request, the status record is written, a progress line is
        logged when due, and the result is pushed. */
    method Commit(domainIndex: nat, o: Outcome, urls: seq<string>)
      requires Valid() && |urls| == Steps(o)
      modifies this
      ensures Valid()
      ensures results == old(results) + [o]
      ensures completedCount == old(completedCount) + |urls|
      ensures requested == old(requested) + urls
      ensures records == old(records) + [StatusRecordOf(domainIndex, o)]
      ensures progress == old(progress)
        + (if LogsProgress(completedCount, totalRequests) then [completedCount] else [])
    {
      RunInvariantStep(results, completedCount, |requested|, |records|, progress, totalRequests, o);
      requested := requested + urls;
      completedCount := completedCount + |urls|;
      records := records + [StatusRecordOf(domainIndex, o)];
      if LogsProgress(completedCount, totalRequests) {
        progress := progress + [completedCount];
      }
      results := results + [o];
    }
  }

  /** The probes of one task: HTTP first, HTTPS only after HTTP failed. */
  method ProbeDomain(d: Candidate, probe: Prober, httpUrl: string) returns (o: Outcome, urls: seq<string>)
    requires BuildUrl(d.normalized, Http) == Some(httpUrl)
    ensures Resolve(d, probe) == Some(o)
    ensures urls == Probed(d, probe)
  {
    var httpResult := TestUrl(httpUrl, probe);
    urls := [httpUrl];
    var httpsResult: Option<Attempt> := None;
    var finalResult: Final;
    if httpResult.Success? {
      finalResult := Reached(Http, httpResult.statusCode, httpResult.responseTime, httpUrl);
    } else {
      var httpsUrl := BuildUrl(d.normalized, Https);
      var s := TestUrl(httpsUrl.value, probe);
      httpsResult := Some(s);
      urls := urls + [httpsUrl.value];
      if s.Success? {
        finalResult := Reached(Https, s.statusCode, s.responseTime, httpsUrl.value);
      } else {
        finalResult := Unreachable(httpResult.error, s.error, d.normalized);
      }
    }
    o := Outcome(d.original, d.normalized, d.rowIndex, httpResult, httpsResult, finalResult);
  }

  /** The whole batch, one task after another; it stops at the first task
      that throws, as `Promise.all` rejects and the process exits. */
  method ProbeAll(domains: seq<Candidate>, probe: Prober) returns (run: Run, ok: bool)
    ensures fresh(run) && run.Valid()
    ensures run.totalRequests == 2 * |domains|
    ensures ok <==> forall i :: 0 <= i < |domains| ==> Resolve(domains[i], probe).Some?
    ensures ok ==> |run.results| == |domains|
    ensures |run.results| <= |domains|
    ensures forall i :: 0 <= i < |run.results| ==>
      Resolve(domains[i], probe) == Some(run.results[i])
      && run.records[i] == StatusRecordOf(i, run.results[i])
    ensures ok ==> |domains| <= run.completedCount <= 2 * |domains|
    ensures ok ==> (run.completedCount == run.totalRequests <==>
                    forall i :: 0 <= i < |run.results| ==> HttpFailed(run.results[i]))
  {
    run := new Run(|domains|);
    var i := 0;
    ok := true;
    while i < |domains|
      invariant 0 <= i <= |domains|
      invariant fresh(run)
      invariant run.Valid() && run.totalRequests == 2 * |domains|
      invariant |run.results| == i
      invariant forall k :: 0 <= k < i ==> Resolve(domains[k], probe).Some?
      invariant forall k :: 0 <= k < i ==>
        Resolve(domains[k], probe) == Some(run.results[k])
        && run.records[k] == StatusRecordOf(k, run.results[k])
    {
      var before := run.results;
      var beforeRecords := run.records;
      var taskOk := run.RunTask(i, domains[i], probe);
      if !taskOk {
        assert Resolve(domains[i], probe).None?;
        ok := false;
        break;
      }
      assert run.results == before + [run.results[i]];
      assert run.records == beforeRecords + [StatusRecordOf(i, run.results[i])];
      assert Resolve(domains[i], probe) == Some(run.results[i]);
      forall k | 0 <= k < i + 1
        ensures Resolve(domains[k], probe) == Some(run.results[k])
        ensures run.records[k] == StatusRecordOf(k, run.results[k])
      {
        if k < i {
          assert run.results[k] == before[k] && run.records[k] == beforeRecords[k];
        }
      }
      i := i + 1;
    }
    TotalStepsBounds(run.results);
  }
}
