/** The three reductions of a trace list (internal/traffic/store.go): metrics, display rows and the
    minute series.  Each is written on its own in the code; here they are proved to count the same
    effective requests.  The specifications read the list newest first, as the code does. */
module TraceReductions {
  import opened Traces
  import opened TraceLog
  import opened TraceGroups

  predicate IsFailure(t: Trace) {
    t.status == 0 || t.status >= 400 || t.error != ""
  }

  /** How a trace is counted. */
  datatype Event = Folded(key: string) | Repeated(key: string) | LoneFailure | Success

  datatype Kind = AFold | ARepeat | ALoneFailure | ASuccess

  function KindOf(e: Event): Kind {
    match e
    case Folded(_) => AFold
    case Repeated(_) => ARepeat
    case LoneFailure => ALoneFailure
    case Success => ASuccess
  }

  ghost function EventOf(g: Grouping, t: Trace): Event {
    if Folds(g, t) then Folded(FoldKey(g, t))
    else if IsFailure(t) then if FailureKey(g, t) == "" then LoneFailure else Repeated(FailureKey(g, t))
    else Success
  }

  function Newest(s: Log): (r: Log)
    ensures |r| == |s| && forall i :: 0 <= i < |s| ==> r[i] == s[|s| - 1 - i]
  {
    seq(|s|, i requires 0 <= i < |s| => s[|s| - 1 - i])
  }

  // ----- counting effective requests -----

  ghost function Count(g: Grouping, L: Log, kind: Kind): nat {
    if L == [] then 0
    else Count(g, L[..|L| - 1], kind) + (if KindOf(EventOf(g, L[|L| - 1])) == kind then 1 else 0)
  }

  /** The keys under which failures are grouped. */
  ghost function FailureKeys(g: Grouping, L: Log): set<string> {
    if L == [] then {}
    else
      var e := EventOf(g, L[|L| - 1]);
      FailureKeys(g, L[..|L| - 1]) + (if e.Repeated? then {e.key} else {})
  }

  /** Failures that stand alone, and one for every group of repeated ones. */
  ghost function Failures(g: Grouping, L: Log): nat {
    Count(g, L, ALoneFailure) + |FailureKeys(g, L)|
  }

  ghost function Requests(g: Grouping, L: Log): nat {
    Count(g, L, ASuccess) + Failures(g, L)
  }

  /** Bytes of the traces that are not folded. */
  ghost function Bytes(g: Grouping, L: Log, sent: bool): int {
    if L == [] then 0
    else
      var t := L[|L| - 1];
      Bytes(g, L[..|L| - 1], sent) +
      (if EventOf(g, t).Folded? then 0 else if sent then t.requestBytes else t.responseBytes)
  }

  /** The positive latencies of the successes. */
  ghost function Latencies(g: Grouping, L: Log): seq<int> {
    if L == [] then []
    else
      var t := L[|L| - 1];
      Latencies(g, L[..|L| - 1]) + (if EventOf(g, t).Success? && t.latencyMS > 0 then [t.latencyMS] else [])
  }

  function Total(xs: seq<int>): int {
    if xs == [] then 0 else Total(xs[..|xs| - 1]) + xs[|xs| - 1]
  }

  function Average(xs: seq<int>): int {
    if xs == [] then 0 else Total(xs) / |xs|
  }

  method AverageOf(xs: seq<int>) returns (average: int)
    ensures average == Average(xs)
  {
    if xs == [] {
      return 0;
    }
    var sum := 0;
    for i := 0 to |xs|
      invariant sum == Total(xs[..i])
    {
      assert xs[..i + 1][..i] == xs[..i];
      sum := sum + xs[i];
    }
    assert xs[..|xs|] == xs;
    return sum / |xs|;
  }

  // ----- metrics -----

  datatype Metrics = Metrics(
    requests: int, success: int, failures: int, rawRequests: int, rawFailures: int, ignoredSuccess: int,
    requestBytes: int, responseBytes: int, activeTunnels: int, avgLatencyMS: int)

  ghost predicate Measures(g: Grouping, L: Log, m: Metrics) {
    m.rawRequests == |L| &&
    m.ignoredSuccess == Count(g, L, AFold) &&
    m.rawFailures == Count(g, L, ALoneFailure) + Count(g, L, ARepeat) &&
    m.success == Count(g, L, ASuccess) &&
    m.failures == Failures(g, L) &&
    m.requests == Requests(g, L) &&
    m.requestBytes == Bytes(g, L, true) && m.responseBytes == Bytes(g, L, false)
  }

  lemma CountSnoc(g: Grouping, L: Log, t: Trace)
    ensures forall kind ::
              Count(g, L + [t], kind) == Count(g, L, kind) + (if KindOf(EventOf(g, t)) == kind then 1 else 0)
  {
    assert (L + [t])[..|L|] == L;
  }

  lemma KeysSnoc(g: Grouping, L: Log, t: Trace)
    ensures FailureKeys(g, L + [t])
         == FailureKeys(g, L) + (if EventOf(g, t).Repeated? then {EventOf(g, t).key} else {})
  {
    assert (L + [t])[..|L|] == L;
  }

  lemma BytesSnoc(g: Grouping, L: Log, t: Trace)
    ensures Bytes(g, L + [t], true) == Bytes(g, L, true) + (if EventOf(g, t).Folded? then 0 else t.requestBytes)
    ensures Bytes(g, L + [t], false) == Bytes(g, L, false) + (if EventOf(g, t).Folded? then 0 else t.responseBytes)
  {
    assert (L + [t])[..|L|] == L;
  }

  lemma LatenciesSnoc(g: Grouping, L: Log, t: Trace)
    ensures Latencies(g, L + [t])
         == Latencies(g, L) + (if EventOf(g, t).Success? && t.latencyMS > 0 then [t.latencyMS] else [])
  {
    assert (L + [t])[..|L|] == L;
  }

  /** What one more trace adds to the failures and to the requests. */
  ghost predicate IsFirst(g: Grouping, L: Log, t: Trace) {
    var e := EventOf(g, t);
    e.LoneFailure? || (e.Repeated? && e.key !in FailureKeys(g, L))
  }

  lemma FailuresSnoc(g: Grouping, L: Log, t: Trace)
    ensures Failures(g, L + [t]) == Failures(g, L) + (if IsFirst(g, L, t) then 1 else 0)
    ensures Requests(g, L + [t]) == Requests(g, L) + (if EventOf(g, t).Success? || IsFirst(g, L, t) then 1 else 0)
  {
    CountSnoc(g, L, t);
    KeysSnoc(g, L, t);
    var e := EventOf(g, t);
    if e.Repeated? && e.key in FailureKeys(g, L) {
      assert FailureKeys(g, L) + {e.key} == FailureKeys(g, L);
    }
  }

  /** metricsLocked, from the newest trace to the oldest. */
  method MetricsOf(g: Grouping, traces: Log, activeTunnels: int) returns (m: Metrics)
    ensures Measures(g, Newest(traces), m)
    ensures m.activeTunnels == activeTunnels && m.avgLatencyMS == Average(Latencies(g, Newest(traces)))
  {
    ghost var L := Newest(traces);
    m := Metrics(0, 0, 0, 0, 0, 0, 0, 0, activeTunnels, 0);
    var latencies: seq<int> := [];
    var seen: set<string> := {};
    var i := |traces| - 1;
    while i >= 0
      invariant -1 <= i < |traces| && m.activeTunnels == activeTunnels
      invariant Measures(g, L[..|traces| - 1 - i], m)
      invariant seen == FailureKeys(g, L[..|traces| - 1 - i])
      invariant latencies == Latencies(g, L[..|traces| - 1 - i])
    {
      var t := traces[i];
      ghost var P := L[..|traces| - 1 - i];
      assert L[..|traces| - i] == P + [t];
      LatenciesSnoc(g, P, t);
      KeysSnoc(g, P, t);
      m, seen, latencies := Measured(g, t, m, seen, latencies, P);
      i := i - 1;
    }
    assert L[..|traces|] == L;
    var average := AverageOf(latencies);
    m := m.(avgLatencyMS := average);
  }

  /** The body of its loop. */
  method Measured(g: Grouping, t: Trace, before: Metrics, seen: set<string>, latencies: seq<int>, ghost P: Log)
    returns (m: Metrics, seen': set<string>, latencies': seq<int>)
    requires Measures(g, P, before) && seen == FailureKeys(g, P)
    ensures Measures(g, P + [t], m) && m.activeTunnels == before.activeTunnels
    ensures seen' == seen + (if EventOf(g, t).Repeated? then {EventOf(g, t).key} else {})
    ensures latencies' == latencies + (if EventOf(g, t).Success? && t.latencyMS > 0 then [t.latencyMS] else [])
  {
    CountSnoc(g, P, t);
    BytesSnoc(g, P, t);
    FailuresSnoc(g, P, t);
    m, seen', latencies' := before.(rawRequests := before.rawRequests + 1), seen, latencies;
    var foldKey, foldTarget, folded := SuccessFoldGroup(g, t);
    if folded {
      m := m.(ignoredSuccess := m.ignoredSuccess + 1);
      return;
    }
    if IsFailure(t) {
      m := m.(rawFailures := m.rawFailures + 1);
      var key := FailureGroupKey(g, t);
      if key != "" {
        if key in seen {
          m := m.(requestBytes := m.requestBytes + t.requestBytes, responseBytes := m.responseBytes + t.responseBytes);
          return;
        }
        seen' := seen + {key};
      }
      m := m.(requests := m.requests + 1, failures := m.failures + 1);
    } else {
      m := m.(requests := m.requests + 1, success := m.success + 1);
      if t.latencyMS > 0 {
        latencies' := latencies + [t.latencyMS];
      }
    }
    m := m.(requestBytes := m.requestBytes + t.requestBytes, responseBytes := m.responseBytes + t.responseBytes);
  }

  /** Every trace is a folded success, a failure or a counted success. */
  lemma {:induction false} KindsPartition(g: Grouping, L: Log)
    ensures |L| == Count(g, L, AFold) + (Count(g, L, ALoneFailure) + Count(g, L, ARepeat)) + Count(g, L, ASuccess)
  {
    if L != [] {
      KindsPartition(g, L[..|L| - 1]);
    }
  }

  lemma RawRequestsPartition(g: Grouping, L: Log, m: Metrics)
    requires Measures(g, L, m)
    ensures m.rawRequests == m.ignoredSuccess + m.rawFailures + m.success
    ensures m.requests == m.success + m.failures && m.failures <= m.rawFailures
  {
    KindsPartition(g, L);
    FewerKeysThanFailures(g, L);
  }

  lemma {:induction false} FewerKeysThanFailures(g: Grouping, L: Log)
    ensures |FailureKeys(g, L)| <= Count(g, L, ARepeat)
  {
    if L != [] {
      FewerKeysThanFailures(g, L[..|L| - 1]);
    }
  }
}
