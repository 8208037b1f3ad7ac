/** The minute series of the last 24 hours (internal/traffic/store.go, buildSeries). */
module TraceSeries {
  import opened Traces
  import opened TraceLog
  import opened TraceGroups
  import opened TraceReductions
  import opened Ordering

  const MINUTE := 60_000_000_000

  function MinuteOf(t: int): int {
    t / MINUTE * MINUTE
  }

  datatype Bucket = Bucket(time: int, requests: int, failures: int, avgLatencyMS: int)

  /** The traces whose minute is not before the cutoff. */
  function Since(L: Log, cutoff: int): Log {
    if L == [] then []
    else
      var t := L[|L| - 1];
      Since(L[..|L| - 1], cutoff) + (if MinuteOf(t.timestamp) >= cutoff then [t] else [])
  }

  // ----- what a bucket holds -----

  /** The minutes in which something happened that was not folded. */
  ghost function Minutes(g: Grouping, L: Log): set<int> {
    if L == [] then {}
    else
      var t := L[|L| - 1];
      Minutes(g, L[..|L| - 1]) + (if EventOf(g, t).Folded? then {} else {MinuteOf(t.timestamp)})
  }

  /** Effective requests of a minute: successes, lone failures, and repeated failures where they are
      seen first. */
  ghost function RequestsIn(g: Grouping, L: Log, minute: int): nat {
    if L == [] then 0
    else
      var front, t := L[..|L| - 1], L[|L| - 1];
      RequestsIn(g, front, minute) +
      (if MinuteOf(t.timestamp) == minute && (EventOf(g, t).Success? || IsFirst(g, front, t)) then 1 else 0)
  }

  ghost function FailuresIn(g: Grouping, L: Log, minute: int): nat {
    if L == [] then 0
    else
      var front, t := L[..|L| - 1], L[|L| - 1];
      FailuresIn(g, front, minute) + (if MinuteOf(t.timestamp) == minute && IsFirst(g, front, t) then 1 else 0)
  }

  ghost function LatenciesIn(g: Grouping, L: Log, minute: int): seq<int> {
    if L == [] then []
    else
      var t := L[|L| - 1];
      LatenciesIn(g, L[..|L| - 1], minute) +
      (if MinuteOf(t.timestamp) == minute && EventOf(g, t).Success? && t.latencyMS > 0 then [t.latencyMS] else [])
  }

  ghost function BucketOf(g: Grouping, L: Log, minute: int): Bucket {
    Bucket(minute, RequestsIn(g, L, minute), FailuresIn(g, L, minute), Average(LatenciesIn(g, L, minute)))
  }

  lemma RequestsInSnoc(g: Grouping, L: Log, t: Trace, minute: int)
    ensures RequestsIn(g, L + [t], minute)
         == RequestsIn(g, L, minute) +
            (if MinuteOf(t.timestamp) == minute && (EventOf(g, t).Success? || IsFirst(g, L, t)) then 1 else 0)
    ensures FailuresIn(g, L + [t], minute)
         == FailuresIn(g, L, minute) + (if MinuteOf(t.timestamp) == minute && IsFirst(g, L, t) then 1 else 0)
  {
    assert (L + [t])[..|L|] == L;
  }

  lemma LatenciesInSnoc(g: Grouping, L: Log, t: Trace, minute: int)
    ensures LatenciesIn(g, L + [t], minute)
         == LatenciesIn(g, L, minute) +
            (if MinuteOf(t.timestamp) == minute && EventOf(g, t).Success? && t.latencyMS > 0 then [t.latencyMS] else [])
  {
    assert (L + [t])[..|L|] == L;
  }

  lemma MinutesSnoc(g: Grouping, L: Log, t: Trace)
    ensures Minutes(g, L + [t]) == Minutes(g, L) + (if EventOf(g, t).Folded? then {} else {MinuteOf(t.timestamp)})
  {
    assert (L + [t])[..|L|] == L;
  }

  lemma SinceSnoc(L: Log, t: Trace, cutoff: int)
    ensures Since(L + [t], cutoff)
         == if MinuteOf(t.timestamp) >= cutoff then Since(L, cutoff) + [t] else Since(L, cutoff)
  {
    assert (L + [t])[..|L|] == L;
  }

  // ----- the maps that the code fills -----

  datatype Counts = Counts(requests: int, failures: int)

  ghost predicate Filled(g: Grouping, R: Log, buckets: map<int, Counts>, seen: set<string>) {
    buckets.Keys == Minutes(g, R) && seen == FailureKeys(g, R) &&
    forall m :: m in buckets ==> buckets[m] == Counts(RequestsIn(g, R, m), FailuresIn(g, R, m))
  }

  ghost predicate LatenciesFilled(g: Grouping, R: Log, latencies: map<int, seq<int>>) {
    forall m :: LatenciesIn(g, R, m) == if m in latencies then latencies[m] else []
  }

  lemma {:induction false} NothingOutside(g: Grouping, L: Log, minute: int)
    requires minute !in Minutes(g, L)
    ensures RequestsIn(g, L, minute) == 0 && FailuresIn(g, L, minute) == 0
  {
    if L != [] {
      NothingOutside(g, L[..|L| - 1], minute);
    }
  }

  /** Counting one more trace in its minute. */
  method CountIn(g: Grouping, t: Trace, buckets: map<int, Counts>, seen: set<string>, ghost R: Log)
    returns (buckets': map<int, Counts>, seen': set<string>)
    requires Filled(g, R, buckets, seen) && !EventOf(g, t).Folded?
    ensures Filled(g, R + [t], buckets', seen')
  {
    var key := MinuteOf(t.timestamp);
    MinutesSnoc(g, R, t);
    KeysSnoc(g, R, t);
    forall m: int
      ensures RequestsIn(g, R + [t], m) == RequestsIn(g, R, m) +
                (if MinuteOf(t.timestamp) == m && (EventOf(g, t).Success? || IsFirst(g, R, t)) then 1 else 0)
      ensures FailuresIn(g, R + [t], m)
           == FailuresIn(g, R, m) + (if MinuteOf(t.timestamp) == m && IsFirst(g, R, t) then 1 else 0)
    {
      RequestsInSnoc(g, R, t, m);
    }
    if key !in buckets {
      NothingOutside(g, R, key);
    }
    var bucket := if key in buckets then buckets[key] else Counts(0, 0);
    buckets', seen' := buckets[key := bucket], seen;
    if IsFailure(t) {
      var groupKey := FailureGroupKey(g, t);
      if groupKey != "" {
        if groupKey in seen {
          return;
        }
        seen' := seen + {groupKey};
      }
      buckets' := buckets[key := Counts(bucket.requests + 1, bucket.failures + 1)];
      return;
    }
    buckets' := buckets[key := Counts(bucket.requests + 1, bucket.failures)];
  }

  method AddLatency(g: Grouping, t: Trace, latencies: map<int, seq<int>>, ghost R: Log)
    returns (latencies': map<int, seq<int>>)
    requires LatenciesFilled(g, R, latencies) && !EventOf(g, t).Folded?
    ensures LatenciesFilled(g, R + [t], latencies')
  {
    var key := MinuteOf(t.timestamp);
    forall m: int
      ensures LatenciesIn(g, R + [t], m) == LatenciesIn(g, R, m) +
                (if MinuteOf(t.timestamp) == m && EventOf(g, t).Success? && t.latencyMS > 0 then [t.latencyMS] else [])
    {
      LatenciesInSnoc(g, R, t, m);
    }
    latencies' := latencies;
    if !IsFailure(t) && t.latencyMS > 0 {
      latencies' := latencies[key := (if key in latencies then latencies[key] else []) + [t.latencyMS]];
    }
  }

  lemma FoldedChangesNothing(g: Grouping, R: Log, t: Trace, buckets: map<int, Counts>, seen: set<string>)
    requires Filled(g, R, buckets, seen) && EventOf(g, t).Folded?
    ensures Filled(g, R + [t], buckets, seen)
  {
    MinutesSnoc(g, R, t);
    KeysSnoc(g, R, t);
    forall m: int
      ensures RequestsIn(g, R + [t], m) == RequestsIn(g, R, m) && FailuresIn(g, R + [t], m) == FailuresIn(g, R, m)
    {
      RequestsInSnoc(g, R, t, m);
    }
  }

  lemma FoldedAddsNoLatency(g: Grouping, R: Log, t: Trace, latencies: map<int, seq<int>>)
    requires LatenciesFilled(g, R, latencies) && EventOf(g, t).Folded?
    ensures LatenciesFilled(g, R + [t], latencies)
  {
    forall m: int
      ensures LatenciesIn(g, R + [t], m) == LatenciesIn(g, R, m) + []
    {
      LatenciesInSnoc(g, R, t, m);
    }
  }

  ghost predicate FilledFrom(g: Grouping, P: Log, cutoff: int, buckets: map<int, Counts>,
                             latencies: map<int, seq<int>>, seen: set<string>) {
    Filled(g, Since(P, cutoff), buckets, seen) && LatenciesFilled(g, Since(P, cutoff), latencies)
  }

  /** The first loop of buildSeries, from the newest trace to the oldest. */
  method FillBuckets(g: Grouping, traces: Log, cutoff: int)
    returns (buckets: map<int, Counts>, latencies: map<int, seq<int>>)
    ensures var R := Since(Newest(traces), cutoff);
            Filled(g, R, buckets, FailureKeys(g, R)) && LatenciesFilled(g, R, latencies)
  {
    ghost var P: Log := [];
    var seenFailures: set<string> := {};
    buckets, latencies := map[], map[];
    var i := |traces| - 1;
    while i >= 0
      invariant -1 <= i < |traces| && P == Newest(traces)[..|traces| - 1 - i]
      invariant FilledFrom(g, P, cutoff, buckets, latencies, seenFailures)
    {
      buckets, latencies, seenFailures := FillStep(g, traces[i], cutoff, buckets, latencies, seenFailures, P);
      P := P + [traces[i]];
      i := i - 1;
    }
    assert P == Newest(traces);
  }

  method FillStep(g: Grouping, t: Trace, cutoff: int, buckets: map<int, Counts>, latencies: map<int, seq<int>>,
                  seen: set<string>, ghost P: Log)
    returns (buckets': map<int, Counts>, latencies': map<int, seq<int>>, seen': set<string>)
    requires FilledFrom(g, P, cutoff, buckets, latencies, seen)
    ensures FilledFrom(g, P + [t], cutoff, buckets', latencies', seen')
  {
    ghost var R := Since(P, cutoff);
    SinceSnoc(P, t, cutoff);
    buckets', latencies', seen' := buckets, latencies, seen;
    var foldKey, foldTarget, folded := SuccessFoldGroup(g, t);
    if folded {
      FoldedChangesNothing(g, R, t, buckets, seen);
      FoldedAddsNoLatency(g, R, t, latencies);
      return;
    }
    if MinuteOf(t.timestamp) < cutoff {
      return;
    }
    buckets', seen' := CountIn(g, t, buckets, seen, R);
    latencies' := AddLatency(g, t, latencies, R);
  }

  // ----- the sorted series -----

  predicate Before(a: Bucket, b: Bucket) { a.time < b.time }

  ghost function BucketsAt(g: Grouping, L: Log, minutes: set<int>): set<Bucket> {
    set m | m in minutes :: BucketOf(g, L, m)
  }

  ghost function BucketsOf(g: Grouping, L: Log): set<Bucket> {
    BucketsAt(g, L, Minutes(g, L))
  }

  lemma BucketsAreOrdered(g: Grouping, L: Log)
    ensures StrictTotalOn(Before, BucketsOf(g, L))
  {
  }

  lemma AnotherBucket(g: Grouping, L: Log, minutes: set<int>, m: int)
    requires m !in minutes
    ensures BucketOf(g, L, m) !in BucketsAt(g, L, minutes)
    ensures BucketsAt(g, L, minutes + {m}) == BucketsAt(g, L, minutes) + {BucketOf(g, L, m)}
  {
    assert forall n :: BucketOf(g, L, n).time == n;
    assert m in minutes + {m};
  }

  lemma FilledAt(g: Grouping, R: Log, buckets: map<int, Counts>, latencies: map<int, seq<int>>, m: int)
    requires Filled(g, R, buckets, FailureKeys(g, R)) && LatenciesFilled(g, R, latencies) && m in buckets
    ensures BucketOf(g, R, m) == Bucket(m, buckets[m].requests, buckets[m].failures,
                                        Average(if m in latencies then latencies[m] else []))
  {
    assert buckets[m] == Counts(RequestsIn(g, R, m), FailuresIn(g, R, m));
    assert LatenciesIn(g, R, m) == if m in latencies then latencies[m] else [];
  }

  /** The second loop: one bucket for every minute, in the order of a map. */
  method ListBuckets(g: Grouping, buckets: map<int, Counts>, latencies: map<int, seq<int>>, ghost R: Log)
    returns (series: seq<Bucket>)
    requires Filled(g, R, buckets, FailureKeys(g, R)) && LatenciesFilled(g, R, latencies)
    ensures NoDuplicates(series) && Elements(series) == BucketsOf(g, R)
  {
    series := [];
    var left := buckets.Keys;
    while left != {}
      invariant left <= buckets.Keys && NoDuplicates(series)
      invariant Elements(series) == BucketsAt(g, R, buckets.Keys - left)
      decreases left
    {
      ghost var some := Member(left);
      var minute :| minute in left;
      FilledAt(g, R, buckets, latencies, minute);
      Moved(buckets.Keys, left, minute);
      AnotherBucket(g, R, buckets.Keys - left, minute);
      var average := AverageOf(if minute in latencies then latencies[minute] else []);
      var bucket := Bucket(minute, buckets[minute].requests, buckets[minute].failures, average);
      Appended(series, bucket);
      series, left := series + [bucket], left - {minute};
    }
    NoneLeft(buckets.Keys);
  }

  /** buildSeries: the buckets of the last 24 hours, oldest first. */
  method BuildSeries(g: Grouping, traces: Log, now: int) returns (series: seq<Bucket>)
    ensures series == Series(g, Newest(traces), now)
  {
    ghost var R := Since(Newest(traces), MinuteOf(now - DAY));
    var buckets, latencies := FillBuckets(g, traces, MinuteOf(now - DAY));
    series := ListBuckets(g, buckets, latencies, R);
    BucketsAreOrdered(g, R);
    series := SortSlice(series, Before);
  }

  ghost function Series(g: Grouping, L: Log, now: int): seq<Bucket> {
    Listing(Before, BucketsOf(g, Since(L, MinuteOf(now - DAY))))
  }

  // ----- the series and the metrics -----

  ghost function SumOfRequests(series: seq<Bucket>): int {
    if series == [] then 0 else SumOfRequests(series[..|series| - 1]) + series[|series| - 1].requests
  }

  ghost function SumOfFailures(series: seq<Bucket>): int {
    if series == [] then 0 else SumOfFailures(series[..|series| - 1]) + series[|series| - 1].failures
  }

  /** Requests and failures of some minutes together. */
  ghost function RequestsAt(g: Grouping, L: Log, minutes: seq<int>): nat {
    if minutes == [] then 0
    else RequestsAt(g, L, minutes[..|minutes| - 1]) + RequestsIn(g, L, minutes[|minutes| - 1])
  }

  ghost function FailuresAt(g: Grouping, L: Log, minutes: seq<int>): nat {
    if minutes == [] then 0
    else FailuresAt(g, L, minutes[..|minutes| - 1]) + FailuresIn(g, L, minutes[|minutes| - 1])
  }

  lemma InFrontOrLast(minutes: seq<int>, m: int)
    requires NoDuplicates(minutes) && minutes != []
    ensures NoDuplicates(minutes[..|minutes| - 1])
    ensures m in minutes <==> m in minutes[..|minutes| - 1] || m == minutes[|minutes| - 1]
    ensures minutes[|minutes| - 1] !in minutes[..|minutes| - 1]
  {
    assert minutes == minutes[..|minutes| - 1] + [minutes[|minutes| - 1]];
  }

  /** One more trace adds its count once, to the one bucket of its minute. */
  lemma {:induction false} RequestsAtSnoc(g: Grouping, L: Log, t: Trace, minutes: seq<int>)
    requires NoDuplicates(minutes)
    ensures RequestsAt(g, L + [t], minutes) == RequestsAt(g, L, minutes) +
              (if MinuteOf(t.timestamp) in minutes && (EventOf(g, t).Success? || IsFirst(g, L, t)) then 1 else 0)
  {
    if minutes != [] {
      InFrontOrLast(minutes, MinuteOf(t.timestamp));
      RequestsAtSnoc(g, L, t, minutes[..|minutes| - 1]);
      RequestsInSnoc(g, L, t, minutes[|minutes| - 1]);
    }
  }

  lemma {:induction false} FailuresAtSnoc(g: Grouping, L: Log, t: Trace, minutes: seq<int>)
    requires NoDuplicates(minutes)
    ensures FailuresAt(g, L + [t], minutes) == FailuresAt(g, L, minutes) +
              (if MinuteOf(t.timestamp) in minutes && IsFirst(g, L, t) then 1 else 0)
  {
    if minutes != [] {
      InFrontOrLast(minutes, MinuteOf(t.timestamp));
      FailuresAtSnoc(g, L, t, minutes[..|minutes| - 1]);
      RequestsInSnoc(g, L, t, minutes[|minutes| - 1]);
    }
  }

  lemma {:induction false} NothingCounted(g: Grouping, minutes: seq<int>)
    ensures RequestsAt(g, [], minutes) == 0 && FailuresAt(g, [], minutes) == 0
  {
    if minutes != [] {
      NothingCounted(g, minutes[..|minutes| - 1]);
    }
  }

  lemma SumsStep(g: Grouping, L: Log, t: Trace, minutes: seq<int>)
    requires NoDuplicates(minutes) && (EventOf(g, t).Folded? || MinuteOf(t.timestamp) in minutes)
    requires RequestsAt(g, L, minutes) == Requests(g, L) && FailuresAt(g, L, minutes) == Failures(g, L)
    ensures RequestsAt(g, L + [t], minutes) == Requests(g, L + [t])
    ensures FailuresAt(g, L + [t], minutes) == Failures(g, L + [t])
  {
    RequestsAtSnoc(g, L, t, minutes);
    FailuresAtSnoc(g, L, t, minutes);
    FailuresSnoc(g, L, t);
  }

  /** Summed over minutes that cover the list, nothing is lost and nothing counted twice. */
  lemma {:induction false} SumsOver(g: Grouping, L: Log, minutes: seq<int>)
    requires NoDuplicates(minutes) && forall m :: m in Minutes(g, L) ==> m in minutes
    ensures RequestsAt(g, L, minutes) == Requests(g, L) && FailuresAt(g, L, minutes) == Failures(g, L)
  {
    if L == [] {
      NothingCounted(g, minutes);
    } else {
      var front, t := L[..|L| - 1], L[|L| - 1];
      SumsOver(g, front, minutes);
      SumsStep(g, front, t, minutes);
      assert front + [t] == L;
    }
  }

  function Instants(series: seq<Bucket>): (r: seq<int>)
    ensures |r| == |series| && forall i :: 0 <= i < |r| ==> r[i] == series[i].time
  {
    seq(|series|, i requires 0 <= i < |series| => series[i].time)
  }

  lemma {:induction false} SeriesSums(g: Grouping, L: Log, series: seq<Bucket>)
    requires forall i :: 0 <= i < |series| ==> series[i] == BucketOf(g, L, series[i].time)
    ensures SumOfRequests(series) == RequestsAt(g, L, Instants(series))
    ensures SumOfFailures(series) == FailuresAt(g, L, Instants(series))
  {
    if series != [] {
      var front := series[..|series| - 1];
      SeriesSums(g, L, front);
      assert Instants(series)[..|series| - 1] == Instants(front);
    }
  }

  lemma InstantsOfListing(g: Grouping, L: Log, series: seq<Bucket>)
    requires IsListing(Before, BucketsOf(g, L), series)
    ensures forall i :: 0 <= i < |series| ==> series[i] == BucketOf(g, L, series[i].time)
    ensures forall i, j :: 0 <= i < j < |series| ==> series[i].time < series[j].time
    ensures NoDuplicates(Instants(series)) && forall m :: m in Minutes(g, L) ==> m in Instants(series)
  {
    forall i | 0 <= i < |series|
      ensures series[i] == BucketOf(g, L, series[i].time)
    {
      assert series[i] in Elements(series);
    }
    forall m | m in Minutes(g, L)
      ensures m in Instants(series)
    {
      assert BucketOf(g, L, m) in Elements(series);
      var i :| 0 <= i < |series| && series[i] == BucketOf(g, L, m);
      assert Instants(series)[i] == m;
    }
    assert forall i, j :: 0 <= i < j < |series| ==> Before(series[i], series[j]);
  }

  /** The buckets are sorted by time and add up to the effective requests and failures of the traces
      of the last 24 hours. */
  lemma SeriesAddsUp(g: Grouping, L: Log, now: int)
    ensures var recent := Since(L, MinuteOf(now - DAY));
            SumOfRequests(Series(g, L, now)) == Requests(g, recent) &&
            SumOfFailures(Series(g, L, now)) == Failures(g, recent)
    ensures forall i, j :: 0 <= i < j < |Series(g, L, now)| ==> Series(g, L, now)[i].time < Series(g, L, now)[j].time
  {
    var recent, series := Since(L, MinuteOf(now - DAY)), Series(g, L, now);
    BucketsAreOrdered(g, recent);
    ListingLists(Before, BucketsOf(g, recent));
    InstantsOfListing(g, recent, series);
    SeriesSums(g, recent, series);
    SumsOver(g, recent, Instants(series));
  }

  lemma {:induction false} SinceAll(L: Log, cutoff: int)
    requires forall i :: 0 <= i < |L| ==> MinuteOf(L[i].timestamp) >= cutoff
    ensures Since(L, cutoff) == L
  {
    if L != [] {
      SinceAll(L[..|L| - 1], cutoff);
    }
  }
}
