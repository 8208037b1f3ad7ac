/** The snapshot of the traffic store (internal/traffic/store.go, Snapshot): its three reductions
    describe the same effective requests. */
module TraceSnapshot {
  import opened Text
  import opened Traces
  import opened TraceLog
  import opened TraceStore
  import opened TraceGroups
  import opened TraceReductions
  import opened TraceDisplay
  import opened TraceSeries

  // ----- when no failure is hidden -----

  lemma {:induction false} FailureKeyOccurs(g: Grouping, L: Log, key: string) returns (t: Trace)
    requires key in FailureKeys(g, L)
    ensures t in L && EventOf(g, t) == Repeated(key)
  {
    var last := L[|L| - 1];
    if EventOf(g, last) == Repeated(key) {
      t := last;
    } else {
      t := FailureKeyOccurs(g, L[..|L| - 1], key);
    }
  }

  lemma {:induction false} MembersOccur(g: Grouping, L: Log, key: string)
    ensures forall t :: t in Members(g, L, key) ==> t in L && GroupKey(g, t) == key
  {
    if L != [] {
      MembersOccur(g, L[..|L| - 1], key);
    }
  }

  /** Kinds hold no NUL, and grouped failures have targets that do not start with two slashes. */
  ghost predicate AllDistinguishable(g: Grouping, L: Log) {
    forall t :: t in L ==> '\0' !in NonEmpty(t.kind, "proxy") && (EventOf(g, t).Repeated? ==> Distinguishable(g, t))
  }

  lemma NothingHidden(g: Grouping, L: Log)
    requires AllDistinguishable(g, L)
    ensures forall key :: !IsHidden(g, L, key)
  {
    forall key | IsHidden(g, L, key)
      ensures false
    {
      var failed := FailureKeyOccurs(g, L, key);
      var folded := Members(g, L, key)[0];
      MembersOccur(g, L, key);
      assert folded in L && FoldKey(g, folded) == FailureKey(g, failed);
      KeysAreDisjoint(g, folded, failed);
    }
  }

  /** Kinds hold no NUL; a trace that is grouped as a failure has a URL with a scheme, or no URL and a
      target that does not start with two slashes. */
  ghost predicate AllHaveSchemes(g: Grouping, L: Log) {
    forall t :: t in L ==>
      '\0' !in NonEmpty(t.kind, "proxy") && (EventOf(g, t).Repeated? ==> HasScheme(g, t))
  }

  ghost predicate HasScheme(g: Grouping, t: Trace) {
    var url := TrimSpace(t.url);
    if url == "" then !("//" <= TrimSpace(t.target))
    else g.lib.parse(url).Parsed? && g.lib.parse(url).url.scheme != ""
  }

  lemma SchemesHideNothing(g: Grouping, L: Log)
    requires Lawful(g.lib) && AllHaveSchemes(g, L)
    ensures AllDistinguishable(g, L)
  {
    forall t | t in L && EventOf(g, t).Repeated?
      ensures Distinguishable(g, t)
    {
      if TrimSpace(t.url) != "" {
        SchemesDistinguish(g, t);
      }
    }
  }

  /** On traces whose URLs carry a scheme, the display rows that count are as many as the effective
      requests of the metrics, the group counts add up to the raw requests, and so do the three
      kinds of raw requests; if nothing is older than a day, the series adds up to the same requests
      and failures. */
  lemma ReductionsAgree(g: Grouping, L: Log, m: Metrics, now: int)
    requires Lawful(g.lib) && AllHaveSchemes(g, L) && Measures(g, L, m)
    ensures Counted(Display(g, L)) == m.requests
    ensures SumOfCounts(Display(g, L)) == m.rawRequests == m.ignoredSuccess + m.rawFailures + m.success
    ensures (forall t :: t in L ==> MinuteOf(t.timestamp) >= MinuteOf(now - DAY)) ==>
              SumOfRequests(Series(g, L, now)) == m.requests && SumOfFailures(Series(g, L, now)) == m.failures
  {
    SchemesHideNothing(g, L);
    NothingHidden(g, L);
    DisplayAgreesIff(g, L);
    CountsAddUp(g, L);
    RawRequestsPartition(g, L, m);
    SeriesAddsUp(g, L, now);
    if forall t :: t in L ==> MinuteOf(t.timestamp) >= MinuteOf(now - DAY) {
      SinceAll(L, MinuteOf(now - DAY));
    }
  }

  // ----- a failure that is hidden -----

  lemma TwoEvents(g: Grouping, ok: Trace, bad: Trace, key: string)
    requires EventOf(g, ok) == Folded(key) && EventOf(g, bad) == Repeated(key)
    ensures Members(g, [ok, bad], key) == [ok, bad] && FailureKeys(g, [ok, bad]) == {key}
    ensures Requests(g, [ok, bad]) == 1
  {
    assert [ok] + [bad] == [ok, bad] && [] + [ok] == [ok];
    FailuresSnoc(g, [], ok);
    FailuresSnoc(g, [ok], bad);
    KeysSnoc(g, [], ok);
    KeysSnoc(g, [ok], bad);
    MembersSnoc(g, [], ok, key);
    MembersSnoc(g, [ok], bad, key);
  }

  /** Without a scheme the three disagree: a folded success for "//host/path", followed further back
      by a failure of the same URL, hides the failure from the display although the metrics count
      it. */
  lemma SchemelessFailureIsHidden(g: Grouping, ok: Trace, bad: Trace)
    requires Folds(g, ok) && TrimSpace(ok.url) == FoldTarget(g.lib.parse(TrimSpace(ok.url)).url)
    requires bad == ok.(status := 500)
    requires SwitchedOn(g.cfg.grouping, true) && !SwitchedOn(g.cfg.normalization, g.cfg.urlRules != [])
    ensures IsHidden(g, [ok, bad], FoldKey(g, ok))
    ensures Counted(Display(g, [ok, bad])) == 0 && Requests(g, [ok, bad]) == 1
  {
    var key, L := FoldKey(g, ok), [ok, bad];
    assert FailureTarget(g, bad) == TrimSpace(ok.url);
    FoldKeyIsNotEmpty(bad, TrimSpace(ok.url));
    TwoEvents(g, ok, bad, key);
    RowsAndHiddenAreRequests(g, L);
    assert key in Hidden(g, L);
  }

  // ----- the snapshot itself -----

  datatype Snapshot = Snapshot(metrics: Metrics, traces: Log, rows: seq<Row>, series: seq<Bucket>)

  method TakeSnapshot(store: Store, g: Grouping, limit: int, now: int, later: int) returns (snapshot: Snapshot)
    requires store.Valid()
    modifies store.window, store.window.buf
    ensures store.Valid() && store.Contents() == Unexpired(old(store.Contents()), Cutoff(now, store.retentionDays))
    ensures var L := Newest(store.Contents());
            snapshot.traces == (if limit <= 0 || limit > |L| then L else L[..limit]) &&
            Measures(g, L, snapshot.metrics) && snapshot.metrics.activeTunnels == store.activeTunnels &&
            snapshot.rows == Display(g, snapshot.traces) && snapshot.series == Series(g, L, later)
  {
    var traces := store.Recent(limit, now);
    var all := store.window.All();
    assert |traces| == |Newest(all)| ==> traces == Newest(all);
    var metrics := MetricsOf(g, all, store.activeTunnels);
    var rows := DisplayTraces(g, traces);
    var series := BuildSeries(g, all, later);
    snapshot := Snapshot(metrics, traces, rows, series);
  }
}
