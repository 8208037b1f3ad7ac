/** Failing requests make progress: every request whose attempts all fail takes the nodes it tried
    out of the pools, so a bounded number of requests leaves no live node of the class
    (internal/server/server.go, doProxyWithRetry; internal/pool/manager.go, MarkNodeUnavailable). */
module RetryProgress {
  import opened Pools
  import opened Ordering
  import E = Egress
  import T = EgressTheorems
  import opened ProxyServer
  import opened Wrappers
  import opened Text

  /** The pools after a request for a named region whose attempts through nodes all failed. */
  ghost function AfterFailedRequest(snap: Snapshot, region: string, sel: Selector, s: Settings, d: E.Draw): Snapshot {
    MarkAll(snap, T.NodesOf(AttemptsFor(snap, region, sel, s, d)))
  }

  // ----- when all node attempts fail -----

  /** How many attempts there are up to the last node. */
  function LastNode(list: Choices): (m: nat)
    ensures m <= |list| && (m > 0 ==> !list[m - 1].template)
    ensures forall i :: m <= i < |list| ==> list[i].template
  {
    if list == [] then 0
    else if !list[|list| - 1].template then |list|
    else LastNode(list[..|list| - 1])
  }

  /** All attempts through nodes fail retryably; what the templates after them do does not matter.
      The client may give up when the last node has failed. */
  ghost predicate NodesFail(list: Choices, oracle: nat -> Outcome) {
    var m := LastNode(list);
    (forall i :: 0 <= i < m - 1 ==> oracle(i) == Retryable) &&
    (m > 0 ==> oracle(m - 1) == Retryable || oracle(m - 1) == RetryableThenCancelled)
  }

  ghost predicate AttemptsOf(list: Choices, attempts: seq<Option<Choice>>) {
    |attempts| == |list| && forall i :: 0 <= i < |list| ==> attempts[i] == Some(list[i])
  }

  /** Templates are not reported. */
  lemma {:induction false} TemplatesReportNothing(list: Choices, attempts: seq<Option<Choice>>, oracle: nat -> Outcome,
                                                  m: nat, k: nat)
    requires AttemptsOf(list, attempts) && m <= k <= |list| && forall i :: m <= i < |list| ==> list[i].template
    ensures Reported(attempts, oracle, k) == Reported(attempts, oracle, m)
    ensures T.NodesOf(list[..k]) == T.NodesOf(list[..m])
  {
    if m < k {
      TemplatesReportNothing(list, attempts, oracle, m, k - 1);
      NodesOfSnoc(list, k - 1);
    }
  }

  lemma {:induction false} FailingNodesReport(list: Choices, attempts: seq<Option<Choice>>, oracle: nat -> Outcome,
                                              k: nat)
    requires AttemptsOf(list, attempts) && k <= LastNode(list) && NodesFail(list, oracle)
    ensures Reported(attempts, oracle, k) == T.NodesOf(list[..k])
  {
    if k > 0 {
      FailingNodesReport(list, attempts, oracle, k - 1);
      NodesOfSnoc(list, k - 1);
    }
  }

  lemma {:induction false} ReportedAtMost(list: Choices, attempts: seq<Option<Choice>>, oracle: nat -> Outcome,
                                          k: nat, m: nat)
    requires AttemptsOf(list, attempts) && k <= m <= |list|
    ensures |Reported(attempts, oracle, k)| <= |T.NodesOf(list[..m])|
    decreases m
  {
    if k < m {
      ReportedAtMost(list, attempts, oracle, k, m - 1);
      NodesOfSnoc(list, m - 1);
    } else if k > 0 {
      ReportedAtMost(list, attempts, oracle, k - 1, m - 1);
      NodesOfSnoc(list, m - 1);
    }
  }

  /** The loop gets at least as far as the last node. */
  lemma StopsBehindNodes(list: Choices, oracle: nat -> Outcome)
    requires list != [] && NodesFail(list, oracle)
    ensures LastNode(list) <= StopsAt(oracle, |list|, 0) + 1
  {
    StopsAtFirst(oracle, |list|, 0);
  }

  lemma FailingReportsAll(list: Choices, attempts: seq<Option<Choice>>, oracle: nat -> Outcome)
    requires list != [] && AttemptsOf(list, attempts) && NodesFail(list, oracle)
    ensures Reported(attempts, oracle, StopsAt(oracle, |list|, 0) + 1) == T.NodesOf(list)
  {
    var m := LastNode(list);
    StopsBehindNodes(list, oracle);
    FailingNodesReport(list, attempts, oracle, m);
    TemplatesReportNothing(list, attempts, oracle, m, StopsAt(oracle, |list|, 0) + 1);
    TemplatesReportNothing(list, attempts, oracle, m, |list|);
    assert list[..|list|] == list;
  }

  /** If one node is not tried, or does not fail, then not all are reported. */
  lemma MissingReport(list: Choices, attempts: seq<Option<Choice>>, oracle: nat -> Outcome, k: nat)
    requires AttemptsOf(list, attempts) && k <= |list| && LastNode(list) > 0
    requires k < LastNode(list) || !Reports(attempts[LastNode(list) - 1], oracle(LastNode(list) - 1))
    ensures |Reported(attempts, oracle, k)| < |T.NodesOf(list)|
  {
    var m := LastNode(list);
    TemplatesReportNothing(list, attempts, oracle, m, |list|);
    assert list[..|list|] == list;
    NodesOfSnoc(list, m - 1);
    if k < m {
      ReportedAtMost(list, attempts, oracle, k, m - 1);
    } else {
      TemplatesReportNothing(list, attempts, oracle, m, k);
      ReportedAtMost(list, attempts, oracle, m - 1, m - 1);
    }
  }

  /** A request reports all nodes of its attempts exactly when its attempts through nodes all fail. */
  lemma AllReportedIff(list: Choices, attempts: seq<Option<Choice>>, oracle: nat -> Outcome)
    requires list != [] && AttemptsOf(list, attempts)
    ensures Reported(attempts, oracle, StopsAt(oracle, |list|, 0) + 1) == T.NodesOf(list) <==> NodesFail(list, oracle)
  {
    var m, stop := LastNode(list), StopsAt(oracle, |list|, 0);
    if NodesFail(list, oracle) {
      FailingReportsAll(list, attempts, oracle);
    } else {
      StopsAtFirst(oracle, |list|, 0);
      assert stop + 1 < m || !Reports(attempts[m - 1], oracle(m - 1));
      MissingReport(list, attempts, oracle, stop + 1);
    }
  }

  /** A request whose attempts through nodes all fail leaves its attempted nodes marked, whether or
      not a template answers it in the end. */
  lemma FailedRequestMarks(snap: Snapshot, route: Route, s: Settings, oracle: nat -> Outcome)
    requires route.choices != [] && s.maxAttempts >= 1
    requires NodesFail(AttemptList(route.choices, s, route.premium), oracle)
    ensures AfterRoute(snap, route, s, oracle) == MarkAll(snap, T.NodesOf(AttemptList(route.choices, s, route.premium)))
  {
    AttemptsExist(route.choices, s, route.premium);
    FailingReportsAll(AttemptList(route.choices, s, route.premium), ProxyAttempts(route, s), oracle);
  }

  /** The same for the whole of handleProxy, on a request for a named region. */
  lemma NamedRequestMarks(snap: Snapshot, o: Options, s: Settings, d: E.Draw, oracle: nat -> Outcome)
    requires o.region.Named? && s.maxAttempts >= 1
    requires NodesFail(AttemptsFor(snap, o.region.region, Selector(o.residential, o.premium), s, d), oracle)
    ensures AfterRequest(snap, o, s, d, oracle)
         == AfterFailedRequest(snap, o.region.region, Selector(o.residential, o.premium), s, d)
  {
    var route := Resolved(snap, o, s.templateFallback, d);
    if route.Some? {
      FailedRequestMarks(snap, route.value, s, oracle);
    }
  }

  /** Marks can reach the nodes of the class: none is direct, and no name is blank. */
  ghost predicate Reachable(snap: Snapshot, region: string, residential: bool) {
    forall n, e :: n in snap && e in snap[n].entries && E.Matching(e, region, residential) ==>
      !e.direct && TrimSpace(n) != "" && TrimSpace(e.name) != ""
  }

  /** A live choice survives the marks if none of them names it. */
  predicate Named(dead: Choices, c: Choice) {
    exists i :: 0 <= i < |dead| && dead[i].pool == c.pool && dead[i].node == c.node
  }

  lemma {:induction false} NoHits(dead: Choices, n: string, e: EntryState)
    ensures HitCount(dead, n, e) == 0 <==> forall i :: 0 <= i < |dead| ==> !Hits(dead[i], n, e)
  {
    if dead != [] {
      NoHits(dead[..|dead| - 1], n, e);
    }
  }

  /** An entry that is alive after the marks was alive before, and no mark named it. */
  lemma Survivor(before: PoolState, now: PoolState, n: string, dead: Choices, e: EntryState, region: string,
                 residential: bool)
    requires MarkedExactly(before, now, n, dead) && e in now.entries && E.Matching(e, region, residential)
    requires forall f :: f in before.entries && E.Matching(f, region, residential) ==>
               !f.direct && TrimSpace(n) != "" && TrimSpace(f.name) != ""
    ensures !e.direct && TrimSpace(n) != "" && TrimSpace(e.name) != ""
    ensures e.alive ==> e in before.entries
    ensures e.alive ==> forall i :: 0 <= i < |dead| ==> !(dead[i].pool == n && dead[i].node == e.name)
  {
    var i :| 0 <= i < |now.entries| && now.entries[i] == e;
    var was := before.entries[i];
    assert was in before.entries && E.Matching(was, region, residential);
    NoHits(dead, n, was);
    if e.alive {
      assert e == was;
      forall j | 0 <= j < |dead|
        ensures !(dead[j].pool == n && dead[j].node == e.name)
      {
        assert !Hits(dead[j], n, was);
      }
    }
  }

  /** After the marks, the live choices are among those not named by a mark. */
  lemma SurvivorsAreUnnamed(snap: Snapshot, dead: Choices, region: string, residential: bool)
    requires DistinctNames(snap) && Reachable(snap, region, residential)
    ensures var now := MarkAll(snap, dead);
            DistinctNames(now) && Reachable(now, region, residential) &&
            forall c :: c in E.AliveChoices(now, region, residential) ==>
              c in E.AliveChoices(snap, region, residential) && !Named(dead, c)
  {
    var now := MarkAll(snap, dead);
    MarkAllChangesExactly(snap, dead);
    forall n, e | n in now && e in now[n].entries && E.Matching(e, region, residential)
      ensures !e.direct && TrimSpace(n) != "" && TrimSpace(e.name) != ""
    {
      assert MarkedExactly(snap[n], now[n], n, dead);
      Survivor(snap[n], now[n], n, dead, e, region, residential);
    }
    forall c | c in E.AliveChoices(now, region, residential)
      ensures c in E.AliveChoices(snap, region, residential) && !Named(dead, c)
    {
      var n, e :| n in now && e in now[n].entries && E.NodePool(now[n].config) && e.alive &&
        E.Matching(e, region, residential) &&
        c == E.NodeChoice(n, now[n].config, e, region, E.GroupOf(region, residential));
      assert MarkedExactly(snap[n], now[n], n, dead);
      Survivor(snap[n], now[n], n, dead, e, region, residential);
    }
  }

  // ----- the live nodes of the class come first -----

  lemma NodesOfMerged(live: Choices, templates: Choices, premium: bool, wt: bool)
    requires live != [] && (forall c :: c in live ==> !c.template) && (forall c :: c in templates ==> c.template)
    ensures T.NodesOf(E.Merged(live, [], templates, premium, wt)) == E.PremiumFirst(live) ||
            T.NodesOf(E.Merged(live, [], templates, premium, wt)) == live
  {
    var p, q := E.Only(live, true), E.Only(live, false);
    var pt, qt := E.Only(templates, true), if wt then E.Only(templates, false) else [];
    T.OnlyKeeps(live, true);
    T.OnlyKeeps(live, false);
    T.OnlyKeeps(templates, true);
    T.OnlyKeeps(templates, false);
    if premium && E.PremiumGroup(live, [], templates, wt) != [] {
      T.PremiumGroupParts(live, [], templates, wt);
      NodesOfConcat(p + pt, q + qt);
      T.NodesOfSplit(p, pt);
      T.NodesOfSplit(q, qt);
    } else {
      T.NodesOfSplit(live, templates);
      T.NodesOfSplit(live, []);
      assert live + [] == live;
    }
  }

  /** The nodes of a group whose class has live ones are exactly these. */
  lemma NodesOfGroup(snap: Snapshot, region: string, sel: Selector, wt: bool, d: E.Draw)
    requires DistinctNames(snap) && IsShuffleDraw(d)
    requires E.AliveChoices(snap, region, sel.residential) != {}
    ensures multiset(T.NodesOf(E.Group(snap, region, sel, wt, d)))
         == multiset(E.AliveChoices(snap, region, sel.residential))
  {
    var live, dead := E.LiveNodes(snap, region, sel.residential, d), E.OfflineNodes(snap, region, sel.residential, d);
    var templates := E.TemplateList(snap, region, sel);
    T.GroupLists(snap, region, sel.residential, d);
    T.TemplateListPermutes(snap, region, sel);
    T.SameMultiset(live, E.AliveChoices(snap, region, sel.residential));
    T.SameMultiset(templates, E.TemplateChoices(snap, region, sel.residential));
    NodesOfMerged(live, templates, sel.premium, wt);
    T.PremiumFirstPermutes(live);
  }

  /** The nodes among the candidates begin with all live nodes of the request's own class. */
  lemma OwnNodesFirst(snap: Snapshot, region: string, sel: Selector, wt: bool, d: E.Draw)
    returns (own: Choices, rest: Choices)
    requires DistinctNames(snap) && IsShuffleDraw(d) && region != ""
    requires E.AliveChoices(snap, region, sel.residential) != {}
    ensures T.NodesOf(E.Candidates(snap, region, sel, wt, d)) == own + rest
    ensures multiset(own) == multiset(E.AliveChoices(snap, region, sel.residential))
  {
    var group := E.Group(snap, region, sel, wt, d);
    T.GroupMembers(snap, region, sel, wt, d);
    NodesOfGroup(snap, region, sel, wt, d);
    own, rest := T.NodesOf(group), [];
    if sel.premium && !sel.residential {
      var fallback := E.Group(snap, region, sel.(residential := true), wt, E.After(snap, region, sel, d));
      NodesOfConcat(group, fallback);
      rest := T.NodesOf(fallback);
    } else {
      assert own + rest == own;
    }
  }

  ghost predicate IsShuffleDraw(d: E.Draw) {
    E.IsShuffle(d.shuffle)
  }

  lemma ElementsCount(s: Choices)
    requires NoDuplicates(s)
    ensures |Elements(s)| == |s|
  {
    NoDuplicatesMultiset(s);
    assert |multiset(s)| == |s|;
    assert |multiset(Elements(s))| == |Elements(s)|;
  }

  lemma CountedTwice(s: Choices, i: nat, j: nat)
    requires i < j < |s| && s[i] == s[j]
    ensures multiset(s)[s[j]] >= 2
  {
    assert s == s[..j] + [s[j]] + s[j + 1..];
    assert s[i] == s[..j][i];
    assert s[j] in multiset(s[..j]);
  }

  lemma SetLikeHasNoDuplicates(s: Choices, S: set<Choice>)
    requires multiset(s) == multiset(S)
    ensures NoDuplicates(s) && Elements(s) == S
  {
    forall i, j | 0 <= i < j < |s|
      ensures s[i] != s[j]
    {
      if s[i] == s[j] {
        CountedTwice(s, i, j);
        assert false;
      }
    }
    T.SameMultiset(s, S);
  }

  /** Removing some of the elements that a list of distinct ones names. */
  lemma FewerLeft(A: set<Choice>, A': set<Choice>, killed: Choices)
    requires NoDuplicates(killed) && Elements(killed) <= A && A' <= A - Elements(killed)
    ensures |A'| <= |A| - |killed|
  {
    ElementsCount(killed);
    SubsetCount(A', A - Elements(killed));
  }

  lemma SubsetCount(A: set<Choice>, B: set<Choice>)
    requires A <= B
    ensures |A| <= |B|
  {
    assert B == A + (B - A);
  }

  /** How many live nodes the class has. */
  ghost function LiveCount(snap: Snapshot, region: string, residential: bool): nat {
    |E.AliveChoices(snap, region, residential)|
  }

  function Left(n: nat, max: nat): nat {
    if n <= max then 0 else n - max
  }

  /** The first `max` of the class's own live nodes are among those the request reports. */
  lemma OwnNodesReported(snap: Snapshot, region: string, sel: Selector, s: Settings, d: E.Draw)
    returns (killed: Choices)
    requires DistinctNames(snap) && IsShuffleDraw(d) && region != "" && s.maxAttempts >= 1
    requires E.AliveChoices(snap, region, sel.residential) != {}
    ensures killed <= T.NodesOf(AttemptList(E.Candidates(snap, region, sel, s.templateFallback, d), s, sel.premium))
    ensures NoDuplicates(killed) && Elements(killed) <= E.AliveChoices(snap, region, sel.residential)
    ensures var n := |E.AliveChoices(snap, region, sel.residential)|;
            |killed| == if n <= s.maxAttempts then n else s.maxAttempts
  {
    var cs := E.Candidates(snap, region, sel, s.templateFallback, d);
    var own, rest := OwnNodesFirst(snap, region, sel, s.templateFallback, d);
    SetLikeHasNoDuplicates(own, E.AliveChoices(snap, region, sel.residential));
    NodesAttempted(cs, |cs|, s, sel.premium);
    assert cs[..|cs|] == cs;
    killed := Take(own, s.maxAttempts);
    ElementsCount(own);
    assert killed <= own;
    forall c | c in Elements(killed)
      ensures c in Elements(own)
    {
      var i :| 0 <= i < |killed| && killed[i] == c;
      assert own[i] == c;
    }
  }

  lemma PrefixIsNamed(killed: Choices, dead: Choices, c: Choice)
    requires killed <= dead && c in killed
    ensures Named(dead, c)
  {
    var i :| 0 <= i < |killed| && killed[i] == c;
    assert dead[i] == c;
  }

  /** One failed request leaves `maxAttempts` fewer live nodes in its class, or none. */
  lemma RequestKills(snap: Snapshot, region: string, sel: Selector, s: Settings, d: E.Draw)
    requires DistinctNames(snap) && Reachable(snap, region, sel.residential) && IsShuffleDraw(d)
    requires region != "" && s.maxAttempts >= 1
    ensures var now := AfterFailedRequest(snap, region, sel, s, d);
            DistinctNames(now) && Reachable(now, region, sel.residential) &&
            LiveCount(now, region, sel.residential) <= Left(LiveCount(snap, region, sel.residential), s.maxAttempts)
  {
    var dead := T.NodesOf(AttemptList(E.Candidates(snap, region, sel, s.templateFallback, d), s, sel.premium));
    var A := E.AliveChoices(snap, region, sel.residential);
    var A' := E.AliveChoices(MarkAll(snap, dead), region, sel.residential);
    SurvivorsAreUnnamed(snap, dead, region, sel.residential);
    if A == {} {
      assert A' == {};
    } else {
      var killed := OwnNodesReported(snap, region, sel, s, d);
      forall c | c in A'
        ensures c in A - Elements(killed)
      {
        if c in killed {
          PrefixIsNamed(killed, dead, c);
        }
      }
      FewerLeft(A, A', killed);
    }
  }

  /** `left` of `n` after `k` requests: each took `max`, or nothing is left. */
  predicate Spent(n: nat, left: nat, max: nat, k: nat) {
    left == 0 || left + k * max <= n
  }

  lemma SpentNext(n: nat, left: nat, left': nat, max: nat, k: nat)
    requires Spent(n, left, max, k) && left' <= Left(left, max)
    ensures Spent(n, left', max, k + 1)
  {
    assert (k + 1) * max == k * max + max;
  }

  /** A request with everything that decides its course. */
  datatype Call = Call(o: Options, d: E.Draw, oracle: nat -> Outcome)

  /** The pools after a run of requests, with no probe in between. */
  ghost function AfterCalls(snap: Snapshot, s: Settings, calls: seq<Call>): Snapshot {
    if calls == [] then snap
    else
      var last := calls[|calls| - 1];
      AfterRequest(AfterCalls(snap, s, calls[..|calls| - 1]), last.o, s, last.d, last.oracle)
  }

  /** A request for the region and class whose attempts through nodes all fail. */
  ghost predicate Fails(snap: Snapshot, region: string, residential: bool, s: Settings, call: Call) {
    call.o.region == RegionRequest.Named(region) && call.o.residential == residential && IsShuffleDraw(call.d) &&
    NodesFail(AttemptsFor(snap, region, Selector(residential, call.o.premium), s, call.d), call.oracle)
  }

  /** Every request of the run does, on the pools it finds; each may have its own strategy, premium
      preference, counters and random order, and may in the end be answered by a template. */
  ghost predicate AllFail(snap: Snapshot, region: string, residential: bool, s: Settings, calls: seq<Call>) {
    calls == [] ||
    (AllFail(snap, region, residential, s, calls[..|calls| - 1]) &&
     Fails(AfterCalls(snap, s, calls[..|calls| - 1]), region, residential, s, calls[|calls| - 1]))
  }

  lemma CallKills(snap: Snapshot, region: string, residential: bool, s: Settings, call: Call)
    requires DistinctNames(snap) && Reachable(snap, region, residential) && region != "" && s.maxAttempts >= 1
    requires Fails(snap, region, residential, s, call)
    ensures var now := AfterRequest(snap, call.o, s, call.d, call.oracle);
            DistinctNames(now) && Reachable(now, region, residential) &&
            LiveCount(now, region, residential) <= Left(LiveCount(snap, region, residential), s.maxAttempts)
  {
    NamedRequestMarks(snap, call.o, s, call.d, call.oracle);
    RequestKills(snap, region, Selector(residential, call.o.premium), s, call.d);
  }

  /** Every request of the run takes its share of the live nodes. */
  lemma {:induction false} FailedRequestsKill(snap: Snapshot, region: string, residential: bool, s: Settings,
                                              calls: seq<Call>)
    requires DistinctNames(snap) && Reachable(snap, region, residential) && region != "" && s.maxAttempts >= 1
    requires AllFail(snap, region, residential, s, calls)
    ensures var now := AfterCalls(snap, s, calls);
            DistinctNames(now) && Reachable(now, region, residential) &&
            Spent(LiveCount(snap, region, residential), LiveCount(now, region, residential), s.maxAttempts, |calls|)
  {
    if calls != [] {
      var k := |calls| - 1;
      var before := AfterCalls(snap, s, calls[..k]);
      FailedRequestsKill(snap, region, residential, s, calls[..k]);
      CallKills(before, region, residential, s, calls[k]);
      SpentNext(LiveCount(snap, region, residential), LiveCount(before, region, residential),
                LiveCount(AfterCalls(snap, s, calls), region, residential), s.maxAttempts, k);
    }
  }

  /** With `n` live nodes in the class and no probe in between, enough requests whose attempts through
      nodes all fail, that is ceil(n / maxAttempts), leave none alive. */
  lemma FailedRequestsKillAll(snap: Snapshot, region: string, residential: bool, s: Settings, calls: seq<Call>)
    requires DistinctNames(snap) && Reachable(snap, region, residential) && region != "" && s.maxAttempts >= 1
    requires AllFail(snap, region, residential, s, calls)
    requires LiveCount(snap, region, residential) <= |calls| * s.maxAttempts
    ensures E.AliveChoices(AfterCalls(snap, s, calls), region, residential) == {}
  {
    FailedRequestsKill(snap, region, residential, s, calls);
  }
}
