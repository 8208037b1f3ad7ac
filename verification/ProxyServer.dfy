/** One proxy request (internal/server/server.go): the route is resolved to a list of candidates,
    the list is cut to the attempts, and the attempts are tried in turn.

    The outcome of an attempt comes from an oracle, so the theorems hold for every behaviour of
    the network. */
module ProxyServer {
  import opened Pools
  import E = Egress
  import T = EgressTheorems
  import M = EgressManager
  import opened Text
  import opened Wrappers

  type Choices = seq<Choice>

  /** The `region` of a request after trimming: empty, one of the words for "any", or a code; an
      invalid code is `Named("")`. */
  datatype RegionRequest = NoRegion | AnyRegion | Named(region: string)

  datatype Options = Options(region: RegionRequest, strategy: Strategy, residential: bool, premium: bool,
                             any: bool, maxLatencyMS: int)

  /** The route of a request; a direct route has no choices. */
  datatype Route = Route(direct: bool, any: bool, region: string, group: string, residential: bool, premium: bool,
                         choices: Choices)

  datatype Settings = Settings(maxAttempts: int, maxRedirects: int, templateFallback: bool)

  const DEFAULTS := Settings(5, 5, true)

  /** ValidateProxySettings, with the defaults where it fails. */
  function Validated(s: Settings): (r: Settings)
    ensures 1 <= r.maxAttempts <= 50 && 1 <= r.maxRedirects <= 50
    ensures 1 <= s.maxAttempts <= 50 && 1 <= s.maxRedirects <= 50 ==> r == s
    ensures s.maxAttempts > 50 || s.maxRedirects > 50 ==> r == Settings(5, 5, true)
    ensures s.maxAttempts <= 50 && s.maxRedirects <= 50 ==>
              r.templateFallback == s.templateFallback &&
              (s.maxAttempts <= 0 ==> r.maxAttempts == 5) &&
              (s.maxAttempts > 0 ==> r.maxAttempts == s.maxAttempts) &&
              (s.maxRedirects <= 0 ==> r.maxRedirects == 5) &&
              (s.maxRedirects > 0 ==> r.maxRedirects == s.maxRedirects)
  {
    var attempts := if s.maxAttempts <= 0 then DEFAULTS.maxAttempts else s.maxAttempts;
    var redirects := if s.maxRedirects <= 0 then DEFAULTS.maxRedirects else s.maxRedirects;
    if attempts > 50 || redirects > 50 then DEFAULTS else Settings(attempts, redirects, s.templateFallback)
  }

  /** ProxySettings: without a number of attempts, all settings are the defaults. */
  function Effective(s: Settings): (r: Settings)
    ensures 1 <= r.maxAttempts <= 50 && 1 <= r.maxRedirects <= 50
    ensures Validated(r) == r
    ensures s.maxAttempts <= 0 || s.maxAttempts > 50 || s.maxRedirects > 50 ==> r == Settings(5, 5, true)
    ensures 1 <= s.maxAttempts <= 50 && s.maxRedirects <= 50 ==>
              r.maxAttempts == s.maxAttempts && r.templateFallback == s.templateFallback
  {
    if s.maxAttempts <= 0 then DEFAULTS else Validated(s)
  }

  // ----- resolving the route -----

  /** selectAnyEgressCandidates: the candidates, and the class the route ends up with. */
  ghost function AnyCandidates(snap: Snapshot, sel: Selector, maxLatency: int, d: E.Draw): (Choices, bool) {
    var own := E.AnyGroup(snap, sel, maxLatency, d);
    var d' := d.(rr := E.AnyCounters(snap, sel.residential, maxLatency, d));
    var fallback := E.AnyGroup(snap, Selector(true, sel.premium), maxLatency, d');
    if own != [] then
      (if sel.premium && !sel.residential then own + fallback else own, sel.residential)
    else if !sel.residential then (fallback, true)
    else ([], sel.residential)
  }

  /** The round-robin counters it leaves. */
  ghost function AnyCandidateCounters(snap: Snapshot, sel: Selector, maxLatency: int, d: E.Draw): E.Counters {
    var d' := d.(rr := E.AnyCounters(snap, sel.residential, maxLatency, d));
    if !sel.residential && (sel.premium || E.AnyGroup(snap, sel, maxLatency, d) == [])
    then E.AnyCounters(snap, true, maxLatency, d')
    else d'.rr
  }

  function LatencyLimit(o: Options): int {
    if o.maxLatencyMS < 0 then 0 else o.maxLatencyMS
  }

  /** Whether a request goes out directly, without a pool. */
  predicate GoesDirect(o: Options) {
    o.region.NoRegion? && !o.any && !o.premium
  }

  /** resolveEgress; None is an error. */
  ghost function Resolved(snap: Snapshot, o: Options, fallback: bool, d: E.Draw): Option<Route> {
    var sel := Selector(o.residential, o.premium);
    if GoesDirect(o) then
      Some(Route(true, false, "", "DIRECT", false, false, []))
    else if !o.region.Named? then
      var (choices, residential) := AnyCandidates(snap, sel, LatencyLimit(o), d);
      if choices == [] then None
      else Some(Route(false, true, choices[0].region, E.AnyGroupOf(residential), residential, o.premium, choices))
    else
      var choices := E.Candidates(snap, o.region.region, sel, fallback, d);
      if choices == [] then None
      else Some(Route(false, false, o.region.region, choices[0].group, choices[0].residential, o.premium, choices))
  }

  /** The round-robin counters after it, also if it fails. */
  ghost function ResolvedCounters(snap: Snapshot, o: Options, fallback: bool, d: E.Draw): E.Counters {
    var sel := Selector(o.residential, o.premium);
    if GoesDirect(o) then d.rr
    else if !o.region.Named? then AnyCandidateCounters(snap, sel, LatencyLimit(o), d)
    else E.CandidateCounters(snap, o.region.region, sel, fallback, d)
  }

  // ----- cutting the candidates to the attempts -----

  /** Whether candidate `i` is attempted: a node if fewer than `maxAttempts` nodes precede it; a
      template unless there are nodes and the fallback is off, premium templates of a premium
      request excepted. */
  predicate Attempted(choices: Choices, i: nat, s: Settings, premium: bool)
    requires i < |choices|
  {
    if choices[i].template then
      T.NodesOf(choices) == [] || s.templateFallback || (premium && choices[i].premium)
    else
      |T.NodesOf(choices[..i])| < s.maxAttempts
  }

  /** The attempted ones among the first `n` candidates, in order. */
  function AttemptsUpTo(choices: Choices, n: nat, s: Settings, premium: bool): Choices
    requires n <= |choices|
  {
    if n == 0 then []
    else AttemptsUpTo(choices, n - 1, s, premium) +
         (if Attempted(choices, n - 1, s, premium) then [choices[n - 1]] else [])
  }

  function AttemptList(choices: Choices, s: Settings, premium: bool): Choices {
    AttemptsUpTo(choices, |choices|, s, premium)
  }

  /** The candidates that a request for a named region tries. */
  ghost function AttemptsFor(snap: Snapshot, region: string, sel: Selector, s: Settings, d: E.Draw): Choices {
    AttemptList(E.Candidates(snap, region, sel, s.templateFallback, d), s, sel.premium)
  }

  function Take(s: Choices, n: nat): Choices {
    if n <= |s| then s[..n] else s
  }

  function TemplatesOf(s: Choices): Choices {
    if s == [] then []
    else if s[0].template then [s[0]] + TemplatesOf(s[1..])
    else TemplatesOf(s[1..])
  }

  lemma {:induction false} NodesOfConcat(s: Choices, t: Choices)
    ensures T.NodesOf(s + t) == T.NodesOf(s) + T.NodesOf(t)
  {
    if s == [] {
      assert s + t == t;
    } else {
      NodesOfConcat(s[1..], t);
      assert (s + t)[1..] == s[1..] + t && (s + t)[0] == s[0];
      if !s[0].template {
        assert [s[0]] + (T.NodesOf(s[1..]) + T.NodesOf(t)) == ([s[0]] + T.NodesOf(s[1..])) + T.NodesOf(t);
      }
    }
  }

  lemma NodesOfSnoc(s: Choices, i: nat)
    requires i < |s|
    ensures T.NodesOf(s[..i + 1]) == T.NodesOf(s[..i]) + (if s[i].template then [] else [s[i]])
  {
    NodesOfConcat(s[..i], [s[i]]);
    assert s[..i + 1] == s[..i] + [s[i]];
    assert [s[i]][1..] == [];
  }

  /** proxyAttemptRoutes, for a route with candidates */
  method ProxyAttemptRoutes(choices: Choices, settings: Settings, premium: bool) returns (routes: Choices)
    ensures routes == AttemptList(choices, Validated(settings), premium)
  {
    var s := Validated(settings);
    var hasNodeChoice := false;
    for i := 0 to |choices|
      invariant hasNodeChoice <==> T.NodesOf(choices[..i]) != []
    {
      NodesOfSnoc(choices, i);
      if !choices[i].template {
        hasNodeChoice := true;
      }
    }
    assert choices[..|choices|] == choices;
    routes := [];
    var nodeAttempts := 0;
    for i := 0 to |choices|
      invariant routes == AttemptsUpTo(choices, i, s, premium)
      invariant nodeAttempts == |Take(T.NodesOf(choices[..i]), s.maxAttempts)|
    {
      NodesOfSnoc(choices, i);
      var choice := choices[i];
      if choice.template {
        if hasNodeChoice && !s.templateFallback && !(premium && choice.premium) {
          continue;
        }
      } else {
        if nodeAttempts >= s.maxAttempts {
          continue;
        }
        nodeAttempts := nodeAttempts + 1;
      }
      routes := routes + [choice];
    }
  }

  /** The attempts contain exactly the first `maxAttempts` nodes, in their order. */
  lemma {:induction false} NodesAttempted(choices: Choices, n: nat, s: Settings, premium: bool)
    requires n <= |choices| && s.maxAttempts >= 1
    ensures T.NodesOf(AttemptsUpTo(choices, n, s, premium)) == Take(T.NodesOf(choices[..n]), s.maxAttempts)
  {
    if n > 0 {
      NodesAttempted(choices, n - 1, s, premium);
      NodesOfSnoc(choices, n - 1);
      var last := if Attempted(choices, n - 1, s, premium) then [choices[n - 1]] else [];
      NodesOfConcat(AttemptsUpTo(choices, n - 1, s, premium), last);
      assert last != [] ==> last[1..] == [];
    }
  }

  lemma {:induction false} TemplatesOfConcat(s: Choices, t: Choices)
    ensures TemplatesOf(s + t) == TemplatesOf(s) + TemplatesOf(t)
  {
    if s == [] {
      assert s + t == t;
    } else {
      TemplatesOfConcat(s[1..], t);
      assert (s + t)[1..] == s[1..] + t && (s + t)[0] == s[0];
      if s[0].template {
        assert [s[0]] + (TemplatesOf(s[1..]) + TemplatesOf(t)) == ([s[0]] + TemplatesOf(s[1..])) + TemplatesOf(t);
      }
    }
  }

  lemma TemplatesOfSnoc(s: Choices, c: Choice)
    ensures TemplatesOf(s + [c]) == TemplatesOf(s) + (if c.template then [c] else [])
  {
    TemplatesOfConcat(s, [c]);
    assert [c][1..] == [];
  }

  /** With the fallback on, or without nodes, every template is attempted. */
  lemma {:induction false} TemplatesAttempted(choices: Choices, n: nat, s: Settings, premium: bool)
    requires n <= |choices| && (s.templateFallback || T.NodesOf(choices) == [])
    ensures TemplatesOf(AttemptsUpTo(choices, n, s, premium)) == TemplatesOf(choices[..n])
  {
    if n > 0 {
      var c := choices[n - 1];
      TemplatesAttempted(choices, n - 1, s, premium);
      TemplatesOfSnoc(AttemptsUpTo(choices, n - 1, s, premium), c);
      TemplatesOfSnoc(choices[..n - 1], c);
      assert choices[..n] == choices[..n - 1] + [c];
      assert AttemptsUpTo(choices, n - 1, s, premium) + [] == AttemptsUpTo(choices, n - 1, s, premium);
    }
  }

  /** The attempts keep the order of the candidates: they are those at increasing positions. */
  lemma {:induction false} AttemptsKeepOrder(choices: Choices, n: nat, s: Settings, premium: bool)
    returns (at: seq<nat>)
    requires n <= |choices|
    ensures var r := AttemptsUpTo(choices, n, s, premium);
            |at| == |r| && (forall j :: 0 <= j < |r| ==> at[j] < n && r[j] == choices[at[j]]) &&
            (forall i, j :: 0 <= i < j < |r| ==> at[i] < at[j])
  {
    at := [];
    if n > 0 {
      at := AttemptsKeepOrder(choices, n - 1, s, premium);
      if Attempted(choices, n - 1, s, premium) {
        at := at + [n - 1];
      }
    }
  }

  // ----- trying the attempts -----

  /** The outcome of one attempt.  An error is retryable if it is an attempt error and the request
      has not been cancelled; the request may be cancelled between the two places where the code
      asks. */
  datatype Outcome = Ok | Fatal | Retryable | RetryableThenCancelled

  /** The attempt where the loop stops: the first that is not plainly retryable, or the last. */
  function StopsAt(oracle: nat -> Outcome, n: nat, k: nat): (r: nat)
    requires k < n
    ensures k <= r < n
    decreases n - k
  {
    if k + 1 == n || oracle(k) != Retryable then k else StopsAt(oracle, n, k + 1)
  }

  lemma {:induction false} StopsAtFirst(oracle: nat -> Outcome, n: nat, k: nat)
    requires k < n
    ensures var r := StopsAt(oracle, n, k);
            (forall j :: k <= j < r ==> oracle(j) == Retryable) && (r + 1 < n ==> oracle(r) != Retryable)
    decreases n - k
  {
    if k + 1 < n && oracle(k) == Retryable {
      StopsAtFirst(oracle, n, k + 1);
    }
  }

  /** Whether a failed attempt reports its node. */
  predicate Reports(attempt: Option<Choice>, outcome: Outcome) {
    (outcome == Retryable || outcome == RetryableThenCancelled) && attempt.Some? && !attempt.value.template
  }

  /** The nodes that the first `k` attempts report as dead; `None` is the direct route. */
  function Reported(attempts: seq<Option<Choice>>, oracle: nat -> Outcome, k: nat): Choices
    requires k <= |attempts|
  {
    if k == 0 then []
    else Reported(attempts, oracle, k - 1) +
         (if Reports(attempts[k - 1], oracle(k - 1)) then [attempts[k - 1].value] else [])
  }

  function MarkAll(snap: Snapshot, dead: Choices): Snapshot {
    if dead == [] then snap
    else
      var last := dead[|dead| - 1];
      MarkNode(MarkAll(snap, dead[..|dead| - 1]), last.pool, last.node)
  }

  function ProxyAttempts(route: Route, s: Settings): seq<Option<Choice>> {
    if route.choices == [] then [None]
    else
      var list := AttemptList(route.choices, s, route.premium);
      seq(|list|, i requires 0 <= i < |list| => Some(list[i]))
  }

  function AfterReport(snap: Snapshot, attempt: Option<Choice>, outcome: Outcome): Snapshot {
    if Reports(attempt, outcome) then MarkNode(snap, attempt.value.pool, attempt.value.node) else snap
  }

  /** The loop from attempt `k` on: its result and the pools it leaves. */
  function Tried(now: Snapshot, attempts: seq<Option<Choice>>, oracle: nat -> Outcome, k: nat): (Result, Snapshot)
    requires k < |attempts|
    decreases |attempts| - k
  {
    var now' := AfterReport(now, attempts[k], oracle(k));
    if oracle(k) == Ok then (Responded(k), now)
    else if k + 1 == |attempts| || oracle(k) != Retryable then (Failed(k + 1), now')
    else Tried(now', attempts, oracle, k + 1)
  }

  lemma MarkAllNext(snap: Snapshot, attempts: seq<Option<Choice>>, oracle: nat -> Outcome, k: nat)
    requires k < |attempts|
    ensures MarkAll(snap, Reported(attempts, oracle, k + 1))
         == AfterReport(MarkAll(snap, Reported(attempts, oracle, k)), attempts[k], oracle(k))
  {
    var dead := Reported(attempts, oracle, k);
    if Reports(attempts[k], oracle(k)) {
      assert (dead + [attempts[k].value])[..|dead|] == dead;
    } else {
      assert dead + [] == dead;
    }
  }

  /** The loop stops at the first attempt that is not plainly retryable, and marks exactly the
      nodes reported up to there. */
  lemma {:induction false} TriedMeans(snap: Snapshot, attempts: seq<Option<Choice>>, oracle: nat -> Outcome, k: nat)
    requires k < |attempts|
    ensures var stop := StopsAt(oracle, |attempts|, k);
            Tried(MarkAll(snap, Reported(attempts, oracle, k)), attempts, oracle, k) ==
            (if oracle(stop) == Ok then Responded(stop) else Failed(stop + 1),
             MarkAll(snap, Reported(attempts, oracle, stop + 1)))
    decreases |attempts| - k
  {
    MarkAllNext(snap, attempts, oracle, k);
    if k + 1 < |attempts| && oracle(k) == Retryable {
      TriedMeans(snap, attempts, oracle, k + 1);
    }
  }

  /** handleProxy: what one request does to the pools. */
  ghost function AfterRequest(snap: Snapshot, o: Options, s: Settings, d: E.Draw, oracle: nat -> Outcome): Snapshot {
    match Resolved(snap, o, s.templateFallback, d)
    case None => snap
    case Some(route) => AfterRoute(snap, route, s, oracle)
  }

  ghost function AfterRoute(snap: Snapshot, route: Route, s: Settings, oracle: nat -> Outcome): Snapshot {
    var attempts := ProxyAttempts(route, s);
    if attempts == [] then snap
    else MarkAll(snap, Reported(attempts, oracle, StopsAt(oracle, |attempts|, 0) + 1))
  }

  /** handleProxy: what one request gets; None is a request without a route. */
  ghost function AnswerTo(snap: Snapshot, o: Options, s: Settings, d: E.Draw, oracle: nat -> Outcome): Option<Result> {
    match Resolved(snap, o, s.templateFallback, d)
    case None => None
    case Some(route) => AnswerOf(ProxyAttempts(route, s), oracle)
  }

  /** Only a request without a route gets no answer. */
  lemma AnswerExists(snap: Snapshot, o: Options, s: Settings, d: E.Draw, oracle: nat -> Outcome)
    requires s.maxAttempts >= 1
    ensures AnswerTo(snap, o, s, d, oracle).None? <==> Resolved(snap, o, s.templateFallback, d).None?
  {
    var route := Resolved(snap, o, s.templateFallback, d);
    if route.Some? && route.value.choices != [] {
      AttemptsExist(route.value.choices, s, route.value.premium);
    }
  }

  function AnswerOf(attempts: seq<Option<Choice>>, oracle: nat -> Outcome): Option<Result> {
    if attempts == [] then None
    else
      var stop := StopsAt(oracle, |attempts|, 0);
      Some(if oracle(stop) == Ok then Responded(stop) else Failed(stop + 1))
  }

  lemma TriedFromStart(snap: Snapshot, attempts: seq<Option<Choice>>, oracle: nat -> Outcome)
    requires attempts != []
    ensures var stop := StopsAt(oracle, |attempts|, 0);
            Tried(snap, attempts, oracle, 0) ==
            (if oracle(stop) == Ok then Responded(stop) else Failed(stop + 1),
             MarkAll(snap, Reported(attempts, oracle, stop + 1)))
  {
    TriedMeans(snap, attempts, oracle, 0);
  }

  lemma {:induction false} NoNodesAllTemplates(s: Choices)
    requires T.NodesOf(s) == []
    ensures TemplatesOf(s) == s
  {
    if s != [] {
      NoNodesAllTemplates(s[1..]);
      assert s == [s[0]] + s[1..];
    }
  }

  /** A route with candidates always has something to attempt. */
  lemma AttemptsExist(choices: Choices, s: Settings, premium: bool)
    requires choices != [] && s.maxAttempts >= 1
    ensures AttemptList(choices, s, premium) != []
  {
    assert choices[..|choices|] == choices;
    NodesAttempted(choices, |choices|, s, premium);
    if T.NodesOf(choices) == [] {
      NoNodesAllTemplates(choices);
      TemplatesAttempted(choices, |choices|, s, premium);
    }
  }

  datatype Result = Responded(attempt: nat) | Failed(tried: nat)

  class Server {
    const manager: M.Manager
    var settings: Settings

    constructor (manager: M.Manager, settings: Settings)
      ensures this.manager == manager && this.settings == settings
    {
      this.manager, this.settings := manager, settings;
    }

    /** selectAnyEgressCandidates */
    method SelectAny(ghost snap: Snapshot, strategy: Strategy, sel: Selector, maxLatency: int, shuffle: E.Shuffle)
      returns (choices: Choices, residential: bool)
      requires manager.Shows(snap) && DistinctNames(snap)
      modifies manager`rrByGroup
      ensures manager.Shows(snap)
      ensures var d := E.Draw(strategy, old(manager.rrByGroup), shuffle);
              (choices, residential) == AnyCandidates(snap, sel, maxLatency, d) &&
              manager.rrByGroup == AnyCandidateCounters(snap, sel, maxLatency, d)
    {
      choices := manager.SelectAnyEgressCandidates(snap, strategy, sel, maxLatency, shuffle);
      if choices != [] {
        if sel.premium && !sel.residential {
          var more := manager.SelectAnyEgressCandidates(snap, strategy, sel.(residential := true), maxLatency, shuffle);
          choices := choices + more;
        }
        return choices, sel.residential;
      }
      if !sel.residential {
        choices := manager.SelectAnyEgressCandidates(snap, strategy, sel.(residential := true), maxLatency, shuffle);
        return choices, true;
      }
      return [], sel.residential;
    }

    /** resolveEgress */
    method ResolveEgress(ghost snap: Snapshot, o: Options, shuffle: E.Shuffle) returns (route: Option<Route>)
      requires manager.Shows(snap) && DistinctNames(snap)
      modifies manager`rrByGroup
      ensures manager.Shows(snap)
      ensures var d := E.Draw(o.strategy, old(manager.rrByGroup), shuffle);
              route == Resolved(snap, o, Effective(settings).templateFallback, d) &&
              manager.rrByGroup == ResolvedCounters(snap, o, Effective(settings).templateFallback, d)
    {
      var sel := Selector(o.residential, o.premium);
      var maxLatency := if o.maxLatencyMS < 0 then 0 else o.maxLatencyMS;
      if o.region.NoRegion? && !o.any && !o.premium {
        return Some(Route(true, false, "", "DIRECT", false, false, []));
      }
      if !o.region.Named? {
        var choices, residential := SelectAny(snap, o.strategy, sel, maxLatency, shuffle);
        if choices == [] {
          return None;
        }
        return Some(Route(false, true, choices[0].region, E.AnyGroupOf(residential), residential, o.premium, choices));
      }
      var choices := manager.SelectEgressCandidates(snap, o.region.region, o.strategy, sel,
                                                    Effective(settings).templateFallback, shuffle);
      if choices == [] {
        return None;
      }
      return Some(Route(false, false, o.region.region, choices[0].group, choices[0].residential, o.premium, choices));
    }

    /** markAttemptNodeUnavailable, under its guard */
    method ReportFailure(ghost snap: Snapshot, attempt: Option<Choice>, outcome: Outcome)
      requires manager.Valid() && manager.Shows(snap)
      modifies manager.nodes
      ensures manager.Valid() && manager.Shows(AfterReport(snap, attempt, outcome))
    {
      if outcome == Retryable || outcome == RetryableThenCancelled {
        if attempt.None? || attempt.value.template {
          return;
        }
        var _ := manager.MarkNodeUnavailable(snap, attempt.value.pool, attempt.value.node);
      }
    }

    /** doProxyWithRetry: tries the attempts in order up to the first success or fatal error, and
        reports exactly the nodes whose attempt failed retryably. */
    method DoProxyWithRetry(ghost snap: Snapshot, route: Route, oracle: nat -> Outcome) returns (result: Result)
      requires manager.Valid() && manager.Shows(snap)
      modifies manager.nodes
      ensures var attempts := ProxyAttempts(route, Effective(settings));
              attempts != [] &&
              var stop := StopsAt(oracle, |attempts|, 0);
              result == (if oracle(stop) == Ok then Responded(stop) else Failed(stop + 1)) &&
              manager.Valid() && manager.Shows(MarkAll(snap, Reported(attempts, oracle, stop + 1)))
    {
      var attempts: seq<Option<Choice>> := [None];
      if route.choices != [] {
        var list := ProxyAttemptRoutes(route.choices, Effective(settings), route.premium);
        attempts := seq(|list|, i requires 0 <= i < |list| => Some(list[i]));
        AttemptsExist(route.choices, Effective(settings), route.premium);
      }
      assert attempts == ProxyAttempts(route, Effective(settings));
      ghost var final;
      TriedFromStart(snap, attempts, oracle);
      result, final := TryInTurn(snap, attempts, oracle);
    }

    /** handleProxy, between its checks and its answer: the route, then the attempts.  None is a
        request without a route. */
    method HandleProxy(ghost snap: Snapshot, o: Options, shuffle: E.Shuffle, oracle: nat -> Outcome)
      returns (result: Option<Result>)
      requires manager.Valid() && manager.Shows(snap) && DistinctNames(snap)
      modifies manager`rrByGroup, manager.nodes
      ensures var d := E.Draw(o.strategy, old(manager.rrByGroup), shuffle);
              manager.Valid() && manager.Shows(AfterRequest(snap, o, Effective(settings), d, oracle)) &&
              manager.rrByGroup == ResolvedCounters(snap, o, Effective(settings).templateFallback, d) &&
              result == AnswerTo(snap, o, Effective(settings), d, oracle)
    {
      var route := ResolveEgress(snap, o, shuffle);
      if route.None? {
        return None;
      }
      var answer := DoProxyWithRetry(snap, route.value, oracle);
      return Some(answer);
    }

    /** doProxyWithRetry's loop over the attempts. */
    method TryInTurn(ghost snap: Snapshot, attempts: seq<Option<Choice>>, oracle: nat -> Outcome)
      returns (result: Result, ghost final: Snapshot)
      requires manager.Valid() && manager.Shows(snap) && attempts != []
      modifies manager.nodes
      ensures (result, final) == Tried(snap, attempts, oracle, 0)
      ensures manager.Valid() && manager.Shows(final)
    {
      var idx := 0;
      final := snap;
      while true
        modifies manager.nodes
        invariant 0 <= idx < |attempts|
        invariant Tried(snap, attempts, oracle, 0) == Tried(final, attempts, oracle, idx)
        invariant manager.Valid() && manager.Shows(final)
        decreases |attempts| - idx
      {
        var attempt, outcome := attempts[idx], oracle(idx);
        if outcome == Ok {
          return Responded(idx), final;
        }
        ReportFailure(final, attempt, outcome);
        final := AfterReport(final, attempt, outcome);
        if idx + 1 >= |attempts| || outcome != Retryable {
          return Failed(idx + 1), final;
        }
        idx := idx + 1;
      }
    }
  }

  // ----- what a request does to the pools -----

  /** `c` names this entry, and the entry can be marked. */
  predicate Hits(c: Choice, n: string, e: EntryState) {
    c.pool == n && c.node == e.name && !e.direct && TrimSpace(n) != "" && TrimSpace(e.name) != ""
  }

  function HitCount(dead: Choices, n: string, e: EntryState): nat {
    if dead == [] then 0
    else HitCount(dead[..|dead| - 1], n, e) + (if Hits(dead[|dead| - 1], n, e) then 1 else 0)
  }

  /** An entry after `k` marks. */
  function AfterMarks(e: EntryState, k: nat): EntryState {
    e.(alive := e.alive && k == 0, failCount := e.failCount + k)
  }

  lemma MarkNodeChangesOnly(snap: Snapshot, c: Choice, n: string, i: nat)
    requires DistinctNames(snap) && n in snap && i < |snap[n].entries|
    ensures var snap' := MarkNode(snap, c.pool, c.node);
            snap'.Keys == snap.Keys && snap'[n].config == snap[n].config && |snap'[n].entries| == |snap[n].entries| &&
            var e := snap[n].entries[i]; snap'[n].entries[i] == if Hits(c, n, e) then Marked(e) else e
  {
    if c.pool == n {
      var es := snap[n].entries;
      var j := Find(es, c.node);
      assert es[i].name == c.node ==> j == i;
    }
  }

  /** A pool before and after the marks: only the named entries changed, and only as marks do. */
  ghost predicate MarkedExactly(before: PoolState, now: PoolState, n: string, dead: Choices) {
    now.config == before.config && |now.entries| == |before.entries| &&
    forall i :: 0 <= i < |before.entries| ==>
      now.entries[i] == AfterMarks(before.entries[i], HitCount(dead, n, before.entries[i]))
  }

  /** Marking kills exactly the named nodes that are not direct: every other entry, and every other
      field of these, stays as it was. */
  lemma {:induction false} MarkAllChangesExactly(snap: Snapshot, dead: Choices)
    requires DistinctNames(snap)
    ensures var now := MarkAll(snap, dead);
            now.Keys == snap.Keys && DistinctNames(now) &&
            forall n :: n in snap ==> MarkedExactly(snap[n], now[n], n, dead)
  {
    if dead != [] {
      var front, last := dead[..|dead| - 1], dead[|dead| - 1];
      MarkAllChangesExactly(snap, front);
      var mid := MarkAll(snap, front);
      forall n | n in snap
        ensures MarkNode(mid, last.pool, last.node).Keys == snap.Keys
        ensures MarkedExactly(snap[n], MarkNode(mid, last.pool, last.node)[n], n, dead)
      {
        MarkOneMore(snap[n], mid, n, front, last);
      }
    }
  }

  lemma MarkOneMore(before: PoolState, mid: Snapshot, n: string, front: Choices, last: Choice)
    requires DistinctNames(mid) && n in mid && MarkedExactly(before, mid[n], n, front)
    ensures var now := MarkNode(mid, last.pool, last.node);
            now.Keys == mid.Keys && MarkedExactly(before, now[n], n, front + [last])
  {
    var now := MarkNode(mid, last.pool, last.node);
    assert (front + [last])[..|front|] == front;
    forall i | 0 <= i < |before.entries|
      ensures now.Keys == mid.Keys && now[n].config == before.config && |now[n].entries| == |before.entries|
      ensures now[n].entries[i] == AfterMarks(before.entries[i], HitCount(front + [last], n, before.entries[i]))
    {
      MarkNodeChangesOnly(mid, last, n, i);
      assert Hits(last, n, mid[n].entries[i]) == Hits(last, n, before.entries[i]);
    }
  }
}
