/** What a gateway sends on, and when (internal/server/server.go, doRemoteChijieProxy and
    doProxyWithRetry): every message of a call tree is described by the request and the template that
    caused it. */
module ForwardMeaning {
  import opened Pools
  import opened Text
  import opened Wrappers
  import opened ProxyServer
  import opened ChijieForwarding
  import E = Egress
  import T = EgressTheorems
  import R = RouteMeaning
  import EM = EgressMeaning

  // ----- the route of a call -----

  /** How a gateway routes the request that reaches it depends on the request alone and its own pools. */
  lemma CallRoute(w: World, path: Path, req: Request)
    requires Lawful(w)
    ensures var route, region, pools := RouteOf(w, path, req), w.classify(req.region), w.pools(path);
            (route.Some? && route.value.direct <==> region == NoRegion && !req.any && !req.premium) &&
            (route.Some? ==> route.value.premium == (req.premium && !route.value.direct)) &&
            (region == AnyRegion || (region == NoRegion && (req.any || req.premium)) ==>
              (route.None? <==> !R.AnyEligible(pools, req.residential, req.maxLatencyMS) &&
                                (req.residential || !R.AnyEligible(pools, true, req.maxLatencyMS)))) &&
            (region.Named? && region.region != "" ==>
              (route.None? <==> !EM.HasSome(pools, region.region, req.residential) &&
                                (req.residential || !EM.HasSome(pools, region.region, true)))) &&
            (region == Named("") ==> route.None?)
  {
    var o, d := OptionsOf(w, req), w.draw(path).(strategy := req.strategy);
    var fallback := Effective(w.settings(path)).templateFallback;
    R.DirectIff(w.pools(path), o, fallback, d);
    if o.region.Named? {
      R.NamedRouteFailsIff(w.pools(path), o, fallback, d);
    } else if R.ForAny(o) {
      R.AnyRouteFailsIff(w.pools(path), o, fallback, d);
    }
  }

  /** The strategy of a call is that of its request: with least-latency, a request for any region tries
      its nodes by latency. */
  lemma CallStrategy(w: World, path: Path, req: Request)
    requires Lawful(w) && RouteOf(w, path, req).Some? && w.classify(req.region) == AnyRegion
    requires req.strategy == LeastLatency && !req.premium
    ensures EM.LatenciesSorted(RouteOf(w, path, req).value.choices)
  {
    var pools, limit := w.pools(path), LatencyLimit(OptionsOf(w, req));
    EM.AnyListIsSorted(pools, req.residential, limit);
    EM.AnyListIsSorted(pools, true, limit);
    AnyGroupByLatency(pools, Selector(req.residential, false), limit, w.draw(path).(strategy := LeastLatency));
    var d := w.draw(path).(strategy := LeastLatency);
    AnyGroupByLatency(pools, Selector(true, false), limit,
                      d.(rr := E.AnyCounters(pools, req.residential, limit, d)));
  }

  lemma AnyGroupByLatency(snap: Snapshot, sel: Selector, limit: int, d: E.Draw)
    requires DistinctNames(snap) && !sel.premium && d.strategy == LeastLatency
    ensures EM.LatenciesSorted(E.AnyGroup(snap, sel, limit, d))
  {
    T.AnyListLists(snap, sel.residential, limit);
    EM.LeastLatencyIsSorted(E.AnyList(snap, sel.residential, limit),
                            E.Count(d.rr, E.AnyGroupOf(sel.residential)), d.shuffle);
  }

  // ----- what is sent -----

  ghost function AttemptsOf(w: World, path: Path, req: Request): seq<Option<Choice>>
    requires RouteOf(w, path, req).Some?
  {
    ProxyAttempts(RouteOf(w, path, req).value, Effective(w.settings(path)))
  }

  predicate IsChijie(attempt: Option<Choice>) {
    attempt.Some? && attempt.value.template && attempt.value.chijie
  }

  /** What a request becomes when it goes to another gateway through template `c`: it is residential if
      and only if the template serves residential requests, premium if and only if the request or the
      template is, and for the template's region; the rest stays, the fingerprint without surrounding
      blanks. */
  predicate BecomesAt(req: Request, c: Choice, later: Request) {
    later.residential == c.residential && later.premium == (req.premium || c.premium) && later.region == c.region &&
    later.url == req.url && later.verb == req.verb && later.headers == req.headers && later.payload == req.payload &&
    later.followRedirects == req.followRedirects && later.strategy == req.strategy &&
    later.any == req.any && later.maxLatencyMS == req.maxLatencyMS &&
    later.fingerprint == (if TrimSpace(req.fingerprint) != "" then TrimSpace(req.fingerprint) else req.fingerprint)
  }

  /** The call with this request sends message `m`: one of its attempts is the template that `m` goes to. */
  ghost predicate Sends(w: World, path: Path, hop: nat, req: Request, m: Message) {
    w.accepts(path, req) && RouteOf(w, path, req).Some? &&
    exists k :: 0 <= k < |AttemptsOf(w, path, req)| && IsChijie(AttemptsOf(w, path, req)[k]) &&
      m.path == path + [k] && m.hop == hop + 1 <= 3 && BecomesAt(req, AttemptsOf(w, path, req)[k].value, m.req)
  }

  /** Every message is sent by the call itself or by the receiver of another message. */
  ghost predicate AllSent(w: World, path: Path, hop: nat, req: Request, log: seq<Message>) {
    forall m :: m in log ==>
      Sends(w, path, hop, req, m) || exists p :: p in log && Sends(w, p.path, p.hop, p.req, m)
  }

  lemma Attempted(w: World, path: Path, req: Request, k: nat)
    requires Lawful(w) && RouteOf(w, path, req).Some? && k < |AttemptsOf(w, path, req)|
    requires IsChijie(AttemptsOf(w, path, req)[k])
    ensures var c := AttemptsOf(w, path, req)[k].value;
            BecomesAt(req, c, Rewritten(req, RouteOf(w, path, req).value, c))
  {
    var route, s := RouteOf(w, path, req).value, Effective(w.settings(path));
    var c := AttemptsOf(w, path, req)[k].value;
    var at := AttemptsKeepOrder(route.choices, |route.choices|, s, route.premium);
    RouteChoices(w, path, req, c);
  }

  lemma SentConcat(w: World, path: Path, hop: nat, req: Request, a: seq<Message>, b: seq<Message>)
    requires AllSent(w, path, hop, req, a) && AllSent(w, path, hop, req, b)
    ensures AllSent(w, path, hop, req, a + b)
  {
    forall m | m in a + b
      ensures Sends(w, path, hop, req, m) || exists p :: p in a + b && Sends(w, p.path, p.hop, p.req, m)
    {
      if m in a && !Sends(w, path, hop, req, m) {
        var p :| p in a && Sends(w, p.path, p.hop, p.req, m);
        assert p in a + b;
      } else if m in b && !Sends(w, path, hop, req, m) {
        var p :| p in b && Sends(w, p.path, p.hop, p.req, m);
        assert p in a + b;
      }
    }
  }

  /** The receiver's messages, behind the message that it received. */
  lemma SentBelow(w: World, path: Path, hop: nat, req: Request, first: Message, caused: seq<Message>)
    requires Sends(w, path, hop, req, first) && AllSent(w, first.path, first.hop, first.req, caused)
    ensures AllSent(w, path, hop, req, [first] + caused)
  {
    var log := [first] + caused;
    forall m | m in log
      ensures Sends(w, path, hop, req, m) || exists p :: p in log && Sends(w, p.path, p.hop, p.req, m)
    {
      if m != first {
        assert m in caused && first in log;
        if !Sends(w, first.path, first.hop, first.req, m) {
          var p :| p in caused && Sends(w, p.path, p.hop, p.req, m);
          assert p in log;
        }
      }
    }
  }

  /** Every message of a call tree is what its sender's request becomes at the template that the sender
      attempts.  So a message turns residential only at a residential template and premium only at a
      premium one, and a normal request to a normal template stays normal. */
  lemma {:induction false} EveryMessageIsSent(w: World, path: Path, hop: nat, req: Request)
    requires Lawful(w)
    ensures AllSent(w, path, hop, req, Handle(w, path, hop, req).1)
    decreases HopsLeft(hop), 1, 0
  {
    if hop < MAX_HOPS && w.accepts(path, req) && RouteOf(w, path, req).Some? {
      AttemptsAreSent(w, path, hop, req, 0);
      HandleIs(w, path, hop, req, AttemptsOf(w, path, req));
    }
  }

  lemma {:induction false} AttemptsAreSent(w: World, path: Path, hop: nat, req: Request, k: nat)
    requires Lawful(w) && hop < MAX_HOPS && w.accepts(path, req) && RouteOf(w, path, req).Some?
    requires k <= |AttemptsOf(w, path, req)|
    ensures AllSent(w, path, hop, req,
                    Attempts(w, path, hop, req, RouteOf(w, path, req).value, AttemptsOf(w, path, req), k).1)
    decreases HopsLeft(hop), 0, |AttemptsOf(w, path, req)| - k
  {
    var route, attempts := RouteOf(w, path, req).value, AttemptsOf(w, path, req);
    if k < |attempts| {
      AttemptIsSent(w, path, hop, req, k);
      AttemptsAreSent(w, path, hop, req, k + 1);
      SentConcat(w, path, hop, req, Attempt(w, path + [k], hop, req, route, attempts[k]).1,
                 Attempts(w, path, hop, req, route, attempts, k + 1).1);
    }
  }

  lemma {:induction false} AttemptIsSent(w: World, path: Path, hop: nat, req: Request, k: nat)
    requires Lawful(w) && hop < MAX_HOPS && w.accepts(path, req) && RouteOf(w, path, req).Some?
    requires k < |AttemptsOf(w, path, req)|
    ensures AllSent(w, path, hop, req,
                    Attempt(w, path + [k], hop, req, RouteOf(w, path, req).value, AttemptsOf(w, path, req)[k]).1)
    decreases HopsLeft(hop), 0, 0
  {
    var route, attempt, call := RouteOf(w, path, req).value, AttemptsOf(w, path, req)[k], path + [k];
    if IsChijie(attempt) && w.net(call) != NotSent {
      var forward := Rewritten(req, route, attempt.value);
      var first := Message(call, hop + 1, forward);
      Attempted(w, path, req, k);
      assert Sends(w, path, hop, req, first);
      EveryMessageIsSent(w, call, hop + 1, forward);
      AttemptForwards(w, call, hop, req, route, attempt);
      SentBelow(w, path, hop, req, first, Handle(w, call, hop + 1, forward).1);
    } else {
      assert Attempt(w, call, hop, req, route, attempt).1 == [];
    }
  }

  // ----- when it is sent -----

  /** Attempt `k` fails in a way that lets the next attempt follow: a retryable error of a node; a message
      that never left or whose answer was lost; or an answer that reports an error of the other gateway. */
  ghost predicate FailsOver(w: World, path: Path, hop: nat, req: Request, k: nat)
    requires hop < MAX_HOPS && RouteOf(w, path, req).Some? && k < |AttemptsOf(w, path, req)|
  {
    var attempt, call := AttemptsOf(w, path, req)[k], path + [k];
    if !IsChijie(attempt) then w.node(call) == Retryable
    else
      w.net(call) == NotSent || w.net(call) == AnswerLost ||
      (w.net(call) == Delivered && !Forwarded(w, path, hop, req, k).0)
  }

  /** Attempt `k` answers the request: a node does, or the other gateway answers without an error. */
  ghost predicate Succeeds(w: World, path: Path, hop: nat, req: Request, k: nat)
    requires hop < MAX_HOPS && RouteOf(w, path, req).Some? && k < |AttemptsOf(w, path, req)|
  {
    var attempt, call := AttemptsOf(w, path, req)[k], path + [k];
    if !IsChijie(attempt) then w.node(call) == Ok
    else w.net(call) == Delivered && Forwarded(w, path, hop, req, k).0
  }

  /** What the other gateway does with the request that attempt `k` sends. */
  ghost function Forwarded(w: World, path: Path, hop: nat, req: Request, k: nat): (bool, seq<Message>)
    requires hop < MAX_HOPS && RouteOf(w, path, req).Some? && k < |AttemptsOf(w, path, req)|
    requires IsChijie(AttemptsOf(w, path, req)[k])
  {
    Handle(w, path + [k], hop + 1, Rewritten(req, RouteOf(w, path, req).value, AttemptsOf(w, path, req)[k].value))
  }

  ghost predicate AllFailOver(w: World, path: Path, hop: nat, req: Request, k: nat, n: nat)
    requires hop < MAX_HOPS && RouteOf(w, path, req).Some? && n <= |AttemptsOf(w, path, req)|
  {
    forall j :: k <= j < n ==> FailsOver(w, path, hop, req, j)
  }

  ghost predicate HasMessage(log: seq<Message>, path: Path) {
    exists m :: m in log && m.path == path
  }

  lemma AttemptMeans(w: World, path: Path, hop: nat, req: Request, k: nat)
    requires Lawful(w) && hop < MAX_HOPS && RouteOf(w, path, req).Some? && k < |AttemptsOf(w, path, req)|
    ensures var attempt := AttemptsOf(w, path, req)[k];
            var (outcome, log) := Attempt(w, path + [k], hop, req, RouteOf(w, path, req).value, attempt);
            (outcome == Ok <==> Succeeds(w, path, hop, req, k)) &&
            (outcome == Retryable <==> FailsOver(w, path, hop, req, k)) &&
            (HasMessage(log, path + [k]) <==> IsChijie(attempt) && w.net(path + [k]) != NotSent) &&
            forall m :: m in log ==> path < m.path && m.path[|path|] == k
  {
    var route, attempt, call := RouteOf(w, path, req).value, AttemptsOf(w, path, req)[k], path + [k];
    if IsChijie(attempt) && w.net(call) != NotSent {
      SentMeans(w, path, hop, req, route, attempt, k);
    }
  }

  lemma SentMeans(w: World, path: Path, hop: nat, req: Request, route: Route, attempt: Option<Choice>, k: nat)
    requires Lawful(w) && hop < MAX_HOPS && IsChijie(attempt) && w.net(path + [k]) != NotSent
    ensures var log := Attempt(w, path + [k], hop, req, route, attempt).1;
            HasMessage(log, path + [k]) && forall m :: m in log ==> path < m.path && m.path[|path|] == k
  {
    var call, forward := path + [k], Rewritten(req, route, attempt.value);
    AttemptForwards(w, call, hop, req, route, attempt);
    HandleDerives(w, call, hop + 1, forward);
    var log := Attempt(w, call, hop, req, route, attempt).1;
    assert log[0].path == call;
    forall m | m in log
      ensures path < m.path && m.path[|path|] == k
    {
      assert m == log[0] || call < m.path;
      assert m.path[..|call|] == call && m.path[|path|] == call[|path|];
    }
  }

  lemma NextMessages(log: seq<Message>, more: seq<Message>, path: Path, k: nat, n: nat)
    requires forall m :: m in log ==> path < m.path && m.path[|path|] == k
    requires forall m :: m in more ==> path < m.path && m.path[|path|] > k
    ensures HasMessage(log + more, path + [n]) <==>
            if n == k then HasMessage(log, path + [n]) else HasMessage(more, path + [n])
    ensures n < k ==> !HasMessage(log + more, path + [n])
    ensures forall m :: m in log + more ==> path < m.path && m.path[|path|] >= k
  {
    assert (path + [n])[|path|] == n;
    if HasMessage(log, path + [n]) {
      var m :| m in log && m.path == path + [n];
      assert m in log + more;
    }
    if HasMessage(more, path + [n]) {
      var m :| m in more && m.path == path + [n];
      assert m in log + more;
    }
  }

  lemma FailOverStep(w: World, path: Path, hop: nat, req: Request, k: nat, n: nat)
    requires hop < MAX_HOPS && RouteOf(w, path, req).Some? && k < n <= |AttemptsOf(w, path, req)|
    ensures AllFailOver(w, path, hop, req, k, n) <==>
            FailsOver(w, path, hop, req, k) && AllFailOver(w, path, hop, req, k + 1, n)
  {
  }

  /** Attempt `n` is reached from attempt `k` on, and answers the request. */
  ghost predicate Answers(w: World, path: Path, hop: nat, req: Request, k: nat, n: nat) {
    hop < MAX_HOPS && RouteOf(w, path, req).Some? && k <= n < |AttemptsOf(w, path, req)| &&
    Succeeds(w, path, hop, req, n) && AllFailOver(w, path, hop, req, k, n)
  }

  /** Attempt `n` is reached from attempt `k` on, and sends a message. */
  ghost predicate Reaches(w: World, path: Path, hop: nat, req: Request, k: nat, n: nat) {
    hop < MAX_HOPS && RouteOf(w, path, req).Some? && k <= n < |AttemptsOf(w, path, req)| &&
    AllFailOver(w, path, hop, req, k, n) && IsChijie(AttemptsOf(w, path, req)[n]) && w.net(path + [n]) != NotSent
  }

  lemma AnswersStep(w: World, path: Path, hop: nat, req: Request, k: nat, n: nat)
    requires hop < MAX_HOPS && RouteOf(w, path, req).Some? && k < |AttemptsOf(w, path, req)|
    ensures Answers(w, path, hop, req, k, n) <==>
            if n == k then Succeeds(w, path, hop, req, k)
            else FailsOver(w, path, hop, req, k) && Answers(w, path, hop, req, k + 1, n)
    ensures Reaches(w, path, hop, req, k, n) <==>
            if n == k then IsChijie(AttemptsOf(w, path, req)[k]) && w.net(path + [k]) != NotSent
            else FailsOver(w, path, hop, req, k) && Reaches(w, path, hop, req, k + 1, n)
  {
    if k < n <= |AttemptsOf(w, path, req)| {
      FailOverStep(w, path, hop, req, k, n);
    }
  }

  ghost predicate SomeAnswers(w: World, path: Path, hop: nat, req: Request, k: nat) {
    exists n: nat :: Answers(w, path, hop, req, k, n)
  }

  lemma AnswerFrom(w: World, path: Path, hop: nat, req: Request, k: nat)
    requires hop < MAX_HOPS && RouteOf(w, path, req).Some? && k < |AttemptsOf(w, path, req)|
    ensures SomeAnswers(w, path, hop, req, k) <==>
            Succeeds(w, path, hop, req, k) ||
            (FailsOver(w, path, hop, req, k) && SomeAnswers(w, path, hop, req, k + 1))
  {
    forall n: nat
      ensures Answers(w, path, hop, req, k, n) <==>
              if n == k then Succeeds(w, path, hop, req, k)
              else FailsOver(w, path, hop, req, k) && Answers(w, path, hop, req, k + 1, n)
    {
      AnswersStep(w, path, hop, req, k, n);
    }
    if Succeeds(w, path, hop, req, k) {
      assert Answers(w, path, hop, req, k, k);
    }
    if FailsOver(w, path, hop, req, k) && SomeAnswers(w, path, hop, req, k + 1) {
      var l := k + 1;
      var n: nat :| Answers(w, path, hop, req, l, n);
      assert Answers(w, path, hop, req, k, n);
    }
  }

  /** A call answers without an error if and only if the first attempt that does not fail over succeeds. */
  lemma {:induction false} AnswerMeans(w: World, path: Path, hop: nat, req: Request, k: nat)
    requires Lawful(w) && hop < MAX_HOPS && RouteOf(w, path, req).Some? && k <= |AttemptsOf(w, path, req)|
    ensures Attempts(w, path, hop, req, RouteOf(w, path, req).value, AttemptsOf(w, path, req), k).0 <==>
            SomeAnswers(w, path, hop, req, k)
    decreases |AttemptsOf(w, path, req)| - k
  {
    if k < |AttemptsOf(w, path, req)| {
      AttemptMeans(w, path, hop, req, k);
      AnswerMeans(w, path, hop, req, k + 1);
      AnswerFrom(w, path, hop, req, k);
    }
  }

  /** The messages of a call and of those below it, from attempt `k` on. */
  ghost function LogFrom(w: World, path: Path, hop: nat, req: Request, k: nat): seq<Message>
    requires hop < MAX_HOPS && RouteOf(w, path, req).Some? && k <= |AttemptsOf(w, path, req)|
  {
    Attempts(w, path, hop, req, RouteOf(w, path, req).value, AttemptsOf(w, path, req), k).1
  }

  lemma LogStep(w: World, path: Path, hop: nat, req: Request, k: nat)
    requires Lawful(w) && hop < MAX_HOPS && RouteOf(w, path, req).Some? && k < |AttemptsOf(w, path, req)|
    ensures var sent := Attempt(w, path + [k], hop, req, RouteOf(w, path, req).value, AttemptsOf(w, path, req)[k]).1;
            LogFrom(w, path, hop, req, k)
            == if FailsOver(w, path, hop, req, k) then sent + LogFrom(w, path, hop, req, k + 1) else sent
  {
    AttemptMeans(w, path, hop, req, k);
  }

  /** Exactly the attempts up to that one send their messages. */
  lemma {:induction false} MessagesMean(w: World, path: Path, hop: nat, req: Request, k: nat, n: nat)
    requires Lawful(w) && hop < MAX_HOPS && RouteOf(w, path, req).Some? && k <= |AttemptsOf(w, path, req)|
    ensures HasMessage(LogFrom(w, path, hop, req, k), path + [n]) <==> Reaches(w, path, hop, req, k, n)
    ensures forall m :: m in LogFrom(w, path, hop, req, k) ==> path < m.path && m.path[|path|] >= k
    decreases |AttemptsOf(w, path, req)| - k
  {
    if k < |AttemptsOf(w, path, req)| {
      var sent := Attempt(w, path + [k], hop, req, RouteOf(w, path, req).value, AttemptsOf(w, path, req)[k]).1;
      AttemptMeans(w, path, hop, req, k);
      MessagesMean(w, path, hop, req, k + 1, n);
      LogStep(w, path, hop, req, k);
      AnswersStep(w, path, hop, req, k, n);
      NextMessages(sent, if FailsOver(w, path, hop, req, k) then LogFrom(w, path, hop, req, k + 1) else [], path, k, n);
    }
  }

  /** One call at a gateway: it refuses requests that have come too far or that it does not accept; else
      it answers without an error if and only if the first attempt that does not fail over succeeds, and
      sends on exactly the Chijie attempts before that and at it. */
  lemma CallMeans(w: World, path: Path, hop: nat, req: Request, n: nat)
    requires Lawful(w)
    ensures var (ok, log) := Handle(w, path, hop, req);
            (ok <==> hop < 3 && w.accepts(path, req) && exists k: nat :: Answers(w, path, hop, req, 0, k)) &&
            (HasMessage(log, path + [n]) <==> hop < 3 && w.accepts(path, req) && Reaches(w, path, hop, req, 0, n))
  {
    if hop < MAX_HOPS && w.accepts(path, req) && RouteOf(w, path, req).Some? {
      HandleIs(w, path, hop, req, AttemptsOf(w, path, req));
      AnswerMeans(w, path, hop, req, 0);
      MessagesMean(w, path, hop, req, 0, n);
    }
  }
}
