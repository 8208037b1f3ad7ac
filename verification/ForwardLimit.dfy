/** The bound on forwarded messages is reached: for every number of Chijie templates there are gateways
    that send as many messages for one request as `ChijieForwarding.ForwardsAreBounded` allows. */
module ForwardLimit {
  import opened Pools
  import opened Wrappers
  import E = Egress
  import T = EgressTheorems
  import opened ProxyServer
  import opened ChijieForwarding
  import opened Products

  // ----- gateways with `b` Chijie templates and nothing else -----

  function Name(i: nat): (s: string)
    ensures |s| == i + 1
  {
    if i == 0 then "x" else Name(i - 1) + "x"
  }

  const CHIJIE := PoolConfig(Template, true, false, false, false, NormalOnly, true, true, 0)

  function Gateway(b: nat): (snap: Snapshot)
    ensures forall n :: n in snap ==> 0 < |n| <= b && snap[n] == PoolState(CHIJIE, [])
  {
    if b == 0 then map[] else Gateway(b - 1)[Name(b - 1) := PoolState(CHIJIE, [])]
  }

  lemma {:induction false} GatewayTemplates(b: nat)
    ensures |E.TemplateChoices(Gateway(b), "US", false)| == b
    ensures forall c :: c in E.TemplateChoices(Gateway(b), "US", false) ==>
              c.template && c.chijie && !c.premium && !c.residential && c.region == "US"
  {
    if b == 0 {
      assert E.TemplateChoices(Gateway(0), "US", false) == {};
    } else {
      GatewayTemplates(b - 1);
      OneMoreTemplate(Gateway(b - 1), Name(b - 1));
    }
  }

  lemma OneMoreTemplate(snap: Snapshot, n: string)
    requires n !in snap
    ensures var c := E.TemplateChoice(n, CHIJIE, "US", false);
            E.TemplateChoices(snap[n := PoolState(CHIJIE, [])], "US", false)
            == E.TemplateChoices(snap, "US", false) + {c} &&
            c !in E.TemplateChoices(snap, "US", false)
  {
    var c, grown := E.TemplateChoice(n, CHIJIE, "US", false), snap[n := PoolState(CHIJIE, [])];
    assert n in grown && E.Offers(grown[n].config, false);
    assert forall m :: m in snap ==> m in grown && grown[m] == snap[m];
  }

  lemma GatewayHasNothingElse(b: nat)
    ensures DistinctNames(Gateway(b))
    ensures forall residential :: E.AliveChoices(Gateway(b), "US", residential) == {} &&
                                  E.OfflineChoices(Gateway(b), "US", residential) == {}
    ensures E.TemplateChoices(Gateway(b), "US", true) == {}
  {
  }

  /** All gateways are such gateways, every call is accepted and every answer is lost. */
  function Loop(b: nat): World {
    World((p, r) => true, x => Named("US"), p => Gateway(b), p => DEFAULTS,
          p => E.Draw(RoundRobin, map[], s => s), p => Fatal, p => AnswerLost)
  }

  lemma LoopIsLawful(b: nat)
    ensures Lawful(Loop(b))
  {
    GatewayHasNothingElse(b);
  }

  /** The candidates of a request there: nothing for a residential one, else the `b` templates. */
  lemma LoopCandidates(b: nat, sel: Selector, d: E.Draw)
    requires E.IsShuffle(d.shuffle)
    ensures var cs := E.Candidates(Gateway(b), "US", sel, true, d);
            |cs| == (if sel.residential then 0 else b) &&
            forall c :: c in cs ==> c.template && c.chijie && !c.premium && !c.residential && c.region == "US"
  {
    var snap := Gateway(b);
    var d' := E.After(snap, "US", sel, d);
    GatewayTemplates(b);
    GatewayHasNothingElse(b);
    T.GroupIsComplete(snap, "US", sel, d);
    T.GroupIsComplete(snap, "US", Selector(true, sel.premium), d');
    assert sel.(residential := true) == Selector(true, sel.premium);
    SetSize(E.Group(snap, "US", sel, true, d), E.TemplateChoices(snap, "US", sel.residential));
    SetSize(E.Group(snap, "US", Selector(true, sel.premium), true, d'), {});
  }

  lemma SetSize(s: Choices, S: set<Choice>)
    requires multiset(s) == multiset(S)
    ensures |s| == |S| && forall c :: c in s ==> c in S
  {
    T.SameMultiset(s, S);
    assert |multiset(s)| == |s|;
  }

  lemma LoopRoute(b: nat, path: Path, req: Request)
    ensures var route := RouteOf(Loop(b), path, req);
            (route.Some? <==> !req.residential && b > 0) &&
            (route.Some? ==> |route.value.choices| == b) &&
            (route.Some? ==> forall c :: c in route.value.choices ==> c.template && c.chijie && !c.residential)
  {
    var d := Loop(b).draw(path).(strategy := req.strategy);
    LoopCandidates(b, Selector(req.residential, req.premium), d);
    assert Effective(DEFAULTS) == DEFAULTS;
  }

  lemma {:induction false} ChijiesAtMost(s: Choices)
    ensures Chijies(s) <= |s|
  {
    if s != [] {
      ChijiesAtMost(s[..|s| - 1]);
    }
  }

  lemma LoopHasAtMost(b: nat)
    ensures AtMostChijies(Loop(b), b)
  {
    forall path, req | RouteOf(Loop(b), path, req).Some?
      ensures Chijies(RouteOf(Loop(b), path, req).value.choices) <= b
    {
      LoopRoute(b, path, req);
      ChijiesAtMost(RouteOf(Loop(b), path, req).value.choices);
    }
  }

  // ----- how many messages they send -----

  lemma {:induction false} NoNodes(s: Choices)
    requires forall c :: c in s ==> c.template
    ensures T.NodesOf(s) == []
  {
    if s != [] {
      NoNodes(s[1..]);
      assert s[0] in s;
    }
  }

  /** Without nodes all candidates are attempted. */
  lemma AllAttempted(choices: Choices, s: Settings, premium: bool)
    requires s.maxAttempts >= 1 && forall c :: c in choices ==> c.template
    ensures AttemptList(choices, s, premium) == choices
  {
    NoNodes(choices);
    assert choices[..|choices|] == choices;
    TemplatesAttempted(choices, |choices|, s, premium);
    NodesAttempted(choices, |choices|, s, premium);
    NoNodesAllTemplates(choices);
    NoNodesAllTemplates(AttemptList(choices, s, premium));
  }

  /** What a normal call finds at such gateways: it is accepted, and its attempts are `b` normal Chijie
      templates. */
  ghost predicate FindsAll(w: World, b: nat, path: Path, req: Request) {
    w.accepts(path, req) && (RouteOf(w, path, req).Some? <==> b > 0) &&
    (b > 0 ==>
      var attempts := ProxyAttempts(RouteOf(w, path, req).value, Effective(w.settings(path)));
      |attempts| == b && forall k :: 0 <= k < b ==> NormalChijie(attempts[k]))
  }

  predicate NormalChijie(attempt: Option<Choice>) {
    attempt.Some? && attempt.value.template && attempt.value.chijie && !attempt.value.residential
  }

  /** All normal calls find this, and all answers are lost. */
  ghost predicate Lossy(w: World, b: nat) {
    (forall path :: w.net(path) == AnswerLost) &&
    forall path, req: Request :: !req.residential ==> FindsAll(w, b, path, req)
  }

  lemma LoopFindsAll(b: nat, path: Path, req: Request)
    requires !req.residential
    ensures FindsAll(Loop(b), b, path, req)
  {
    LoopRoute(b, path, req);
    if b > 0 {
      AllNormalChijies(RouteOf(Loop(b), path, req).value, Loop(b).settings(path), b);
    }
  }

  lemma AllNormalChijies(route: Route, s: Settings, b: nat)
    requires s == DEFAULTS && |route.choices| == b > 0
    requires forall c :: c in route.choices ==> c.template && c.chijie && !c.residential
    ensures var attempts := ProxyAttempts(route, Effective(s));
            |attempts| == b && forall k :: 0 <= k < b ==> NormalChijie(attempts[k])
  {
    AllAttempted(route.choices, DEFAULTS, route.premium);
    assert Effective(s) == DEFAULTS;
    assert forall k :: 0 <= k < b ==> route.choices[k] in route.choices;
  }

  lemma LoopIsLossy(b: nat)
    ensures Lossy(Loop(b), b)
  {
    forall path, req: Request | !req.residential
      ensures FindsAll(Loop(b), b, path, req)
    {
      LoopFindsAll(b, path, req);
    }
  }

  /** The attempts of a normal call, and what it sends through them. */
  lemma CallAttempts(w: World, b: nat, path: Path, hop: nat, req: Request)
    returns (route: Route, attempts: seq<Option<Choice>>)
    requires FindsAll(w, b, path, req) && b > 0 && hop < MAX_HOPS
    ensures |attempts| == b && forall k :: 0 <= k < b ==> NormalChijie(attempts[k])
    ensures |Handle(w, path, hop, req).1| == |Attempts(w, path, hop, req, route, attempts, 0).1|
  {
    route := RouteOf(w, path, req).value;
    attempts := ProxyAttempts(route, Effective(w.settings(path)));
    HandleIs(w, path, hop, req, attempts);
  }

  lemma NothingSent(w: World, b: nat, path: Path, hop: nat, req: Request)
    requires FindsAll(w, b, path, req) && (b == 0 || hop >= MAX_HOPS)
    ensures |Handle(w, path, hop, req).1| == 0 == Budget(b, HopsLeft(hop))
  {
  }

  /** The attempts of a call send as many messages as its budget allows if every call of one hop more does. */
  lemma CallSends(w: World, b: nat, path: Path, hop: nat, req: Request, route: Route, attempts: seq<Option<Choice>>)
    requires (forall p :: w.net(p) == AnswerLost) && hop < MAX_HOPS && EachSends(w, b, hop + 1)
    requires |attempts| == b && forall k :: 0 <= k < b ==> NormalChijie(attempts[k])
    ensures |Attempts(w, path, hop, req, route, attempts, 0).1| == Budget(b, HopsLeft(hop))
  {
    var each := 1 + Budget(b, HopsLeft(hop) - 1);
    AllCost(w, b, path, hop, req, route, attempts, each);
    AttemptsSend(w, path, hop, req, route, attempts, 0, each);
    BudgetStep(b, hop);
  }

  lemma AllCost(w: World, b: nat, path: Path, hop: nat, req: Request, route: Route, attempts: seq<Option<Choice>>,
                each: nat)
    requires (forall p :: w.net(p) == AnswerLost) && hop < MAX_HOPS && EachSends(w, b, hop + 1)
    requires each == 1 + Budget(b, HopsLeft(hop) - 1) && forall k :: 0 <= k < |attempts| ==> NormalChijie(attempts[k])
    ensures forall j :: 0 <= j < |attempts| ==> Costs(w, path, hop, req, route, attempts, j, each)
  {
    forall j | 0 <= j < |attempts|
      ensures Costs(w, path, hop, req, route, attempts, j, each)
    {
      AttemptSends(w, b, path + [j], hop, req, route, attempts[j]);
    }
  }

  /** Every normal call with this hop number does. */
  ghost predicate EachSends(w: World, b: nat, hop: nat) {
    forall path, req: Request :: !req.residential ==> |Handle(w, path, hop, req).1| == Budget(b, HopsLeft(hop))
  }

  /** Attempt `j` causes `each` messages and lets the next one follow. */
  ghost predicate Costs(w: World, path: Path, hop: nat, req: Request, route: Route, attempts: seq<Option<Choice>>,
                        j: nat, each: nat) {
    hop < MAX_HOPS && j < |attempts| &&
    var (outcome, log) := Attempt(w, path + [j], hop, req, route, attempts[j]);
    outcome == Retryable && |log| == each
  }

  lemma {:induction false} AttemptsSend(w: World, path: Path, hop: nat, req: Request, route: Route,
                                        attempts: seq<Option<Choice>>, k: nat, each: nat)
    requires hop < MAX_HOPS && k <= |attempts|
    requires forall j :: 0 <= j < |attempts| ==> Costs(w, path, hop, req, route, attempts, j, each)
    ensures |Attempts(w, path, hop, req, route, attempts, k).1| == Times(|attempts| - k, each)
    decreases |attempts| - k
  {
    if k == |attempts| {
      NoAttempts(w, path, hop, req, route, attempts);
    } else {
      AttemptsSend(w, path, hop, req, route, attempts, k + 1, each);
      assert Costs(w, path, hop, req, route, attempts, k, each);
      NextAttempt(w, path, hop, req, route, attempts, k, each, Times(|attempts| - k - 1, each));
    }
  }

  lemma NoAttempts(w: World, path: Path, hop: nat, req: Request, route: Route, attempts: seq<Option<Choice>>)
    requires hop < MAX_HOPS
    ensures Attempts(w, path, hop, req, route, attempts, |attempts|).1 == []
  {
  }

  lemma NextAttempt(w: World, path: Path, hop: nat, req: Request, route: Route, attempts: seq<Option<Choice>>,
                    k: nat, one: nat, more: nat)
    requires hop < MAX_HOPS && k < |attempts|
    requires Attempt(w, path + [k], hop, req, route, attempts[k]).0 == Retryable
    requires |Attempt(w, path + [k], hop, req, route, attempts[k]).1| == one
    requires |Attempts(w, path, hop, req, route, attempts, k + 1).1| == more
    ensures |Attempts(w, path, hop, req, route, attempts, k).1| == one + more
  {
  }

  lemma AttemptSends(w: World, b: nat, call: Path, hop: nat, req: Request, route: Route, attempt: Option<Choice>)
    requires w.net(call) == AnswerLost && hop < MAX_HOPS && EachSends(w, b, hop + 1) && NormalChijie(attempt)
    ensures var (outcome, log) := Attempt(w, call, hop, req, route, attempt);
            outcome == Retryable && |log| == 1 + Budget(b, HopsLeft(hop) - 1)
  {
    var forward := Rewritten(req, route, attempt.value);
    assert |Handle(w, call, hop + 1, forward).1| == Budget(b, HopsLeft(hop + 1));
  }

  lemma OneCall(w: World, b: nat, path: Path, hop: nat, req: Request)
    requires FindsAll(w, b, path, req) && (forall p :: w.net(p) == AnswerLost)
    requires hop < MAX_HOPS ==> EachSends(w, b, hop + 1)
    ensures |Handle(w, path, hop, req).1| == Budget(b, HopsLeft(hop))
  {
    if b == 0 || hop >= MAX_HOPS {
      NothingSent(w, b, path, hop, req);
    } else {
      var route, attempts := CallAttempts(w, b, path, hop, req);
      CallSends(w, b, path, hop, req, route, attempts);
    }
  }

  lemma BudgetStep(b: nat, hop: nat)
    requires hop < MAX_HOPS
    ensures Budget(b, HopsLeft(hop)) == Times(b, 1 + Budget(b, HopsLeft(hop) - 1))
  {
  }

  lemma EveryCall(w: World, b: nat, hop: nat)
    requires Lossy(w, b)
    requires hop < MAX_HOPS ==> EachSends(w, b, hop + 1)
    ensures EachSends(w, b, hop)
  {
    forall path, req: Request | !req.residential
      ensures |Handle(w, path, hop, req).1| == Budget(b, HopsLeft(hop))
    {
      assert FindsAll(w, b, path, req);
      OneCall(w, b, path, hop, req);
    }
  }

  lemma {:induction false} LossySends(w: World, b: nat, hop: nat)
    requires Lossy(w, b)
    ensures EachSends(w, b, hop)
    decreases HopsLeft(hop)
  {
    if hop < MAX_HOPS {
      LossySends(w, b, hop + 1);
    }
    EveryCall(w, b, hop);
  }

  lemma BudgetOfThree(b: nat)
    ensures Budget(b, 3) == b + b * b + b * b * b
  {
    var square := b * b;
    OneMore(b, 0);
    OneMore(b, b);
    OneMore(b, b + square);
    Spread(b, square);
    assert Budget(b, 0) == 0 && Budget(b, 1) == b && Budget(b, 2) == b + square;
  }

  /** For every `b` there are gateways with at most `b` Chijie choices in any list, at which one normal
      request causes exactly b + b^2 + b^3 forwarded messages: the bound is sharp. */
  lemma BoundIsReached(b: nat, path: Path, req: Request)
    requires !req.residential
    ensures Lawful(Loop(b)) && AtMostChijies(Loop(b), b)
    ensures |Handle(Loop(b), path, 0, req).1| == b + b * b + b * b * b
  {
    LoopIsLawful(b);
    LoopHasAtMost(b);
    LoopIsLossy(b);
    LossySends(Loop(b), b, 0);
    BudgetOfThree(b);
  }
}
