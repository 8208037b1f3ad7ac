/** Requests forwarded between gateways (internal/server/server.go: handleProxy's hop check,
    doProxyWithRetry and doRemoteChijieProxy).

    A Chijie template hands the whole request to another gateway, which resolves it with its own
    pools and may hand it on.  The gateways may be configured in any way, also cyclically.  A
    `World` fixes what every call sees: a call is named by the path of attempt numbers that led to
    it, so the same gateway may see different pools at every call. */
module ChijieForwarding {
  import opened Pools
  import E = Egress
  import T = EgressTheorems
  import opened ProxyServer
  import opened Wrappers
  import opened Products
  import opened Text

  const MAX_HOPS := 3

  datatype Request = Request(
    url: string, verb: string, headers: seq<(string, string)>, payload: string, followRedirects: bool,
    region: string, strategy: Strategy, residential: bool, premium: bool, fingerprint: string,
    any: bool, maxLatencyMS: int)

  type Path = seq<nat>

  /** What happens to a forwarded message: it never leaves, its answer is lost, its answer cannot be
      read, the caller gives up meanwhile, or the answer arrives. */
  datatype Transport = NotSent | AnswerLost | Unreadable | GivenUp | Delivered

  datatype World = World(
    accepts: (Path, Request) -> bool,        // authentication and validation at the called gateway
    classify: string -> RegionRequest,       // trimming, the words for "any", NormalizeRegionCode
    pools: Path -> Snapshot,
    settings: Path -> Settings,
    draw: Path -> E.Draw,
    node: Path -> Outcome,                   // the outcome of an attempt through a node
    net: Path -> Transport)                  // the fate of a forwarded message

  /** The pools have distinct node names, shuffles permute, and a normalised region code is
      normal. */
  ghost predicate Lawful(w: World) {
    (forall p :: DistinctNames(w.pools(p)) && E.IsShuffle(w.draw(p).shuffle)) &&
    (forall x :: w.classify(x).Named? && w.classify(x).region != "" ==>
      w.classify(w.classify(x).region) == w.classify(x))
  }

  function OptionsOf(w: World, req: Request): Options {
    Options(w.classify(req.region), req.strategy, req.residential, req.premium, req.any, req.maxLatencyMS)
  }

  ghost function RouteOf(w: World, path: Path, req: Request): Option<Route> {
    Resolved(w.pools(path), OptionsOf(w, req), Effective(w.settings(path)).templateFallback,
             w.draw(path).(strategy := req.strategy))
  }

  /** doRemoteChijieProxy: the request that is sent on for a choice of the route. */
  function Rewritten(req: Request, route: Route, c: Choice): Request {
    req.(region := if c.region != "" then c.region else req.region,
         residential := c.residential,
         premium := route.premium || c.premium,
         fingerprint := if TrimSpace(req.fingerprint) != "" then TrimSpace(req.fingerprint) else req.fingerprint)
  }

  datatype Message = Message(path: Path, hop: nat, req: Request)

  function HopsLeft(hop: nat): nat {
    if hop >= MAX_HOPS then 0 else MAX_HOPS - hop
  }

  /** handleProxy at the gateway that the call named `path` reaches: whether it answers without a
      gateway error, and all messages that it causes. */
  ghost function Handle(w: World, path: Path, hop: nat, req: Request): (bool, seq<Message>)
    decreases HopsLeft(hop), 1, 0
  {
    if hop >= MAX_HOPS || !w.accepts(path, req) then (false, [])
    else
      match RouteOf(w, path, req)
      case None => (false, [])
      case Some(route) => Attempts(w, path, hop, req, route, ProxyAttempts(route, Effective(w.settings(path))), 0)
  }

  /** doProxyWithRetry from attempt `k` on. */
  ghost function Attempts(w: World, path: Path, hop: nat, req: Request, route: Route,
                          attempts: seq<Option<Choice>>, k: nat): (bool, seq<Message>)
    requires hop < MAX_HOPS && k <= |attempts|
    decreases HopsLeft(hop), 0, |attempts| - k
  {
    if k == |attempts| then (false, [])
    else
      var (outcome, sent) := Attempt(w, path + [k], hop, req, route, attempts[k]);
      if outcome != Retryable then (outcome == Ok, sent)
      else
        var (ok, more) := Attempts(w, path, hop, req, route, attempts, k + 1);
        (ok, sent + more)
  }

  /** doProxy: one attempt; `call` names the call it may cause. */
  ghost function Attempt(w: World, call: Path, hop: nat, req: Request, route: Route,
                         attempt: Option<Choice>): (Outcome, seq<Message>)
    requires hop < MAX_HOPS
    decreases HopsLeft(hop), 0, 0
  {
    if attempt.None? || !attempt.value.template || !attempt.value.chijie then (w.node(call), [])
    else if w.net(call) == NotSent then (Retryable, [])
    else
      var forward := Rewritten(req, route, attempt.value);
      var (ok, caused) := Handle(w, call, hop + 1, forward);
      var log := [Message(call, hop + 1, forward)] + caused;
      match w.net(call)
      case AnswerLost => (Retryable, log)
      case Unreadable => (Fatal, log)
      case GivenUp => (RetryableThenCancelled, log)
      case _ => (if ok then Ok else Retryable, log)
  }

  // ----- how many messages -----

  function Chijies(s: Choices): nat {
    if s == [] then 0 else Chijies(s[..|s| - 1]) + (if s[|s| - 1].template && s[|s| - 1].chijie then 1 else 0)
  }

  /** Every candidate list, at every gateway and every time, has at most `b` Chijie choices. */
  ghost predicate AtMostChijies(w: World, b: nat) {
    forall path, req :: RouteOf(w, path, req).Some? ==> Chijies(RouteOf(w, path, req).value.choices) <= b
  }

  lemma ChijiesSnoc(s: Choices, c: Choice)
    ensures Chijies(s + [c]) == Chijies(s) + (if c.template && c.chijie then 1 else 0)
  {
    assert (s + [c])[..|s|] == s;
  }

  lemma AttemptsUpToStep(choices: Choices, n: nat, s: Settings, premium: bool)
    requires 0 < n <= |choices|
    ensures var front, c := AttemptsUpTo(choices, n - 1, s, premium), choices[n - 1];
            AttemptsUpTo(choices, n, s, premium) == if Attempted(choices, n - 1, s, premium) then front + [c] else front
    ensures choices[..n] == choices[..n - 1] + [choices[n - 1]]
  {
  }

  lemma {:induction false} AttemptsAddNoChijie(choices: Choices, n: nat, s: Settings, premium: bool)
    requires n <= |choices|
    ensures Chijies(AttemptsUpTo(choices, n, s, premium)) <= Chijies(choices[..n])
  {
    if n > 0 {
      AttemptsAddNoChijie(choices, n - 1, s, premium);
      AttemptsUpToStep(choices, n, s, premium);
      ChijiesSnoc(choices[..n - 1], choices[n - 1]);
      ChijiesSnoc(AttemptsUpTo(choices, n - 1, s, premium), choices[n - 1]);
    }
  }

  /** The Chijie choices among the attempts from `k` on. */
  function ChijiesFrom(attempts: seq<Option<Choice>>, k: nat): nat
    requires k <= |attempts|
    decreases |attempts| - k
  {
    if k == |attempts| then 0
    else ChijiesFrom(attempts, k + 1) +
         (if attempts[k].Some? && attempts[k].value.template && attempts[k].value.chijie then 1 else 0)
  }

  lemma {:induction false} ChijiesSplit(list: Choices, attempts: seq<Option<Choice>>, k: nat)
    requires |attempts| == |list| && forall i :: 0 <= i < |list| ==> attempts[i] == Some(list[i])
    requires k <= |list|
    ensures Chijies(list) == Chijies(list[..k]) + ChijiesFrom(attempts, k)
    decreases |list| - k
  {
    if k == |list| {
      assert list[..k] == list;
    } else {
      ChijiesSplit(list, attempts, k + 1);
      assert list[..k + 1][..k] == list[..k];
    }
  }

  lemma FewChijieAttempts(w: World, b: nat, path: Path, req: Request)
    requires AtMostChijies(w, b) && RouteOf(w, path, req).Some?
    ensures ChijiesFrom(ProxyAttempts(RouteOf(w, path, req).value, Effective(w.settings(path))), 0) <= b
  {
    var route, s := RouteOf(w, path, req).value, Effective(w.settings(path));
    var attempts := ProxyAttempts(route, s);
    if route.choices != [] {
      var list := AttemptList(route.choices, s, route.premium);
      AttemptsAddNoChijie(route.choices, |route.choices|, s, route.premium);
      assert route.choices[..|route.choices|] == route.choices;
      ChijiesSplit(list, attempts, 0);
      assert list[..0] == [];
    }
  }

  /** The number of messages that a call with `left` hops to go may cause. */
  function Budget(b: nat, left: nat): nat {
    if left == 0 then 0 else Times(b, 1 + Budget(b, left - 1))
  }

  lemma HandleIs(w: World, path: Path, hop: nat, req: Request, attempts: seq<Option<Choice>>)
    requires hop < MAX_HOPS && w.accepts(path, req) && RouteOf(w, path, req).Some?
    requires attempts == ProxyAttempts(RouteOf(w, path, req).value, Effective(w.settings(path)))
    ensures Handle(w, path, hop, req) == Attempts(w, path, hop, req, RouteOf(w, path, req).value, attempts, 0)
  {
  }

  lemma {:induction false} HandleBudget(w: World, b: nat, path: Path, hop: nat, req: Request)
    requires AtMostChijies(w, b)
    ensures |Handle(w, path, hop, req).1| <= Budget(b, HopsLeft(hop))
    decreases HopsLeft(hop), 1, 0
  {
    if hop < MAX_HOPS && w.accepts(path, req) && RouteOf(w, path, req).Some? {
      var route := RouteOf(w, path, req).value;
      var attempts := ProxyAttempts(route, Effective(w.settings(path)));
      AttemptsWithin(w, b, path, hop, req, route, attempts);
      HandleIs(w, path, hop, req, attempts);
    }
  }

  lemma {:induction false} AttemptsWithin(w: World, b: nat, path: Path, hop: nat, req: Request, route: Route,
                                          attempts: seq<Option<Choice>>)
    requires AtMostChijies(w, b) && hop < MAX_HOPS && RouteOf(w, path, req) == Some(route)
    requires attempts == ProxyAttempts(route, Effective(w.settings(path)))
    ensures |Attempts(w, path, hop, req, route, attempts, 0).1| <= Budget(b, HopsLeft(hop))
    decreases HopsLeft(hop), 0, |attempts| + 1
  {
    AttemptsBudget(w, b, path, hop, req, route, attempts, 0);
    WithinBudget(w, b, path, req, attempts, |Attempts(w, path, hop, req, route, attempts, 0).1|, HopsLeft(hop));
  }

  lemma WithinBudget(w: World, b: nat, path: Path, req: Request, attempts: seq<Option<Choice>>, sent: nat, left: nat)
    requires AtMostChijies(w, b) && RouteOf(w, path, req).Some?
    requires attempts == ProxyAttempts(RouteOf(w, path, req).value, Effective(w.settings(path)))
    requires left > 0 && sent <= Times(ChijiesFrom(attempts, 0), 1 + Budget(b, left - 1))
    ensures sent <= Budget(b, left)
  {
    FewChijieAttempts(w, b, path, req);
    UpToBudget(sent, ChijiesFrom(attempts, 0), b, left);
  }

  lemma UpToBudget(sent: nat, chijies: nat, b: nat, left: nat)
    requires left > 0 && chijies <= b && sent <= Times(chijies, 1 + Budget(b, left - 1))
    ensures sent <= Budget(b, left)
  {
    TimesMonotone(chijies, b, 1 + Budget(b, left - 1));
  }

  lemma {:induction false} AttemptsBudget(w: World, b: nat, path: Path, hop: nat, req: Request, route: Route,
                                          attempts: seq<Option<Choice>>, k: nat)
    requires AtMostChijies(w, b) && hop < MAX_HOPS && k <= |attempts|
    ensures |Attempts(w, path, hop, req, route, attempts, k).1|
         <= Times(ChijiesFrom(attempts, k), 1 + Budget(b, HopsLeft(hop) - 1))
    decreases HopsLeft(hop), 0, |attempts| - k
  {
    if k < |attempts| {
      AttemptBudget(w, b, path + [k], hop, req, route, attempts[k]);
      AttemptsBudget(w, b, path, hop, req, route, attempts, k + 1);
    }
  }

  lemma {:induction false} AttemptBudget(w: World, b: nat, call: Path, hop: nat, req: Request, route: Route,
                                         attempt: Option<Choice>)
    requires AtMostChijies(w, b) && hop < MAX_HOPS
    ensures var isChijie := attempt.Some? && attempt.value.template && attempt.value.chijie;
            |Attempt(w, call, hop, req, route, attempt).1| <= if isChijie then 1 + Budget(b, HopsLeft(hop) - 1) else 0
    decreases HopsLeft(hop), 0, 0
  {
    if attempt.Some? && attempt.value.template && attempt.value.chijie && w.net(call) != NotSent {
      HandleBudget(w, b, call, hop + 1, Rewritten(req, route, attempt.value));
    }
  }

  lemma BudgetIsPolynomial(b: nat, left: nat)
    requires left <= 3
    ensures Budget(b, left) <= b + b * b + b * b * b
  {
    var square := b * b;
    OneMore(b, 0);
    OneMore(b, b);
    OneMore(b, b + square);
    Spread(b, square);
    assert Budget(b, 0) == 0 && Budget(b, 1) == b && Budget(b, 2) == b + square;
  }

  lemma OneMore(b: nat, n: nat)
    ensures Times(b, 1 + n) == b + b * n
  {
    TimesIsProduct(b, 1 + n);
  }

  lemma Spread(b: nat, square: nat)
    requires square == b * b
    ensures b * (b + square) == square + b * square && b * square >= 0
  {
  }

  /** One client request causes at most b + b^2 + b^3 forwarded messages, whatever hop number the
      client claims, however the gateways are configured and whatever the network does. */
  lemma ForwardsAreBounded(w: World, b: nat, path: Path, hop: nat, req: Request)
    requires AtMostChijies(w, b)
    ensures |Handle(w, path, hop, req).1| <= b + b * b + b * b * b
  {
    HandleBudget(w, b, path, hop, req);
    BudgetIsPolynomial(b, HopsLeft(hop));
  }

  // ----- what stays the same along a chain -----

  /** The region that the forwarded request asks for. */
  function RegionOf(w: World, req: Request): RegionRequest {
    w.classify(req.region)
  }

  /** `later` is what `req` can become on its way: the same request for the same region, and at
      least as demanding. */
  predicate Derived(w: World, req: Request, later: Request) {
    later.url == req.url && later.verb == req.verb && later.headers == req.headers &&
    later.payload == req.payload && later.followRedirects == req.followRedirects &&
    later.strategy == req.strategy && TrimSpace(later.fingerprint) == TrimSpace(req.fingerprint) &&
    w.classify(later.region) == w.classify(req.region) && w.classify(req.region).Named? &&
    later.region == w.classify(req.region).region &&
    (req.residential ==> later.residential) && (req.premium ==> later.premium)
  }

  lemma DerivedTransitive(w: World, a: Request, b: Request, c: Request)
    requires Derived(w, a, b) && Derived(w, b, c)
    ensures Derived(w, a, c)
  {
  }

  lemma AnyOffersNoTemplate(snap: Snapshot, sel: Selector, maxLatency: int, d: E.Draw)
    requires DistinctNames(snap) && E.IsShuffle(d.shuffle)
    ensures forall c :: c in E.AnyGroup(snap, sel, maxLatency, d) ==> !c.template
  {
    T.AnyGroupProperties(snap, sel.residential, maxLatency, d);
    var plain := E.AnyGroup(snap, Selector(sel.residential, false), maxLatency, d);
    T.SameMultiset(plain, E.AnyChoices(snap, sel.residential, maxLatency));
    T.PremiumFirstPermutes(plain);
    assert forall c :: c in E.PremiumFirst(plain) ==> c in multiset(E.PremiumFirst(plain));
  }

  /** Only a request for a named region meets templates; its choices keep the region, and keep to
      residential nodes if the request does. */
  lemma RouteChoices(w: World, path: Path, req: Request, c: Choice)
    requires Lawful(w) && RouteOf(w, path, req).Some? && c in RouteOf(w, path, req).value.choices && c.template
    ensures RegionOf(w, req).Named? && RegionOf(w, req).region != "" && c.region == RegionOf(w, req).region
    ensures req.residential ==> c.residential
    ensures RouteOf(w, path, req).value.premium == req.premium
  {
    var snap, o := w.pools(path), OptionsOf(w, req);
    var sel, d := Selector(o.residential, o.premium), w.draw(path).(strategy := req.strategy);
    if o.region.Named? {
      T.ClassIsolation(snap, o.region.region, sel, Effective(w.settings(path)).templateFallback, d);
    } else {
      var maxLatency := LatencyLimit(o);
      AnyOffersNoTemplate(snap, sel, maxLatency, d);
      AnyOffersNoTemplate(snap, Selector(true, sel.premium), maxLatency,
                          d.(rr := E.AnyCounters(snap, sel.residential, maxLatency, d)));
      assert false;
    }
  }

  lemma ForwardIsDerived(w: World, path: Path, req: Request, c: Choice)
    requires Lawful(w) && RouteOf(w, path, req).Some? && c in RouteOf(w, path, req).value.choices && c.template
    ensures Derived(w, req, Rewritten(req, RouteOf(w, path, req).value, c))
  {
    RouteChoices(w, path, req, c);
    TrimTwice(req.fingerprint);
  }

  /** The messages that a call causes are below it in the call tree, within the hop limit, derived
      from its request, and derived from every message above them. */
  ghost predicate WellDerived(w: World, path: Path, hop: nat, req: Request, log: seq<Message>) {
    forall i :: 0 <= i < |log| ==>
      path < log[i].path && hop < log[i].hop <= MAX_HOPS && Derived(w, req, log[i].req) &&
      log[i].hop - hop == |log[i].path| - |path|
  }

  ghost predicate ChainsDerived(w: World, log: seq<Message>) {
    forall i, j :: 0 <= i < |log| && 0 <= j < |log| && log[i].path < log[j].path ==> Derived(w, log[i].req, log[j].req)
  }

  /** The messages of attempt `k` of a call. */
  ghost predicate OfAttempt(w: World, path: Path, hop: nat, req: Request, k: nat, log: seq<Message>) {
    WellDerived(w, path, hop, req, log) && ChainsDerived(w, log) &&
    forall i :: 0 <= i < |log| ==> log[i].path[|path|] == k
  }

  lemma {:induction false} HandleDerives(w: World, path: Path, hop: nat, req: Request)
    requires Lawful(w)
    ensures WellDerived(w, path, hop, req, Handle(w, path, hop, req).1)
    ensures ChainsDerived(w, Handle(w, path, hop, req).1)
    decreases HopsLeft(hop), 1, 0
  {
    if hop < MAX_HOPS && w.accepts(path, req) && RouteOf(w, path, req).Some? {
      var route := RouteOf(w, path, req).value;
      var attempts := ProxyAttempts(route, Effective(w.settings(path)));
      forall k | 0 <= k < |attempts| && attempts[k].Some?
        ensures attempts[k].value in route.choices
      {
        var at := AttemptsKeepOrder(route.choices, |route.choices|, Effective(w.settings(path)), route.premium);
      }
      AttemptsDerive(w, path, hop, req, attempts, 0);
    }
  }

  lemma {:induction false} AttemptsDerive(w: World, path: Path, hop: nat, req: Request,
                                          attempts: seq<Option<Choice>>, k: nat)
    requires Lawful(w) && hop < MAX_HOPS && RouteOf(w, path, req).Some? && k <= |attempts|
    requires forall j :: 0 <= j < |attempts| && attempts[j].Some? ==>
               attempts[j].value in RouteOf(w, path, req).value.choices
    ensures var log := Attempts(w, path, hop, req, RouteOf(w, path, req).value, attempts, k).1;
            WellDerived(w, path, hop, req, log) && ChainsDerived(w, log) &&
            forall i :: 0 <= i < |log| ==> log[i].path[|path|] >= k
    decreases HopsLeft(hop), 0, |attempts| - k
  {
    if k < |attempts| {
      var route := RouteOf(w, path, req).value;
      AttemptDerives(w, path, hop, req, attempts[k], k);
      AttemptsDerive(w, path, hop, req, attempts, k + 1);
      var sent := Attempt(w, path + [k], hop, req, route, attempts[k]).1;
      var more := Attempts(w, path, hop, req, route, attempts, k + 1).1;
      SiblingsAreApart(w, path, sent, more, k);
    }
  }

  /** Messages of different attempts are never on one chain. */
  lemma SiblingsAreApart(w: World, path: Path, sent: seq<Message>, more: seq<Message>, k: nat)
    requires forall i :: 0 <= i < |sent| ==> path < sent[i].path && sent[i].path[|path|] == k
    requires forall i :: 0 <= i < |more| ==> path < more[i].path && more[i].path[|path|] > k
    requires ChainsDerived(w, sent) && ChainsDerived(w, more)
    ensures ChainsDerived(w, sent + more)
  {
    var log := sent + more;
    forall i, j | 0 <= i < |log| && 0 <= j < |log| && log[i].path < log[j].path
      ensures Derived(w, log[i].req, log[j].req)
    {
      assert log[i].path[|path|] == log[j].path[|path|];
    }
  }

  lemma {:induction false} AttemptDerives(w: World, path: Path, hop: nat, req: Request, attempt: Option<Choice>, k: nat)
    requires Lawful(w) && hop < MAX_HOPS && RouteOf(w, path, req).Some?
    requires attempt.Some? ==> attempt.value in RouteOf(w, path, req).value.choices
    ensures OfAttempt(w, path, hop, req, k, Attempt(w, path + [k], hop, req, RouteOf(w, path, req).value, attempt).1)
    decreases HopsLeft(hop), 0, 0
  {
    var call := path + [k];
    if attempt.Some? && attempt.value.template && attempt.value.chijie && w.net(call) != NotSent {
      var forward := Rewritten(req, RouteOf(w, path, req).value, attempt.value);
      AttemptForwards(w, call, hop, req, RouteOf(w, path, req).value, attempt);
      ForwardIsDerived(w, path, req, attempt.value);
      HandleDerives(w, call, hop + 1, forward);
      PrependMessage(w, path, hop, req, Message(call, hop + 1, forward), Handle(w, call, hop + 1, forward).1, k);
    } else {
      NothingForwarded(w, path, hop, req, RouteOf(w, path, req).value, attempt, k);
    }
  }

  lemma NothingForwarded(w: World, path: Path, hop: nat, req: Request, route: Route, attempt: Option<Choice>, k: nat)
    requires hop < MAX_HOPS
    requires attempt.None? || !attempt.value.template || !attempt.value.chijie || w.net(path + [k]) == NotSent
    ensures OfAttempt(w, path, hop, req, k, Attempt(w, path + [k], hop, req, route, attempt).1)
  {
    assert Attempt(w, path + [k], hop, req, route, attempt).1 == [];
  }

  lemma AttemptForwards(w: World, call: Path, hop: nat, req: Request, route: Route, attempt: Option<Choice>)
    requires hop < MAX_HOPS && attempt.Some? && attempt.value.template && attempt.value.chijie && w.net(call) != NotSent
    ensures Attempt(w, call, hop, req, route, attempt).1
         == [Message(call, hop + 1, Rewritten(req, route, attempt.value))] +
            Handle(w, call, hop + 1, Rewritten(req, route, attempt.value)).1
  {
  }

  lemma PrependMessage(w: World, path: Path, hop: nat, req: Request, m: Message, caused: seq<Message>, k: nat)
    requires m.path == path + [k] && m.hop == hop + 1 <= MAX_HOPS && Derived(w, req, m.req)
    requires WellDerived(w, m.path, m.hop, m.req, caused) && ChainsDerived(w, caused)
    ensures OfAttempt(w, path, hop, req, k, [m] + caused)
  {
    var log := [m] + caused;
    forall i | 0 <= i < |caused|
      ensures path < caused[i].path && caused[i].path[|path|] == k && Derived(w, req, caused[i].req)
    {
      DerivedTransitive(w, req, m.req, caused[i].req);
      assert caused[i].path[..|m.path|] == m.path;
    }
    forall i, j | 0 <= i < |log| && 0 <= j < |log| && log[i].path < log[j].path
      ensures Derived(w, log[i].req, log[j].req)
    {
      assert j > 0 && log[j] == caused[j - 1];
      assert i > 0 ==> log[i] == caused[i - 1];
    }
  }

  /** What a forwarded request keeps of an earlier one. */
  predicate Kept(w: World, req: Request, later: Request) {
    later.url == req.url && later.payload == req.payload &&
    w.classify(req.region).Named? && later.region == w.classify(req.region).region &&
    (req.residential ==> later.residential) && (req.premium ==> later.premium)
  }

  /** Every forwarded message, and every message further down its chain, keeps the URL, the payload
      and the region; the residential and premium demands never go from true back to false, and
      the hop number grows up to three. */
  lemma ChainsKeepTheRequest(w: World, path: Path, req: Request)
    requires Lawful(w)
    ensures var log := Handle(w, path, 0, req).1;
            forall i :: 0 <= i < |log| ==> Kept(w, req, log[i].req) && 0 < log[i].hop <= 3
    ensures var log := Handle(w, path, 0, req).1;
            forall i, j :: 0 <= i < |log| && 0 <= j < |log| && log[i].path < log[j].path ==>
              Kept(w, log[i].req, log[j].req) && log[i].hop < log[j].hop
  {
    HandleDerives(w, path, 0, req);
  }
}
