/** Round-robin over whole requests (internal/server/server.go, handleProxy): the same request for a
    named region comes again and again, and its first attempt is always answered. */
module RequestFairness {
  import opened Pools
  import opened Ordering
  import opened Egress
  import opened EgressTheorems
  import opened ProxyServer
  import opened SelectionFairness
  import opened Wrappers

  /** The options are those of the repeated selection. */
  predicate Asks(o: Options, q: Selection) {
    o.region == Named(q.region) && o.strategy == RoundRobin &&
    o.residential == q.sel.residential && o.premium == q.sel.premium
  }

  ghost predicate Fits(q: Selection, o: Options, s: Settings) {
    Valid(q) && Asks(o, q) && s.templateFallback == q.fallback && s.maxAttempts >= 1
  }

  /** The choice whose attempt answers a request. */
  ghost function AnsweredBy(snap: Snapshot, o: Options, s: Settings, d: Draw, oracle: nat -> Outcome): Option<Choice> {
    match Resolved(snap, o, s.templateFallback, d)
    case None => None
    case Some(route) =>
      var attempts := ProxyAttempts(route, s);
      match AnswerOf(attempts, oracle)
      case Some(Responded(i)) => if i < |attempts| then attempts[i] else None
      case _ => None
  }

  /** The pools and the round-robin counters between two requests. */
  datatype State = State(snap: Snapshot, counters: Counters)

  /** One request takes the gateway from one state to the next and is answered by `via`. */
  ghost predicate Serves(q: Selection, o: Options, s: Settings, oracle: nat -> Outcome, before: State, after: State,
                         via: Option<Choice>) {
    var d := Draw(RoundRobin, before.counters, q.shuffle);
    after == State(AfterRequest(before.snap, o, s, d, oracle),
                   ResolvedCounters(before.snap, o, s.templateFallback, d)) &&
    via == AnsweredBy(before.snap, o, s, d, oracle)
  }

  /** A run of requests through `states`; `outcomes(j)` are the outcomes of request `j`, which `via[j]`
      answers. */
  ghost predicate IsRun(q: Selection, o: Options, s: Settings, outcomes: nat -> nat -> Outcome, rr: Counters,
                        states: seq<State>, via: seq<Option<Choice>>) {
    if |via| == 0 then states == [State(q.snap, rr)]
    else
      var k := |via| - 1;
      |states| == k + 2 && IsRun(q, o, s, outcomes, rr, states[..k + 1], via[..k]) &&
      Serves(q, o, s, outcomes(k), states[k], states[k + 1], via[k])
  }

  /** How many of the requests `x` answers. */
  function TimesAnswered(via: seq<Option<Choice>>, x: Choice): nat {
    if via == [] then 0
    else TimesAnswered(via[..|via| - 1], x) + (if via[|via| - 1] == Some(x) then 1 else 0)
  }

  // ----- one request -----

  /** A node, or a premium template of a premium request, is attempted if it comes first. */
  lemma {:induction false} FirstIsAttempted(choices: Choices, n: nat, s: Settings, premium: bool)
    requires 0 < n <= |choices| && s.maxAttempts >= 1
    requires !choices[0].template || (premium && choices[0].premium)
    ensures AttemptsUpTo(choices, n, s, premium) != [] && AttemptsUpTo(choices, n, s, premium)[0] == choices[0]
  {
    if n > 1 {
      FirstIsAttempted(choices, n - 1, s, premium);
    } else {
      assert choices[..0] == [];
    }
  }

  /** What comes first in a selection that has live nodes. */
  lemma HeadKind(q: Selection, rr: Counters)
    requires Valid(q)
    ensures var head := Selected(q, rr, 0); head != [] && (!head[0].template || (q.sel.premium && head[0].premium))
  {
    if Plain(q) {
      var head := PlainFirst(q, rr, 0, Count(rr, Key(q)));
      var r := TurnIs(q, Count(rr, Key(q)));
      LiveFacts(q);
      assert head in Live(q) && head in Elements(Live(q));
    } else {
      var head := PreferredLeads(q, rr, 0);
    }
  }

  lemma RouteIs(q: Selection, o: Options, s: Settings, d: Draw, choices: Choices)
    requires Asks(o, q) && s.templateFallback == q.fallback
    requires choices == Candidates(q.snap, q.region, q.sel, q.fallback, d) && choices != []
    ensures var route := Resolved(q.snap, o, s.templateFallback, d);
            route.Some? && route.value.choices == choices && route.value.premium == q.sel.premium
    ensures ResolvedCounters(q.snap, o, s.templateFallback, d)
         == CandidateCounters(q.snap, q.region, q.sel, q.fallback, d)
  {
    assert Selector(o.residential, o.premium) == q.sel;
  }

  /** A request whose first attempt is answered leaves the pools as they are, moves the counters on by
      one selection, and is answered by the first candidate. */
  lemma OneRequest(q: Selection, o: Options, s: Settings, rr: Counters, oracle: nat -> Outcome)
    requires Fits(q, o, s) && oracle(0) == Ok
    ensures var d := Draw(RoundRobin, rr, q.shuffle);
            AfterRequest(q.snap, o, s, d, oracle) == q.snap &&
            ResolvedCounters(q.snap, o, s.templateFallback, d) == CountersNext(q, rr) &&
            AnswerTo(q.snap, o, s, d, oracle) == Some(Responded(0)) &&
            Selected(q, rr, 0) != [] && AnsweredBy(q.snap, o, s, d, oracle) == Some(Selected(q, rr, 0)[0])
  {
    var d := Draw(RoundRobin, rr, q.shuffle);
    var choices := Candidates(q.snap, q.region, q.sel, q.fallback, d);
    HeadKind(q, rr);
    FirstIsAttempted(choices, |choices|, s, q.sel.premium);
    RouteIs(q, o, s, d, choices);
    FirstAnswered(q.snap, Resolved(q.snap, o, s.templateFallback, d).value, s, oracle);
  }

  lemma FirstAnswered(snap: Snapshot, route: Route, s: Settings, oracle: nat -> Outcome)
    requires route.choices != [] && AttemptList(route.choices, s, route.premium) != [] && oracle(0) == Ok
    ensures AfterRoute(snap, route, s, oracle) == snap
    ensures AnswerOf(ProxyAttempts(route, s), oracle) == Some(Responded(0))
    ensures ProxyAttempts(route, s)[0] == Some(AttemptList(route.choices, s, route.premium)[0])
  {
    var attempts := ProxyAttempts(route, s);
    assert StopsAt(oracle, |attempts|, 0) == 0;
    assert Reported(attempts, oracle, 1) == Reported(attempts, oracle, 0) + [];
  }

  // ----- many requests -----

  /** The answer comes from the head of selection `k`. */
  ghost predicate AnsweredByHead(q: Selection, rr: Counters, k: nat, via: Option<Choice>) {
    via.Some? && SelectedHead(q, rr, k, via.value)
  }

  lemma RequestMovesOn(q: Selection, o: Options, s: Settings, rr: Counters, k: nat, oracle: nat -> Outcome,
                       before: State, after: State, via: Option<Choice>)
    requires Fits(q, o, s) && oracle(0) == Ok && Serves(q, o, s, oracle, before, after, via)
    requires before == State(q.snap, CountersAfter(q, rr, k))
    ensures after == State(q.snap, CountersAfter(q, rr, k + 1))
    ensures AnsweredByHead(q, rr, k, via)
  {
    ServedOnce(q, o, s, CountersAfter(q, rr, k), oracle, before, after, via);
    SelectedFrom(q, rr, k);
  }

  lemma ServedOnce(q: Selection, o: Options, s: Settings, c: Counters, oracle: nat -> Outcome,
                   before: State, after: State, via: Option<Choice>)
    requires Fits(q, o, s) && oracle(0) == Ok && Serves(q, o, s, oracle, before, after, via)
    requires before == State(q.snap, c)
    ensures after == State(q.snap, CountersNext(q, c))
    ensures Selected(q, c, 0) != [] && via == Some(Selected(q, c, 0)[0])
  {
    OneRequest(q, o, s, c, oracle);
  }

  /** Selection `k` is the first one with the counters reached by then. */
  lemma SelectedFrom(q: Selection, rr: Counters, k: nat)
    ensures Selected(q, rr, k) == Selected(q, CountersAfter(q, rr, k), 0)
    ensures CountersAfter(q, rr, k + 1) == CountersNext(q, CountersAfter(q, rr, k))
  {
  }

  /** If the state before request `k` is as after `k` selections, the next one is too, and the request is
      answered by the head of the selection. */
  ghost predicate MovesOn(q: Selection, rr: Counters, k: nat, before: State, after: State, via: Option<Choice>) {
    before == State(q.snap, CountersAfter(q, rr, k)) ==>
      after == State(q.snap, CountersAfter(q, rr, k + 1)) && AnsweredByHead(q, rr, k, via)
  }

  lemma {:induction false} RunMovesOn(q: Selection, o: Options, s: Settings, outcomes: nat -> nat -> Outcome,
                                      rr: Counters, states: seq<State>, via: seq<Option<Choice>>)
    requires Fits(q, o, s) && forall j: nat :: outcomes(j)(0) == Ok
    requires IsRun(q, o, s, outcomes, rr, states, via)
    ensures |states| == |via| + 1 && states[0] == State(q.snap, rr)
    ensures forall j :: 0 <= j < |via| ==> MovesOn(q, rr, j, states[j], states[j + 1], via[j])
  {
    if via != [] {
      var k := |via| - 1;
      RunMovesOn(q, o, s, outcomes, rr, states[..k + 1], via[..k]);
      ServesMovesOn(q, o, s, rr, k, outcomes(k), states[k], states[k + 1], via[k]);
      AllMoveOn(q, rr, states, via, k);
    }
  }

  lemma ServesMovesOn(q: Selection, o: Options, s: Settings, rr: Counters, k: nat, oracle: nat -> Outcome,
                      before: State, after: State, via: Option<Choice>)
    requires Fits(q, o, s) && oracle(0) == Ok && Serves(q, o, s, oracle, before, after, via)
    ensures MovesOn(q, rr, k, before, after, via)
  {
    if before == State(q.snap, CountersAfter(q, rr, k)) {
      RequestMovesOn(q, o, s, rr, k, oracle, before, after, via);
    }
  }

  lemma AllMoveOn(q: Selection, rr: Counters, states: seq<State>, via: seq<Option<Choice>>, k: nat)
    requires |via| == k + 1 && |states| == k + 2 && MovesOn(q, rr, k, states[k], states[k + 1], via[k])
    requires forall j :: 0 <= j < k ==> MovesOn(q, rr, j, states[..k + 1][j], states[..k + 1][j + 1], via[..k][j])
    ensures forall j :: 0 <= j < |via| ==> MovesOn(q, rr, j, states[j], states[j + 1], via[j])
  {
    forall j | 0 <= j < |via|
      ensures MovesOn(q, rr, j, states[j], states[j + 1], via[j])
    {
      if j < k {
        assert MovesOn(q, rr, j, states[..k + 1][j], states[..k + 1][j + 1], via[..k][j]);
      }
    }
  }

  /** The requests are answered by the heads of the selections. */
  lemma {:induction false} StatesFollow(q: Selection, rr: Counters, states: seq<State>, via: seq<Option<Choice>>,
                                        k: nat)
    requires |states| == |via| + 1 && states[0] == State(q.snap, rr) && k <= |via|
    requires forall j :: 0 <= j < |via| ==> MovesOn(q, rr, j, states[j], states[j + 1], via[j])
    ensures states[k] == State(q.snap, CountersAfter(q, rr, k))
    ensures k < |via| ==> AnsweredByHead(q, rr, k, via[k])
  {
    if k > 0 {
      StatesFollow(q, rr, states, via, k - 1);
      assert MovesOn(q, rr, k - 1, states[k - 1], states[k], via[k - 1]);
    }
    assert k < |via| ==> MovesOn(q, rr, k, states[k], states[k + 1], via[k]);
  }

  lemma RunFollows(q: Selection, o: Options, s: Settings, outcomes: nat -> nat -> Outcome, rr: Counters,
                   states: seq<State>, via: seq<Option<Choice>>)
    requires Fits(q, o, s) && forall j: nat :: outcomes(j)(0) == Ok
    requires IsRun(q, o, s, outcomes, rr, states, via)
    ensures forall j :: 0 <= j < |via| ==> AnsweredByHead(q, rr, j, via[j])
  {
    RunMovesOn(q, o, s, outcomes, rr, states, via);
    forall j | 0 <= j < |via|
      ensures AnsweredByHead(q, rr, j, via[j])
    {
      StatesFollow(q, rr, states, via, j);
    }
  }

  lemma AnswersStep(q: Selection, rr: Counters, via: seq<Option<Choice>>, k: nat, x: Choice)
    requires |via| == k + 1 && TimesAnswered(via[..k], x) == TimesSelected(q, rr, k, x)
    requires AnsweredByHead(q, rr, k, via[k])
    ensures TimesAnswered(via, x) == TimesSelected(q, rr, k + 1, x)
  {
    TimesStep(q, rr, k, x, via[k].value);
  }

  /** A choice answers as many requests as it leads selections. */
  lemma {:induction false} AnswersAreSelections(q: Selection, rr: Counters, via: seq<Option<Choice>>, x: Choice)
    requires forall j :: 0 <= j < |via| ==> AnsweredByHead(q, rr, j, via[j])
    ensures TimesAnswered(via, x) == TimesSelected(q, rr, |via|, x)
  {
    if via != [] {
      var k := |via| - 1;
      AnswersAreSelections(q, rr, via[..k], x);
      AnswersStep(q, rr, via, k, x);
    }
  }

  /** `x` answers its fair share of `k` requests. */
  predicate FairAnswers(n: nat, via: seq<Option<Choice>>, x: Choice)
    requires n > 0
  {
    |via| / n <= TimesAnswered(via, x) <= |via| / n + (if |via| % n == 0 then 0 else 1)
  }

  /** In every run of such requests every live node of the class answers its fair share. */
  ghost predicate AlwaysFairAnswers(q: Selection, o: Options, s: Settings, outcomes: nat -> nat -> Outcome)
    requires Live(q) != []
  {
    forall rr, states, via, x :: IsRun(q, o, s, outcomes, rr, states, via) && x in Live(q) ==>
      FairAnswers(|Live(q)|, via, x)
  }

  lemma FairAlike(q: Selection, o: Options, s: Settings, outcomes: nat -> nat -> Outcome, rr: Counters,
                  states: seq<State>, via: seq<Option<Choice>>, x: Choice)
    requires Fits(q, o, s) && forall j: nat :: outcomes(j)(0) == Ok
    requires IsRun(q, o, s, outcomes, rr, states, via)
    ensures FairAnswers(|Live(q)|, via, x) <==> FairShare(q, rr, |via|, x)
  {
    RunFollows(q, o, s, outcomes, rr, states, via);
    AnswersAreSelections(q, rr, via, x);
  }

  /** There are runs of every length. */
  lemma {:induction false} RunExists(q: Selection, o: Options, s: Settings, outcomes: nat -> nat -> Outcome,
                                     rr: Counters, k: nat) returns (states: seq<State>, via: seq<Option<Choice>>)
    ensures |via| == k && |states| == k + 1 && IsRun(q, o, s, outcomes, rr, states, via)
  {
    if k == 0 {
      states, via := [State(q.snap, rr)], [];
    } else {
      states, via := RunExists(q, o, s, outcomes, rr, k - 1);
      var after, answer := Serve(q, o, s, outcomes(k - 1), states[k - 1]);
      OneMoreRequest(q, o, s, outcomes, rr, states, via, after, answer);
      states, via := states + [after], via + [answer];
    }
  }

  lemma Serve(q: Selection, o: Options, s: Settings, oracle: nat -> Outcome, before: State)
    returns (after: State, via: Option<Choice>)
    ensures Serves(q, o, s, oracle, before, after, via)
  {
    var d := Draw(RoundRobin, before.counters, q.shuffle);
    after := State(AfterRequest(before.snap, o, s, d, oracle),
                   ResolvedCounters(before.snap, o, s.templateFallback, d));
    via := AnsweredBy(before.snap, o, s, d, oracle);
  }

  lemma OneMoreRequest(q: Selection, o: Options, s: Settings, outcomes: nat -> nat -> Outcome, rr: Counters,
                       states: seq<State>, via: seq<Option<Choice>>, after: State, answer: Option<Choice>)
    requires IsRun(q, o, s, outcomes, rr, states, via) && |states| == |via| + 1
    requires Serves(q, o, s, outcomes(|via|), states[|via|], after, answer)
    ensures IsRun(q, o, s, outcomes, rr, states + [after], via + [answer])
  {
    assert (states + [after])[..|states|] == states && (via + [answer])[..|via|] == via;
  }

  /** Whole requests share the live nodes of their class fairly exactly if nothing premium is preferred
      or all live nodes are premium. */
  lemma RequestsAreFairIff(q: Selection, o: Options, s: Settings, outcomes: nat -> nat -> Outcome)
    requires Fits(q, o, s) && forall j: nat :: outcomes(j)(0) == Ok
    ensures AlwaysFairAnswers(q, o, s, outcomes) <==> Plain(q) || forall c :: c in Live(q) ==> c.premium
  {
    FairIff(q);
    if AlwaysFair(q) {
      forall rr, states, via, x | IsRun(q, o, s, outcomes, rr, states, via) && x in Live(q)
        ensures FairAnswers(|Live(q)|, via, x)
      {
        FairAlike(q, o, s, outcomes, rr, states, via, x);
        assert FairShare(q, rr, |via|, x);
      }
    } else {
      var rr, k, x :| x in Live(q) && !FairShare(q, rr, k, x);
      var states, via := RunExists(q, o, s, outcomes, rr, k);
      FairAlike(q, o, s, outcomes, rr, states, via, x);
    }
  }
}
