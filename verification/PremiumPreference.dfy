/** What the premium preference costs (internal/pool/manager.go, egressCandidateGroup and its
    callers; internal/server/server.go, proxyAttemptRoutes): which templates a request for a named
    region attempts with the preference and without it. */
module PremiumPreference {
  import opened Pools
  import opened Egress
  import opened EgressTheorems
  import opened ProxyServer

  // ----- what is in a group -----

  /** The nodes of a class that can be tried: the live ones, or the try-offline one. */
  ghost function ClassNodes(snap: Snapshot, region: string, residential: bool): set<Choice> {
    AliveChoices(snap, region, residential) + OfflineChoices(snap, region, residential)
  }

  ghost predicate AnyPremium(S: set<Choice>) {
    exists c :: c in S && c.premium
  }

  ghost predicate AnyOrdinary(S: set<Choice>) {
    exists c :: c in S && !c.premium
  }

  /** Whether template `c` of a class with the nodes `N` and the templates `S` gets into the group. */
  ghost predicate Kept(N: set<Choice>, S: set<Choice>, premium: bool, withTemplates: bool, c: Choice) {
    withTemplates || (if premium then c.premium || (N == {} && !AnyPremium(S)) else N == {})
  }

  ghost predicate InGroup(snap: Snapshot, region: string, sel: Selector, withTemplates: bool, c: Choice) {
    var N := ClassNodes(snap, region, sel.residential);
    var S := TemplateChoices(snap, region, sel.residential);
    c in N || (c in S && Kept(N, S, sel.premium, withTemplates, c))
  }

  lemma PremiumGroupHolds(live: Choices, dead: Choices, templates: Choices, wt: bool, c: Choice)
    requires live == [] || dead == []
    requires Only(Nodes(live, dead), true) != [] || Only(templates, true) != []
    ensures PremiumGroup(live, dead, templates, wt) != []
    ensures c in PremiumGroup(live, dead, templates, wt)
       <==> c in live || c in dead || (c in templates && (c.premium || wt))
  {
    var nodes := Nodes(live, dead);
    PremiumGroupParts(live, dead, templates, wt);
    OnlyKeeps(nodes, true);
    OnlyKeeps(nodes, false);
    OnlyKeeps(templates, true);
    OnlyKeeps(templates, false);
  }

  lemma NoneIsPremium(s: Choices)
    ensures Only(s, true) == [] <==> forall c :: c in s ==> !c.premium
  {
    OnlyKeeps(s, true);
    if Only(s, true) != [] {
      assert Only(s, true)[0] in Only(s, true);
    }
  }

  lemma MergedHolds(live: Choices, dead: Choices, templates: Choices, premium: bool, wt: bool, c: Choice)
    requires live == [] || dead == []
    ensures var none := live == [] && dead == [];
            c in Merged(live, dead, templates, premium, wt) <==>
              c in live || c in dead ||
              (c in templates &&
                (wt || (if premium then c.premium || (none && Only(templates, true) == []) else none)))
  {
    var nodes := Nodes(live, dead);
    NoneIsPremium(templates);
    if premium {
      if Only(nodes, true) != [] || Only(templates, true) != [] {
        PremiumGroupHolds(live, dead, templates, wt, c);
      } else {
        PremiumGroupParts(live, dead, templates, wt);
      }
    }
  }

  /** The same for lists of given sets. */
  lemma MergedHoldsOf(live: Choices, dead: Choices, templates: Choices, N: set<Choice>, S: set<Choice>, premium: bool,
                      wt: bool, c: Choice)
    requires live == [] || dead == []
    requires forall x :: x in N <==> x in live || x in dead
    requires forall x :: x in S <==> x in templates
    ensures c in Merged(live, dead, templates, premium, wt) <==> c in N || (c in S && Kept(N, S, premium, wt, c))
  {
    NoneIsPremium(templates);
    MergedHolds(live, dead, templates, premium, wt, c);
    assert live != [] ==> live[0] in N;
    assert dead != [] ==> dead[0] in N;
  }

  lemma GroupHolds(snap: Snapshot, region: string, sel: Selector, wt: bool, d: Draw, c: Choice)
    requires DistinctNames(snap) && IsShuffle(d.shuffle)
    ensures c in Group(snap, region, sel, wt, d) <==> InGroup(snap, region, sel, wt, c)
  {
    var live, dead := LiveNodes(snap, region, sel.residential, d), OfflineNodes(snap, region, sel.residential, d);
    var templates := TemplateList(snap, region, sel);
    GroupLists(snap, region, sel.residential, d);
    TemplateListPermutes(snap, region, sel);
    SameMultiset(live, AliveChoices(snap, region, sel.residential));
    SameMultiset(dead, OfflineChoices(snap, region, sel.residential));
    SameMultiset(templates, TemplateChoices(snap, region, sel.residential));
    MergedHoldsOf(live, dead, templates, ClassNodes(snap, region, sel.residential),
                  TemplateChoices(snap, region, sel.residential), sel.premium, wt, c);
  }

  // ----- what is among the candidates -----

  ghost predicate InCandidates(snap: Snapshot, region: string, sel: Selector, wt: bool, c: Choice) {
    if Offer(snap, region, sel.residential) != {} then
      InGroup(snap, region, sel, wt, c) ||
      (sel.premium && !sel.residential && InGroup(snap, region, Selector(true, sel.premium), wt, c))
    else
      !sel.residential && InGroup(snap, region, Selector(true, sel.premium), wt, c)
  }

  lemma CandidatesHold(snap: Snapshot, region: string, sel: Selector, wt: bool, d: Draw, c: Choice)
    requires DistinctNames(snap) && IsShuffle(d.shuffle) && region != ""
    ensures c in Candidates(snap, region, sel, wt, d) <==> InCandidates(snap, region, sel, wt, c)
  {
    var d' := After(snap, region, sel, d);
    assert sel.(residential := true) == Selector(true, sel.premium);
    GroupMembers(snap, region, sel, wt, d);
    GroupHolds(snap, region, sel, wt, d, c);
    GroupHolds(snap, region, Selector(true, sel.premium), wt, d', c);
  }

  lemma {:induction false} NoNodesIff(s: Choices)
    ensures NodesOf(s) == [] <==> forall c :: c in s ==> c.template
  {
    if s != [] {
      NoNodesIff(s[1..]);
      assert s == [s[0]] + s[1..];
    }
  }

  /** A template is attempted if it is a candidate, unless there are nodes and the fallback is off;
      then only a premium template of a premium request is. */
  lemma {:induction false} TemplateAttempted(choices: Choices, n: nat, s: Settings, premium: bool, c: Choice)
    requires n <= |choices| && c.template
    ensures c in AttemptsUpTo(choices, n, s, premium) <==>
            c in choices[..n] && (NodesOf(choices) == [] || s.templateFallback || (premium && c.premium))
  {
    if n > 0 {
      TemplateAttempted(choices, n - 1, s, premium, c);
      assert choices[..n] == choices[..n - 1] + [choices[n - 1]];
    }
  }

  /** Nodes and templates can be told apart. */
  lemma Kinds(snap: Snapshot, region: string, residential: bool)
    ensures forall c :: c in ClassNodes(snap, region, residential) ==> !c.template
    ensures forall c :: c in TemplateChoices(snap, region, residential) ==> c.template
    ensures forall c :: c in Offer(snap, region, residential) ==> c.residential == residential
  {
    OfferIsOfClass(snap, region, residential);
  }

  /** Whether the candidates include a node. */
  ghost predicate HasNode(snap: Snapshot, region: string, sel: Selector) {
    if Offer(snap, region, sel.residential) != {} then
      ClassNodes(snap, region, sel.residential) != {} ||
      (sel.premium && !sel.residential && ClassNodes(snap, region, true) != {})
    else
      !sel.residential && ClassNodes(snap, region, true) != {}
  }

  lemma NodeFor(snap: Snapshot, region: string, sel: Selector, wt: bool) returns (c: Choice)
    requires HasNode(snap, region, sel)
    ensures !c.template && InCandidates(snap, region, sel, wt, c)
  {
    Kinds(snap, region, sel.residential);
    Kinds(snap, region, true);
    if Offer(snap, region, sel.residential) != {} && ClassNodes(snap, region, sel.residential) != {} {
      c :| c in ClassNodes(snap, region, sel.residential);
    } else {
      c :| c in ClassNodes(snap, region, true);
    }
  }

  lemma TemplatesOnly(snap: Snapshot, region: string, sel: Selector, wt: bool, c: Choice)
    requires !HasNode(snap, region, sel) && InCandidates(snap, region, sel, wt, c)
    ensures c.template
  {
    Kinds(snap, region, sel.residential);
    Kinds(snap, region, true);
  }

  lemma NodeAmongCandidates(snap: Snapshot, region: string, sel: Selector, wt: bool, d: Draw)
    requires DistinctNames(snap) && IsShuffle(d.shuffle) && region != ""
    ensures NodesOf(Candidates(snap, region, sel, wt, d)) == [] <==> !HasNode(snap, region, sel)
  {
    var cs := Candidates(snap, region, sel, wt, d);
    NoNodesIff(cs);
    if HasNode(snap, region, sel) {
      var c := NodeFor(snap, region, sel, wt);
      CandidatesHold(snap, region, sel, wt, d, c);
    } else {
      forall c | c in cs
        ensures c.template
      {
        CandidatesHold(snap, region, sel, wt, d, c);
        TemplatesOnly(snap, region, sel, wt, c);
      }
    }
  }

  /** The templates that a request attempts, in terms of the pools alone. */
  lemma AttemptsHold(snap: Snapshot, region: string, sel: Selector, s: Settings, d: Draw, c: Choice)
    requires DistinctNames(snap) && IsShuffle(d.shuffle) && region != "" && c.template
    ensures c in AttemptsFor(snap, region, sel, s, d) <==>
            InCandidates(snap, region, sel, s.templateFallback, c) &&
            (!HasNode(snap, region, sel) || s.templateFallback || (sel.premium && c.premium))
  {
    var cs := Candidates(snap, region, sel, s.templateFallback, d);
    CandidatesHold(snap, region, sel, s.templateFallback, d, c);
    NodeAmongCandidates(snap, region, sel, s.templateFallback, d);
    TemplateAttempted(cs, |cs|, s, sel.premium, c);
    assert cs[..|cs|] == cs;
  }

  // ----- what the preference loses -----

  /** Template `c` is attempted without the preference, but not with it. */
  ghost predicate Loses(snap: Snapshot, region: string, residential: bool, s: Settings, d: Draw, e: Draw, c: Choice) {
    c.template && c in AttemptsFor(snap, region, Selector(residential, false), s, d) &&
    c !in AttemptsFor(snap, region, Selector(residential, true), s, e)
  }

  /** Without the fallback, the own class has no node, and an ordinary template of it gives way to a
      premium one or to nodes of the residential class. */
  ghost predicate OwnTemplateGivesWay(snap: Snapshot, region: string, residential: bool) {
    var S := TemplateChoices(snap, region, residential);
    ClassNodes(snap, region, residential) == {} && AnyOrdinary(S) &&
    (AnyPremium(S) || (!residential && ClassNodes(snap, region, true) != {}))
  }

  /** The own class has nothing at all, the residential class no node, and an ordinary template of it
      gives way to a premium one. */
  ghost predicate FallbackTemplateGivesWay(snap: Snapshot, region: string, residential: bool) {
    var S := TemplateChoices(snap, region, true);
    Offer(snap, region, residential) == {} && !residential && ClassNodes(snap, region, true) == {} &&
    AnyOrdinary(S) && AnyPremium(S)
  }

  /** One template of the request's own class. */
  lemma LosesOwnIff(snap: Snapshot, region: string, residential: bool, s: Settings, d: Draw, e: Draw, c: Choice)
    requires DistinctNames(snap) && IsShuffle(d.shuffle) && IsShuffle(e.shuffle) && region != ""
    requires c in TemplateChoices(snap, region, residential)
    ensures Loses(snap, region, residential, s, d, e, c) <==>
            !s.templateFallback && !c.premium && OwnTemplateGivesWay(snap, region, residential)
  {
    Kinds(snap, region, residential);
    Kinds(snap, region, true);
    assert c in Offer(snap, region, residential);
    AttemptsHold(snap, region, Selector(residential, false), s, d, c);
    AttemptsHold(snap, region, Selector(residential, true), s, e, c);
  }

  /** One template of the residential class, for a request to the normal one. */
  lemma LosesFallbackIff(snap: Snapshot, region: string, s: Settings, d: Draw, e: Draw, c: Choice)
    requires DistinctNames(snap) && IsShuffle(d.shuffle) && IsShuffle(e.shuffle) && region != ""
    requires c in TemplateChoices(snap, region, true)
    ensures Loses(snap, region, false, s, d, e, c) <==>
            !s.templateFallback && !c.premium && FallbackTemplateGivesWay(snap, region, false)
  {
    Kinds(snap, region, false);
    Kinds(snap, region, true);
    assert c in Offer(snap, region, true);
    AttemptsHold(snap, region, Selector(false, false), s, d, c);
    AttemptsHold(snap, region, Selector(false, true), s, e, c);
  }

  lemma NothingWithoutRegion(snap: Snapshot, sel: Selector, s: Settings, d: Draw)
    ensures AttemptsFor(snap, "", sel, s, d) == []
  {
  }

  /** Only these can be lost. */
  lemma LostIsOffered(snap: Snapshot, region: string, residential: bool, s: Settings, d: Draw, e: Draw, c: Choice)
    requires DistinctNames(snap) && IsShuffle(d.shuffle) && Loses(snap, region, residential, s, d, e, c)
    ensures region != ""
    ensures c in TemplateChoices(snap, region, residential) ||
            (!residential && c in TemplateChoices(snap, region, true))
  {
    NothingWithoutRegion(snap, Selector(residential, false), s, d);
    if region != "" {
      Kinds(snap, region, residential);
      Kinds(snap, region, true);
      AttemptsHold(snap, region, Selector(residential, false), s, d, c);
    }
  }

  /** With the premium preference a request attempts every template that it would attempt without it,
      in all cases but two: the fallback is off, and a template gives way in its own class or in the
      residential one.  The strategies and round-robin counters of the two requests do not matter. */
  lemma PreferenceLosesIff(snap: Snapshot, region: string, residential: bool, s: Settings, d: Draw, e: Draw)
    requires DistinctNames(snap) && IsShuffle(d.shuffle) && IsShuffle(e.shuffle)
    ensures (exists c :: Loses(snap, region, residential, s, d, e, c)) <==>
            region != "" && !s.templateFallback &&
            (OwnTemplateGivesWay(snap, region, residential) || FallbackTemplateGivesWay(snap, region, residential))
  {
    if c :| Loses(snap, region, residential, s, d, e, c) {
      LostIsOffered(snap, region, residential, s, d, e, c);
      if c in TemplateChoices(snap, region, residential) {
        LosesOwnIff(snap, region, residential, s, d, e, c);
      } else {
        LosesFallbackIff(snap, region, s, d, e, c);
      }
    }
    if region != "" && !s.templateFallback {
      if OwnTemplateGivesWay(snap, region, residential) {
        var c :| c in TemplateChoices(snap, region, residential) && !c.premium;
        LosesOwnIff(snap, region, residential, s, d, e, c);
      } else if FallbackTemplateGivesWay(snap, region, residential) {
        var c :| c in TemplateChoices(snap, region, true) && !c.premium;
        LosesFallbackIff(snap, region, s, d, e, c);
      }
    }
  }

  /** Nodes are never lost as candidates. */
  lemma PreferenceKeepsNodes(snap: Snapshot, region: string, residential: bool, wt: bool, d: Draw, e: Draw, c: Choice)
    requires DistinctNames(snap) && IsShuffle(d.shuffle) && IsShuffle(e.shuffle)
    requires !c.template && c in Candidates(snap, region, Selector(residential, false), wt, d)
    ensures c in Candidates(snap, region, Selector(residential, true), wt, e)
  {
    Kinds(snap, region, residential);
    Kinds(snap, region, true);
    CandidatesHold(snap, region, Selector(residential, false), wt, d, c);
    CandidatesHold(snap, region, Selector(residential, true), wt, e, c);
  }

  // ----- a loss that no single group shows -----

  /** One ordinary template for normal requests, and one live residential node. */
  function TemplateAndNode(): Snapshot {
    map["t" := PoolState(PoolConfig(Template, true, false, false, false, NormalOnly, false, true, 0), []),
        "n" := PoolState(PoolConfig(Static, true, false, false, false, Unset, false, false, 0),
                         [EntryState("node", false, true, true, 0, 10, "DE", true, false)])]
  }

  lemma TemplateAndNodeOffers()
    ensures var snap := TemplateAndNode(); var t := TemplateChoice("t", snap["t"].config, "DE", false);
            DistinctNames(snap) && TemplateChoices(snap, "DE", false) == {t} && !t.premium && t.template &&
            ClassNodes(snap, "DE", false) == {} && ClassNodes(snap, "DE", true) != {}
  {
    var snap := TemplateAndNode();
    var entry := snap["n"].entries[0];
    assert entry in snap["n"].entries && NodePool(snap["n"].config);
    assert NodeChoice("n", snap["n"].config, entry, "DE", GroupOf("DE", true)) in AliveChoices(snap, "DE", true);
    assert MatchingNodes(snap, "DE", false) == {};
    assert OfflineChoices(snap, "DE", false) == {};
    assert TemplateChoice("t", snap["t"].config, "DE", false) in TemplateChoices(snap, "DE", false);
  }

  /** Without the fallback, the premium request does not attempt the template, since the residential node
      behind it counts as a node, although the template is in the premium group of its class. */
  lemma AppendedNodeHidesTemplate(s: Settings, d: Draw, e: Draw)
    requires IsShuffle(d.shuffle) && IsShuffle(e.shuffle) && !s.templateFallback
    ensures var snap := TemplateAndNode(); var t := TemplateChoice("t", snap["t"].config, "DE", false);
            Loses(snap, "DE", false, s, d, e, t) && t in Group(snap, "DE", Selector(false, true), false, e)
  {
    var snap := TemplateAndNode();
    var t := TemplateChoice("t", snap["t"].config, "DE", false);
    TemplateAndNodeOffers();
    LosesOwnIff(snap, "DE", false, s, d, e, t);
    GroupHolds(snap, "DE", Selector(false, true), false, e, t);
  }
}
