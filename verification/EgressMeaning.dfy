/** Egress selection in terms of the pools' own settings (internal/pool/manager.go): which nodes and
    templates become candidates, and in which order the lists come.  Nothing here refers to the sets
    and comparators of `Egress`. */
module EgressMeaning {
  import opened Pools
  import opened Ordering
  import opened Egress
  import opened EgressTheorems
  import P = PremiumPreference
  import opened Text

  // ----- which nodes -----

  /** A node that serves a region and class: switched on, in a pool of nodes that is switched on. */
  ghost predicate Serves(snap: Snapshot, n: string, e: EntryState, region: string, residential: bool) {
    n in snap && e in snap[n].entries &&
    snap[n].config.enabled && (snap[n].config.source == Static || snap[n].config.source == Subscription) &&
    e.enabled && e.region == region && e.residential == residential
  }

  /** A dead node that is tried all the same: its subscription asks for it, and it is the only node that
      serves its region and class. */
  ghost predicate TriedDead(snap: Snapshot, n: string, e: EntryState, region: string, residential: bool) {
    Serves(snap, n, e, region, residential) && !e.alive &&
    snap[n].config.source == Subscription && snap[n].config.tryOffline &&
    forall m, f :: Serves(snap, m, f, region, residential) ==> m == n && f == e
  }

  /** The node can be tried now. */
  ghost predicate CanTry(snap: Snapshot, n: string, e: EntryState, region: string, residential: bool) {
    Serves(snap, n, e, region, residential) && (e.alive || TriedDead(snap, n, e, region, residential))
  }

  /** Choice `c` stands for node `e` of pool `n`. */
  predicate StandsFor(c: Choice, n: string, config: PoolConfig, e: EntryState, region: string, group: string) {
    c.pool == n && c.node == e.name && c.source == config.source && c.region == region && c.group == group &&
    c.residential == e.residential && c.premium == e.premium && c.latency == e.latency &&
    !c.template && !c.chijie && c.priority == 0
  }

  function GroupName(region: string, residential: bool): string {
    if residential then region + "-RES" else region
  }

  ghost predicate IsNode(snap: Snapshot, region: string, residential: bool, c: Choice) {
    exists n, e :: CanTry(snap, n, e, region, residential) &&
      StandsFor(c, n, snap[n].config, e, region, GroupName(region, residential))
  }

  lemma ServesIffMatching(snap: Snapshot, region: string, residential: bool)
    ensures forall n, e ::
              Serves(snap, n, e, region, residential) <==> (n, e) in MatchingNodes(snap, region, residential)
  {
  }

  lemma DeadIsTried(snap: Snapshot, n: string, e: EntryState, region: string, residential: bool)
    requires region != ""
    ensures TriedDead(snap, n, e, region, residential) ==>
              NodeChoice(n, snap[n].config, e, region, GroupName(region, residential))
              in OfflineChoices(snap, region, residential)
  {
    ServesIffMatching(snap, region, residential);
    if TriedDead(snap, n, e, region, residential) {
      assert MatchingNodes(snap, region, residential) == {(n, e)} by {
        forall x | x in MatchingNodes(snap, region, residential)
          ensures x == (n, e)
        {
          assert Serves(snap, x.0, x.1, region, residential);
        }
      }
    }
  }

  /** The nodes of a class are the switched-on ones that are alive, or the only one if it is to be tried
      though dead. */
  lemma ClassNodesAre(snap: Snapshot, region: string, residential: bool, c: Choice)
    requires region != ""
    ensures c in P.ClassNodes(snap, region, residential) <==> IsNode(snap, region, residential, c)
  {
    ServesIffMatching(snap, region, residential);
    if c in AliveChoices(snap, region, residential) {
      var n, e :| n in snap && e in snap[n].entries && NodePool(snap[n].config) && e.alive &&
        Matching(e, region, residential) &&
        c == NodeChoice(n, snap[n].config, e, region, GroupOf(region, residential));
      assert CanTry(snap, n, e, region, residential);
    } else if c in OfflineChoices(snap, region, residential) {
      DeadNodeServes(snap, region, residential, c);
    }
    if IsNode(snap, region, residential, c) {
      var n, e :| CanTry(snap, n, e, region, residential) &&
        StandsFor(c, n, snap[n].config, e, region, GroupName(region, residential));
      assert c == NodeChoice(n, snap[n].config, e, region, GroupOf(region, residential));
      DeadIsTried(snap, n, e, region, residential);
    }
  }

  lemma DeadNodeServes(snap: Snapshot, region: string, residential: bool, c: Choice)
    requires region != "" && c in OfflineChoices(snap, region, residential)
    ensures IsNode(snap, region, residential, c)
  {
    var n, e :| n in snap && e in snap[n].entries &&
      MatchingNodes(snap, region, residential) == {(n, e)} && TriedOffline(snap[n].config, e) &&
      c == NodeChoice(n, snap[n].config, e, region, GroupOf(region, residential));
    ServesIffMatching(snap, region, residential);
    assert (n, e) in MatchingNodes(snap, region, residential);
    forall m, f | Serves(snap, m, f, region, residential)
      ensures m == n && f == e
    {
      assert (m, f) in {(n, e)};
    }
    assert CanTry(snap, n, e, region, residential);
  }

  // ----- which templates -----

  /** Choice `c` stands for a template for the region and class: its pool is a template that is switched
      on, can be used and covers the class.  Coverage that is not set means both classes for a Chijie
      template and the template's own class otherwise. */
  ghost predicate IsTemplate(snap: Snapshot, region: string, residential: bool, c: Choice) {
    c.pool in snap &&
    var config := snap[c.pool].config;
    config.source == Template && config.enabled && config.usable &&
    (config.coverage == NormalOnly ==> !residential) &&
    (config.coverage == ResidentialOnly ==> residential) &&
    (config.coverage == Unset && !config.chijie ==> residential == config.residential) &&
    c.template && c.node == c.pool + "-" + Lower(region) && c.source == Template && c.region == region &&
    c.group == GroupName(region, residential) && c.residential == residential && c.premium == config.premium &&
    c.chijie == config.chijie && c.priority == config.priority && c.latency == 0
  }

  lemma TemplatesAre(snap: Snapshot, region: string, residential: bool, c: Choice)
    requires region != ""
    ensures c in TemplateChoices(snap, region, residential) <==> IsTemplate(snap, region, residential, c)
  {
    if IsTemplate(snap, region, residential, c) {
      assert c == TemplateChoice(c.pool, snap[c.pool].config, region, residential);
    }
  }

  // ----- the candidates -----

  /** The class has something to offer. */
  ghost predicate HasSome(snap: Snapshot, region: string, residential: bool) {
    exists c :: IsNode(snap, region, residential, c) || IsTemplate(snap, region, residential, c)
  }

  ghost predicate HasNodes(snap: Snapshot, region: string, residential: bool) {
    exists c :: IsNode(snap, region, residential, c)
  }

  ghost predicate HasPremiumTemplate(snap: Snapshot, region: string, residential: bool) {
    exists c :: IsTemplate(snap, region, residential, c) && c.premium
  }

  /** The classes a request draws on: its own; and for a normal request the residential one, if the normal
      class has nothing or premium is preferred. */
  ghost predicate Draws(snap: Snapshot, region: string, sel: Selector, residential: bool) {
    residential == sel.residential ||
    (residential && (sel.premium || !HasSome(snap, region, false)))
  }

  /** A template is left out only without the template fallback: a premium request then takes premium
      templates, and ordinary ones if the class has neither nodes nor premium templates; any other
      request takes templates only if the class has no nodes. */
  ghost predicate TakesTemplate(snap: Snapshot, region: string, residential: bool, premium: bool, fallback: bool,
                                c: Choice) {
    fallback || (premium && c.premium) ||
    (!HasNodes(snap, region, residential) && (premium ==> !HasPremiumTemplate(snap, region, residential)))
  }

  lemma OfferIs(snap: Snapshot, region: string, residential: bool)
    requires region != ""
    ensures Offer(snap, region, residential) != {} <==> HasSome(snap, region, residential)
    ensures P.ClassNodes(snap, region, residential) != {} <==> HasNodes(snap, region, residential)
    ensures P.AnyPremium(TemplateChoices(snap, region, residential)) <==> HasPremiumTemplate(snap, region, residential)
  {
    forall c
      ensures c in P.ClassNodes(snap, region, residential) <==> IsNode(snap, region, residential, c)
      ensures c in TemplateChoices(snap, region, residential) <==> IsTemplate(snap, region, residential, c)
    {
      ClassNodesAre(snap, region, residential, c);
      TemplatesAre(snap, region, residential, c);
    }
    assert Offer(snap, region, residential)
        == P.ClassNodes(snap, region, residential) + TemplateChoices(snap, region, residential);
  }

  ghost predicate Takes(snap: Snapshot, region: string, residential: bool, premium: bool, fallback: bool, c: Choice) {
    IsNode(snap, region, residential, c) ||
    (IsTemplate(snap, region, residential, c) && TakesTemplate(snap, region, residential, premium, fallback, c))
  }

  lemma InGroupIs(snap: Snapshot, region: string, residential: bool, premium: bool, fallback: bool, c: Choice)
    requires region != ""
    ensures P.InGroup(snap, region, Selector(residential, premium), fallback, c) <==>
            Takes(snap, region, residential, premium, fallback, c)
  {
    ClassNodesAre(snap, region, residential, c);
    TemplatesAre(snap, region, residential, c);
    OfferIs(snap, region, residential);
  }

  /** The candidates of a request for a named region are exactly the nodes that can be tried and the
      templates that are taken, of the classes it draws on. */
  lemma CandidatesAre(snap: Snapshot, region: string, sel: Selector, fallback: bool, d: Draw, c: Choice)
    requires DistinctNames(snap) && IsShuffle(d.shuffle) && region != ""
    ensures c in Candidates(snap, region, sel, fallback, d) <==>
            exists residential :: Draws(snap, region, sel, residential) &&
              Takes(snap, region, residential, sel.premium, fallback, c)
  {
    P.CandidatesHold(snap, region, sel, fallback, d, c);
    InGroupIs(snap, region, sel.residential, sel.premium, fallback, c);
    InGroupIs(snap, region, true, sel.premium, fallback, c);
    OfferIs(snap, region, sel.residential);
    TakenIsOffered(snap, region, sel.residential, sel.premium, fallback, c);
    assert Draws(snap, region, sel, sel.residential);
    assert sel.residential || sel.premium || !HasSome(snap, region, false) ==> Draws(snap, region, sel, true);
  }

  lemma TakenIsOffered(snap: Snapshot, region: string, residential: bool, premium: bool, fallback: bool, c: Choice)
    ensures Takes(snap, region, residential, premium, fallback, c) ==> HasSome(snap, region, residential)
  {
  }

  /** So a node that is switched on, alive and in the request's own region and class is a candidate. */
  lemma LiveNodeIsCandidate(snap: Snapshot, region: string, sel: Selector, fallback: bool, d: Draw, n: string,
                            e: EntryState)
    requires DistinctNames(snap) && IsShuffle(d.shuffle) && region != ""
    requires n in snap && e in snap[n].entries && snap[n].config.enabled
    requires snap[n].config.source == Static || snap[n].config.source == Subscription
    requires e.enabled && e.alive && e.region == region && e.residential == sel.residential
    ensures exists c :: c in Candidates(snap, region, sel, fallback, d) && c.pool == n && c.node == e.name
  {
    var c := NodeChoice(n, snap[n].config, e, region, GroupName(region, sel.residential));
    assert CanTry(snap, n, e, region, sel.residential);
    assert IsNode(snap, region, sel.residential, c) && Draws(snap, region, sel, sel.residential);
    CandidatesAre(snap, region, sel, fallback, d, c);
  }

  /** And every candidate that is no template is a node that is switched on, in an enabled pool of nodes, of
      the region, and either alive or the only such node and marked to be tried. */
  lemma CandidateIsLiveNode(snap: Snapshot, region: string, sel: Selector, fallback: bool, d: Draw, c: Choice)
    returns (e: EntryState)
    requires DistinctNames(snap) && IsShuffle(d.shuffle)
    requires c in Candidates(snap, region, sel, fallback, d) && !c.template
    ensures c.pool in snap && e in snap[c.pool].entries && e.name == c.node && snap[c.pool].config.enabled
    ensures snap[c.pool].config.source == Static || snap[c.pool].config.source == Subscription
    ensures e.enabled && e.region == region && e.residential == c.residential
    ensures e.alive || TriedDead(snap, c.pool, e, region, c.residential)
  {
    NothingWithoutRegion(snap, sel, fallback, d);
    CandidatesAre(snap, region, sel, fallback, d, c);
    var residential :| Takes(snap, region, residential, sel.premium, fallback, c);
    TakenNode(snap, region, residential, sel.premium, fallback, c);
    e := NodeBehind(snap, region, residential, c);
  }

  lemma TakenNode(snap: Snapshot, region: string, residential: bool, premium: bool, fallback: bool, c: Choice)
    requires Takes(snap, region, residential, premium, fallback, c) && !c.template
    ensures IsNode(snap, region, residential, c)
  {
  }

  lemma NothingWithoutRegion(snap: Snapshot, sel: Selector, fallback: bool, d: Draw)
    ensures Candidates(snap, "", sel, fallback, d) == []
  {
  }

  lemma NodeBehind(snap: Snapshot, region: string, residential: bool, c: Choice) returns (e: EntryState)
    requires IsNode(snap, region, residential, c)
    ensures CanTry(snap, c.pool, e, region, residential) && e.name == c.node && c.residential == residential
  {
    var n, found :| CanTry(snap, n, found, region, residential) &&
      StandsFor(c, n, snap[n].config, found, region, GroupName(region, residential));
    e := found;
  }

  /** Selection fails exactly if no class that the request draws on has anything to offer. */
  lemma NoCandidatesIff(snap: Snapshot, region: string, sel: Selector, fallback: bool, d: Draw)
    requires DistinctNames(snap) && IsShuffle(d.shuffle) && region != ""
    ensures Candidates(snap, region, sel, fallback, d) == [] <==>
            !HasSome(snap, region, sel.residential) && (sel.residential || !HasSome(snap, region, true))
  {
    SelectionFailsIff(snap, region, sel, fallback, d);
    OfferIs(snap, region, sel.residential);
    OfferIs(snap, region, true);
  }

  // ----- the order of the lists -----

  /** The order of strings: behind a common start, the shorter one or the one with the smaller byte. */
  ghost predicate Precedes(a: string, b: string) {
    exists k: nat :: k <= |a| && k < |b| && a[..k] == b[..k] && (k == |a| || a[k] < b[k])
  }

  lemma {:induction false} StringLessPrecedes(a: string, b: string)
    requires StringLess(a, b)
    ensures Precedes(a, b)
  {
    if a == "" || a[0] < b[0] {
      assert a[..0] == b[..0];
    } else {
      StringLessPrecedes(a[1..], b[1..]);
      var k: nat :| k <= |a[1..]| && k < |b[1..]| && a[1..][..k] == b[1..][..k] &&
        (k == |a[1..]| || a[1..][k] < b[1..][k]);
      assert a[..k + 1] == [a[0]] + a[1..][..k] && b[..k + 1] == [b[0]] + b[1..][..k];
    }
  }

  /** By pool name, then by node name. */
  ghost predicate NamesInOrder(a: Choice, b: Choice) {
    Precedes(a.pool, b.pool) || (a.pool == b.pool && Precedes(a.node, b.node))
  }

  ghost predicate NamesSorted(s: seq<Choice>) {
    forall i, j :: 0 <= i < j < |s| ==> NamesInOrder(s[i], s[j])
  }

  /** Smaller latencies first, unknown ones (0) last, equal ones by name. */
  ghost predicate LatenciesSorted(s: seq<Choice>) {
    forall i, j :: 0 <= i < j < |s| ==>
      (s[i].latency == 0 ==> s[j].latency == 0) &&
      (s[i].latency != 0 && s[j].latency != 0 ==> s[i].latency <= s[j].latency) &&
      (s[i].latency == s[j].latency ==> NamesInOrder(s[i], s[j]))
  }

  /** For a premium request premium templates first; then falling priorities, equal ones by pool name. */
  ghost predicate TemplatesSorted(s: seq<Choice>, premium: bool) {
    forall i, j :: 0 <= i < j < |s| ==>
      (premium && s[j].premium ==> s[i].premium) &&
      (!premium || s[i].premium == s[j].premium ==>
        s[i].priority >= s[j].priority && (s[i].priority == s[j].priority ==> Precedes(s[i].pool, s[j].pool)))
  }

  lemma NameLessInOrder(a: Choice, b: Choice)
    requires NameLess(a, b)
    ensures NamesInOrder(a, b)
  {
    if a.pool == b.pool {
      StringLessPrecedes(a.node, b.node);
    } else {
      StringLessPrecedes(a.pool, b.pool);
    }
  }

  /** The live nodes of a class are listed by name, and so is the try-offline node. */
  lemma EntryListIsSorted(snap: Snapshot, region: string, residential: bool)
    requires DistinctNames(snap)
    ensures NamesSorted(EntryList(snap, region, residential)) && NamesSorted(OfflineList(snap, region, residential))
  {
    var s := EntryList(snap, region, residential);
    ChoicesAreIdentified(snap, region, residential);
    NodeOrdersAreTotal(AliveChoices(snap, region, residential));
    ListingLists(NameLess, AliveChoices(snap, region, residential));
    OfflineIsSingle(snap, region, residential);
    forall i, j | 0 <= i < j < |s|
      ensures NamesInOrder(s[i], s[j])
    {
      NameLessInOrder(s[i], s[j]);
    }
  }

  lemma LatencyListingIsSorted(S: set<Choice>)
    requires NamesIdentify(S)
    ensures LatenciesSorted(Listing(LatencyLess, S))
  {
    var s := Listing(LatencyLess, S);
    NodeOrdersAreTotal(S);
    ListingLists(LatencyLess, S);
    forall i, j | 0 <= i < j < |s|
      ensures s[i].latency == 0 ==> s[j].latency == 0
      ensures s[i].latency != 0 && s[j].latency != 0 ==> s[i].latency <= s[j].latency
      ensures s[i].latency == s[j].latency ==> NamesInOrder(s[i], s[j])
    {
      assert LatencyLess(s[i], s[j]);
      if s[i].latency == s[j].latency {
        NameLessInOrder(s[i], s[j]);
      }
    }
  }

  /** With the strategy least-latency the candidates are tried by latency. */
  lemma LeastLatencyIsSorted(s: seq<Choice>, count: nat, shuffle: Shuffle)
    requires NamesIdentify(Elements(s))
    ensures LatenciesSorted(Ordered(s, LeastLatency, count, shuffle))
  {
    LatencyListingIsSorted(Elements(s));
  }

  /** With round-robin they are tried from the counted place on, around the list. */
  lemma RoundRobinTurns(s: seq<Choice>, count: nat, shuffle: Shuffle, i: nat)
    requires i < |s|
    ensures var n, start := |s|, count % |s|; var r := Ordered(s, RoundRobin, count, shuffle);
            |r| == n && r[i] == s[if start + i < n then start + i else start + i - n]
  {
  }

  /** Without a region the nodes are listed by latency. */
  lemma AnyListIsSorted(snap: Snapshot, residential: bool, maxLatency: int)
    requires DistinctNames(snap)
    ensures LatenciesSorted(AnyList(snap, residential, maxLatency))
  {
    AnyChoicesAreIdentified(snap, residential, maxLatency);
    LatencyListingIsSorted(AnyChoices(snap, residential, maxLatency));
  }

  lemma PriorityInOrder(a: Choice, b: Choice, premium: bool)
    requires TemplateOrder(premium)(a, b)
    ensures premium && b.premium ==> a.premium
    ensures !premium || a.premium == b.premium ==>
              a.priority >= b.priority && (a.priority == b.priority ==> Precedes(a.pool, b.pool))
  {
    if a.priority == b.priority && (!premium || a.premium == b.premium) {
      StringLessPrecedes(a.pool, b.pool);
    }
  }

  lemma TemplateListIsSorted(snap: Snapshot, region: string, sel: Selector)
    requires DistinctNames(snap)
    ensures TemplatesSorted(TemplateList(snap, region, sel), sel.premium)
  {
    var s := TemplateList(snap, region, sel);
    TemplateListLists(snap, region, sel);
    forall i, j | 0 <= i < j < |s|
      ensures sel.premium && s[j].premium ==> s[i].premium
      ensures !sel.premium || s[i].premium == s[j].premium ==>
                s[i].priority >= s[j].priority && (s[i].priority == s[j].priority ==> Precedes(s[i].pool, s[j].pool))
    {
      PriorityInOrder(s[i], s[j], sel.premium);
    }
  }

  // ----- marking a node -----

  /** Marking kills the first node of that name in that pool and counts one failure, unless the node is
      direct or a name is blank; nothing else changes. */
  lemma MarkIs(snap: Snapshot, pool: string, node: string, n: string, i: nat)
    requires n in snap && i < |snap[n].entries|
    ensures var e, now := snap[n].entries[i], MarkNode(snap, pool, node);
            var hit := n == pool && e.name == node && !e.direct && |TrimSpace(pool)| > 0 && |TrimSpace(node)| > 0 &&
                       forall j :: 0 <= j < i ==> snap[n].entries[j].name != node;
            now.Keys == snap.Keys && now[n].config == snap[n].config && |now[n].entries| == |snap[n].entries| &&
            now[n].entries[i] == if hit then e.(alive := false, failCount := e.failCount + 1) else e
  {
    if pool in snap {
      var k := Find(snap[pool].entries, node);
    }
  }
}
