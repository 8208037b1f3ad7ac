/** Properties of egress selection that hold for every snapshot of the pools. */
module EgressTheorems {
  import opened Pools
  import opened Ordering
  import opened Egress

  // ----- lists of choices -----

  lemma {:induction false} OnlyConcat(s: seq<Choice>, t: seq<Choice>, premium: bool)
    ensures Only(s + t, premium) == Only(s, premium) + Only(t, premium)
  {
    if s == [] {
      assert s + t == t;
    } else {
      var rest, tail := Only(s[1..], premium), Only(t, premium);
      OnlyConcat(s[1..], t, premium);
      assert (s + t)[1..] == s[1..] + t && (s + t)[0] == s[0];
      if s[0].premium == premium {
        assert [s[0]] + (rest + tail) == ([s[0]] + rest) + tail;
      }
    }
  }

  lemma {:induction false} OnlyKeeps(s: seq<Choice>, premium: bool)
    ensures forall c :: c in Only(s, premium) <==> c in s && c.premium == premium
  {
    if s != [] {
      OnlyKeeps(s[1..], premium);
      assert s == [s[0]] + s[1..];
    }
  }

  lemma {:induction false} OnlyIsIdempotent(s: seq<Choice>, p: bool, q: bool)
    ensures Only(Only(s, p), q) == if p == q then Only(s, p) else []
  {
    if s != [] {
      OnlyIsIdempotent(s[1..], p, q);
      assert ([s[0]] + Only(s[1..], p))[1..] == Only(s[1..], p);
    }
  }

  /** Putting premium choices first neither loses nor duplicates a choice. */
  lemma {:induction false} PremiumFirstPermutes(s: seq<Choice>)
    ensures multiset(PremiumFirst(s)) == multiset(s)
  {
    if s != [] {
      PremiumFirstPermutes(s[1..]);
      assert s == [s[0]] + s[1..];
    }
  }

  lemma {:induction false} OnlyStaysAscending(less: (Choice, Choice) -> bool, s: seq<Choice>, premium: bool)
    requires Ascending(less, s)
    ensures Ascending(less, Only(s, premium))
  {
    if s != [] {
      OnlyStaysAscending(less, s[1..], premium);
      OnlyKeeps(s[1..], premium);
      forall c | c in s[1..]
        ensures less(s[0], c)
      {
        var j :| 0 <= j < |s[1..]| && s[1..][j] == c;
        assert s[j + 1] == c;
      }
    }
  }

  /** Every strategy tries a permutation of the candidates. */
  lemma OrderedPermutes(s: seq<Choice>, strategy: Strategy, count: nat, shuffle: Shuffle)
    requires IsShuffle(shuffle) && NoDuplicates(s) && NamesIdentify(Elements(s))
    ensures multiset(Ordered(s, strategy, count, shuffle)) == multiset(s)
  {
    if s != [] {
      match strategy
      case RoundRobin =>
        assert s == s[..count % |s|] + s[count % |s|..];
      case LeastLatency =>
        NodeOrdersAreTotal(Elements(s));
        ListingLists(LatencyLess, Elements(s));
        var r := Listing(LatencyLess, Elements(s));
        AscendingHasNoDuplicates(LatencyLess, Elements(s), r);
        NoDuplicatesMultiset(r);
        NoDuplicatesMultiset(s);
      case Random =>
    }
  }

  // ----- facts about the lists of one class -----

  lemma EntryListLists(snap: Snapshot, region: string, residential: bool)
    requires DistinctNames(snap)
    ensures var S, s := AliveChoices(snap, region, residential), EntryList(snap, region, residential);
            NamesIdentify(S) && Elements(s) == S && NoDuplicates(s)
  {
    var S := AliveChoices(snap, region, residential);
    ChoicesAreIdentified(snap, region, residential);
    NodeOrdersAreTotal(S);
    ListingLists(NameLess, S);
    AscendingHasNoDuplicates(NameLess, S, EntryList(snap, region, residential));
  }

  lemma OfflineListLists(snap: Snapshot, region: string, residential: bool)
    requires DistinctNames(snap)
    ensures var S, s := OfflineChoices(snap, region, residential), OfflineList(snap, region, residential);
            NamesIdentify(S) && Elements(s) == S && NoDuplicates(s)
  {
    var S := OfflineChoices(snap, region, residential);
    ChoicesAreIdentified(snap, region, residential);
    NodeOrdersAreTotal(S);
    ListingLists(NameLess, S);
    AscendingHasNoDuplicates(NameLess, S, OfflineList(snap, region, residential));
  }

  lemma NodeListsAreOrderable(snap: Snapshot, region: string, residential: bool)
    requires DistinctNames(snap)
    ensures var alive, dead := EntryList(snap, region, residential), OfflineList(snap, region, residential);
            NoDuplicates(alive) && NamesIdentify(Elements(alive)) && NoDuplicates(dead) && NamesIdentify(Elements(dead))
  {
    EntryListLists(snap, region, residential);
    OfflineListLists(snap, region, residential);
  }

  lemma TemplateListLists(snap: Snapshot, region: string, sel: Selector)
    requires DistinctNames(snap)
    ensures var S := TemplateChoices(snap, region, sel.residential);
            StrictTotalOn(TemplateOrder(sel.premium), S) &&
            IsListing(TemplateOrder(sel.premium), S, TemplateList(snap, region, sel)) &&
            NoDuplicates(TemplateList(snap, region, sel))
  {
    var S := TemplateChoices(snap, region, sel.residential);
    ChoicesAreIdentified(snap, region, sel.residential);
    TemplateOrdersAreTotal(S, sel.premium);
    ListingLists(TemplateOrder(sel.premium), S);
    AscendingHasNoDuplicates(TemplateOrder(sel.premium), S, TemplateList(snap, region, sel));
  }

  /** The node behind a try-offline choice. */
  lemma OfflineNode(snap: Snapshot, region: string, residential: bool, c: Choice)
    returns (n: string, e: EntryState)
    requires c in OfflineChoices(snap, region, residential)
    ensures MatchingNodes(snap, region, residential) == {(n, e)} && n in snap && e in snap[n].entries
    ensures !e.alive && c == NodeChoice(n, snap[n].config, e, region, GroupOf(region, residential))
  {
    n, e :| n in snap && e in snap[n].entries && !e.alive &&
            MatchingNodes(snap, region, residential) == {(n, e)} &&
            c == NodeChoice(n, snap[n].config, e, region, GroupOf(region, residential));
  }

  /** A class never has both a live candidate and a try-offline node: the latter must be the only
      node of its region and class, and dead. */
  lemma AliveExcludesOffline(snap: Snapshot, region: string, residential: bool)
    ensures AliveChoices(snap, region, residential) == {} || OfflineChoices(snap, region, residential) == {}
  {
    if c :| c in OfflineChoices(snap, region, residential) {
      var m, f := OfflineNode(snap, region, residential, c);
      forall n, e | n in snap && e in snap[n].entries && NodePool(snap[n].config) && Matching(e, region, residential)
        ensures !e.alive
      {
        assert (n, e) in MatchingNodes(snap, region, residential);
      }
    }
  }

  /** There is at most one try-offline node. */
  lemma OfflineIsSingle(snap: Snapshot, region: string, residential: bool)
    requires DistinctNames(snap)
    ensures |OfflineList(snap, region, residential)| <= 1
  {
    OfflineListLists(snap, region, residential);
    var s := OfflineList(snap, region, residential);
    forall c, d | c in Elements(s) && d in Elements(s)
      ensures c == d
    {
      var n, e := OfflineNode(snap, region, residential, c);
      var m, f := OfflineNode(snap, region, residential, d);
      assert (m, f) in {(n, e)};
    }
    AllEqualIsShort(s);
  }

  lemma AllEqualIsShort(s: seq<Choice>)
    requires NoDuplicates(s) && forall c, d :: c in Elements(s) && d in Elements(s) ==> c == d
    ensures |s| <= 1
  {
    if |s| >= 2 {
      FirstTwoDiffer(s);
      assert false;
    }
  }

  lemma FirstTwoDiffer(s: seq<Choice>)
    requires NoDuplicates(s) && |s| >= 2
    ensures s[0] in Elements(s) && s[1] in Elements(s) && s[0] != s[1]
  {
  }

  // ----- premium is a preference -----

  /** The template list of a premium request is the ordinary list with premium templates first. */
  lemma TemplatesPremiumFirst(snap: Snapshot, region: string, residential: bool)
    requires DistinctNames(snap)
    ensures TemplateList(snap, region, Selector(residential, true))
         == PremiumFirst(TemplateList(snap, region, Selector(residential, false)))
  {
    var S := TemplateChoices(snap, region, residential);
    var s := TemplateList(snap, region, Selector(residential, false));
    TemplateListLists(snap, region, Selector(residential, false));
    TemplateListLists(snap, region, Selector(residential, true));
    PremiumFirstIsListing(S, s);
    ListingIs(PremiumFirstLess, S, PremiumFirst(s));
  }

  lemma PremiumFirstIsListing(S: set<Choice>, s: seq<Choice>)
    requires IsListing(PriorityLess, S, s)
    ensures IsListing(PremiumFirstLess, S, PremiumFirst(s))
  {
    var p, q := Only(s, true), Only(s, false);
    OnlyKeeps(s, true);
    OnlyKeeps(s, false);
    OnlyStaysAscending(PriorityLess, s, true);
    OnlyStaysAscending(PriorityLess, s, false);
    assert forall c :: c in p + q <==> c in s;
    assert Elements(p + q) == Elements(s);
    forall i, j | 0 <= i < j < |p + q|
      ensures PremiumFirstLess((p + q)[i], (p + q)[j])
    {
      assert i < |p| ==> (p + q)[i] in p;
      assert i >= |p| ==> (p + q)[i] in q;
      assert j < |p| ==> (p + q)[j] in p;
      assert j >= |p| ==> (p + q)[j] in q;
    }
  }

  lemma PremiumFirstOnly(s: seq<Choice>, p: bool)
    ensures Only(PremiumFirst(s), p) == Only(s, p)
  {
    OnlyConcat(Only(s, true), Only(s, false), p);
    OnlyIsIdempotent(s, true, p);
    OnlyIsIdempotent(s, false, p);
  }

  /** The nodes of a class: live ones, or else the try-offline node. */
  function Nodes(entries: seq<Choice>, offline: seq<Choice>): seq<Choice> {
    if entries != [] then entries else offline
  }

  /** What the premium group is made of. */
  lemma PremiumGroupParts(entries: seq<Choice>, offline: seq<Choice>, templates: seq<Choice>, withTemplates: bool)
    requires entries == [] || offline == []
    ensures var nodes := Nodes(entries, offline);
            PremiumGroup(entries, offline, templates, withTemplates) ==
            if Only(nodes, true) == [] && Only(templates, true) == [] then []
            else (Only(nodes, true) + Only(templates, true)) +
                 (Only(nodes, false) + (if withTemplates then Only(templates, false) else []))
  {
    var pe, po, pt := Only(entries, true), Only(offline, true), Only(templates, true);
    var rest := if withTemplates then Only(templates, false) else [];
    var head := if pe != [] then pe + pt else if po != [] then po + pt else pt;
    assert head == Only(Nodes(entries, offline), true) + pt;
    Regroup(head, Only(entries, false), Only(offline, false), rest);
    assert Only([], false) == [];
  }

  lemma Regroup(head: seq<Choice>, s: seq<Choice>, t: seq<Choice>, rest: seq<Choice>)
    requires s == [] || t == []
    ensures head + s + t + rest == head + ((if s != [] then s else t) + rest)
  {
    assert head + s + t == head + (if s != [] then s else t);
  }

  lemma PremiumFirstConcat(s: seq<Choice>, t: seq<Choice>)
    ensures PremiumFirst(s + t) == (Only(s, true) + Only(t, true)) + (Only(s, false) + Only(t, false))
  {
    OnlyConcat(s, t, true);
    OnlyConcat(s, t, false);
  }

  lemma AllOrdinary(s: seq<Choice>)
    requires Only(s, true) == []
    ensures PremiumFirst(s) == s
  {
    NoPremium(s);
  }

  /** The merge of a premium request in terms of the nodes of the class. */
  lemma MergedPremium(entries: seq<Choice>, offline: seq<Choice>, templates: seq<Choice>)
    requires entries == [] || offline == []
    ensures var nodes := Nodes(entries, offline); var pt := PremiumFirst(templates);
            Merged(entries, offline, pt, true, true) ==
            if Only(nodes, true) == [] && Only(templates, true) == [] then nodes + pt
            else (Only(nodes, true) + Only(templates, true)) + (Only(nodes, false) + Only(templates, false))
  {
    PremiumGroupParts(entries, offline, PremiumFirst(templates), true);
    PremiumFirstOnly(templates, true);
    PremiumFirstOnly(templates, false);
  }

  lemma MergedPlain(entries: seq<Choice>, offline: seq<Choice>, templates: seq<Choice>)
    requires entries == [] || offline == []
    ensures Merged(entries, offline, templates, false, true) == Nodes(entries, offline) + templates
  {
  }

  lemma PremiumFirstOfNodes(nodes: seq<Choice>, templates: seq<Choice>)
    ensures PremiumFirst(nodes + templates) ==
            if Only(nodes, true) == [] && Only(templates, true) == [] then nodes + PremiumFirst(templates)
            else (Only(nodes, true) + Only(templates, true)) + (Only(nodes, false) + Only(templates, false))
  {
    PremiumFirstConcat(nodes, templates);
    if Only(nodes, true) == [] && Only(templates, true) == [] {
      NoPremium(nodes);
      SkipEmpty(Only(nodes, true), Only(templates, true), Only(nodes, false), Only(templates, false));
    }
  }

  lemma SkipEmpty(a: seq<Choice>, b: seq<Choice>, c: seq<Choice>, d: seq<Choice>)
    requires a == [] && b == []
    ensures (a + b) + (c + d) == c + (b + d)
  {
  }

  /** The merge for a premium request, with template fallback, is the ordinary merge rearranged. */
  lemma MergeIsPremiumFirst(entries: seq<Choice>, offline: seq<Choice>, templates: seq<Choice>)
    requires entries == [] || offline == []
    ensures Merged(entries, offline, PremiumFirst(templates), true, true)
         == PremiumFirst(Merged(entries, offline, templates, false, true))
  {
    MergedPlain(entries, offline, templates);
    MergedPremium(entries, offline, templates);
    PremiumFirstOfNodes(Nodes(entries, offline), templates);
  }

  lemma {:induction false} NoPremium(s: seq<Choice>)
    requires Only(s, true) == []
    ensures Only(s, false) == s
  {
    if s != [] {
      NoPremium(s[1..]);
      assert s == [s[0]] + s[1..];
    }
  }

  /** Premium is a pure preference: with template fallback, the group of a premium request is the
      group of the same request without the preference, premium choices moved to the front and
      both parts keeping their order. */
  lemma PremiumIsPreference(snap: Snapshot, region: string, residential: bool, d: Draw)
    requires DistinctNames(snap) && IsShuffle(d.shuffle)
    ensures Group(snap, region, Selector(residential, true), true, d)
         == PremiumFirst(Group(snap, region, Selector(residential, false), true, d))
  {
    GroupLists(snap, region, residential, d);
    TemplatesPremiumFirst(snap, region, residential);
    MergeIsPremiumFirst(LiveNodes(snap, region, residential, d), OfflineNodes(snap, region, residential, d),
                        TemplateList(snap, region, Selector(residential, false)));
  }

  // ----- completeness: nothing lost, nothing invented -----

  /** Everything that a class can offer. */
  ghost function Offer(snap: Snapshot, region: string, residential: bool): set<Choice> {
    AliveChoices(snap, region, residential) + OfflineChoices(snap, region, residential) +
    TemplateChoices(snap, region, residential)
  }

  /** The lists of nodes that egressCandidateGroup merges: permutations of the sets, and never
      both non-empty. */
  lemma GroupLists(snap: Snapshot, region: string, residential: bool, d: Draw)
    requires DistinctNames(snap) && IsShuffle(d.shuffle)
    ensures multiset(LiveNodes(snap, region, residential, d)) == multiset(AliveChoices(snap, region, residential))
    ensures multiset(OfflineNodes(snap, region, residential, d)) == multiset(OfflineChoices(snap, region, residential))
    ensures LiveNodes(snap, region, residential, d) == [] || OfflineNodes(snap, region, residential, d) == []
  {
    var key := GroupOf(region, residential);
    var alive, dead := EntryList(snap, region, residential), OfflineList(snap, region, residential);
    EntryListLists(snap, region, residential);
    OfflineListLists(snap, region, residential);
    AliveExcludesOffline(snap, region, residential);
    NoDuplicatesMultiset(alive);
    NoDuplicatesMultiset(dead);
    OrderedPermutes(alive, d.strategy, Count(d.rr, key), d.shuffle);
    OrderedPermutes(dead, d.strategy, Count(Advanced(d.rr, alive, d.strategy, key), key), d.shuffle);
    EmptyHasNoElements(alive);
    EmptyHasNoElements(dead);
  }

  lemma TemplateListPermutes(snap: Snapshot, region: string, sel: Selector)
    requires DistinctNames(snap)
    ensures multiset(TemplateList(snap, region, sel)) == multiset(TemplateChoices(snap, region, sel.residential))
  {
    TemplateListLists(snap, region, sel);
    NoDuplicatesMultiset(TemplateList(snap, region, sel));
  }

  lemma MergedPermutes(entries: seq<Choice>, offline: seq<Choice>, templates: seq<Choice>, premium: bool)
    requires entries == [] || offline == []
    ensures multiset(Merged(entries, offline, templates, premium, true))
         == multiset(entries) + multiset(offline) + multiset(templates)
  {
    var nodes := Nodes(entries, offline);
    assert OrdinaryGroup(entries, offline, templates, true) == nodes + templates;
    assert multiset(nodes) == multiset(entries) + multiset(offline);
    PremiumGroupParts(entries, offline, templates, true);
    PremiumFirstPermutes(nodes);
    PremiumFirstPermutes(templates);
  }

  /** With template fallback, a group is a permutation of everything the class can offer. */
  lemma GroupIsComplete(snap: Snapshot, region: string, sel: Selector, d: Draw)
    requires DistinctNames(snap) && IsShuffle(d.shuffle)
    ensures multiset(Group(snap, region, sel, true, d))
         == multiset(AliveChoices(snap, region, sel.residential))
          + multiset(OfflineChoices(snap, region, sel.residential))
          + multiset(TemplateChoices(snap, region, sel.residential))
  {
    GroupLists(snap, region, sel.residential, d);
    TemplateListPermutes(snap, region, sel);
    MergedPermutes(LiveNodes(snap, region, sel.residential, d), OfflineNodes(snap, region, sel.residential, d),
                   TemplateList(snap, region, sel), sel.premium);
  }

  lemma MergedMembers(entries: seq<Choice>, offline: seq<Choice>, templates: seq<Choice>, premium: bool, wt: bool)
    requires entries == [] || offline == []
    ensures var m := Merged(entries, offline, templates, premium, wt);
            (forall c :: c in m ==> c in entries || c in offline || c in templates) &&
            (m == [] <==> entries == [] && offline == [] && templates == [])
  {
    var nodes := Nodes(entries, offline);
    PremiumGroupParts(entries, offline, templates, wt);
    OnlyKeeps(nodes, true);
    OnlyKeeps(nodes, false);
    OnlyKeeps(templates, true);
    OnlyKeeps(templates, false);
  }

  /** A group holds only choices of its class, and is empty only if the class offers nothing. */
  lemma GroupMembers(snap: Snapshot, region: string, sel: Selector, wt: bool, d: Draw)
    requires DistinctNames(snap) && IsShuffle(d.shuffle)
    ensures var g := Group(snap, region, sel, wt, d);
            (forall c :: c in g ==> c in Offer(snap, region, sel.residential)) &&
            (g == [] <==> Offer(snap, region, sel.residential) == {})
  {
    var entries, offline := LiveNodes(snap, region, sel.residential, d), OfflineNodes(snap, region, sel.residential, d);
    var templates := TemplateList(snap, region, sel);
    GroupLists(snap, region, sel.residential, d);
    TemplateListPermutes(snap, region, sel);
    MergedMembers(entries, offline, templates, sel.premium, wt);
    SameMultiset(entries, AliveChoices(snap, region, sel.residential));
    SameMultiset(offline, OfflineChoices(snap, region, sel.residential));
    SameMultiset(templates, TemplateChoices(snap, region, sel.residential));
  }

  lemma SameMultiset(s: seq<Choice>, S: set<Choice>)
    requires multiset(s) == multiset(S)
    ensures s == [] <==> S == {}
    ensures forall c :: c in s <==> c in S
  {
    assert forall c :: c in s <==> c in multiset(s);
    assert forall c :: c in S <==> c in multiset(S);
    assert s != [] ==> s[0] in s;
  }

  // ----- class isolation and availability -----

  lemma OfferIsOfClass(snap: Snapshot, region: string, residential: bool)
    ensures forall c :: c in Offer(snap, region, residential) ==> c.residential == residential && c.region == region
    ensures forall c :: c in Offer(snap, region, residential) ==> c.group == GroupOf(region, residential)
  {
    forall n, e | n in snap && e in snap[n].entries && MatchingNodes(snap, region, residential) == {(n, e)}
      ensures e.residential == residential
    {
      assert (n, e) in MatchingNodes(snap, region, residential);
    }
  }

  /** A residential request never yields a normal candidate; a normal request yields residential
      ones only when its own class offers nothing at all, or, with the premium preference, after
      all candidates of its own class. */
  lemma ClassIsolation(snap: Snapshot, region: string, sel: Selector, wt: bool, d: Draw)
    requires DistinctNames(snap) && IsShuffle(d.shuffle)
    ensures var cs := Candidates(snap, region, sel, wt, d);
            var own := Group(snap, region, sel, wt, d);
            var fallback := Group(snap, region, Selector(true, sel.premium), wt, After(snap, region, sel, d));
            (forall c :: c in cs ==> c.region == region) &&
            (sel.residential ==> forall c :: c in cs ==> c.residential) &&
            (!sel.residential && !sel.premium && (exists c :: c in cs && c.residential) ==>
               Offer(snap, region, false) == {}) &&
            (!sel.residential && sel.premium && region != "" ==>
               cs == own + fallback &&
               (forall c :: c in own ==> !c.residential) && (forall c :: c in fallback ==> c.residential))
  {
    GroupMembers(snap, region, sel, wt, d);
    GroupMembers(snap, region, Selector(true, sel.premium), wt, After(snap, region, sel, d));
    OfferIsOfClass(snap, region, sel.residential);
    OfferIsOfClass(snap, region, true);
    var own := Group(snap, region, sel, wt, d);
    var fallback := Group(snap, region, Selector(true, sel.premium), wt, After(snap, region, sel, d));
    assert sel.(residential := true) == Selector(true, sel.premium);
    assert own == [] ==> own + fallback == fallback;
  }

  /** Selection fails exactly when the region is invalid or no permitted class offers a live
      node, a try-offline node or a usable covering template. */
  lemma SelectionFailsIff(snap: Snapshot, region: string, sel: Selector, wt: bool, d: Draw)
    requires DistinctNames(snap) && IsShuffle(d.shuffle)
    ensures Candidates(snap, region, sel, wt, d) == [] <==>
            region == "" ||
            (Offer(snap, region, sel.residential) == {} && (sel.residential || Offer(snap, region, true) == {}))
  {
    GroupMembers(snap, region, sel, wt, d);
    GroupMembers(snap, region, Selector(true, sel.premium), wt, After(snap, region, sel, d));
    assert sel.(residential := true) == Selector(true, sel.premium);
  }

  // ----- premium without template fallback -----

  /** The choices that are not templates. */
  function NodesOf(s: seq<Choice>): seq<Choice> {
    if s == [] then []
    else if s[0].template then NodesOf(s[1..])
    else [s[0]] + NodesOf(s[1..])
  }

  lemma {:induction false} NodesOfSplit(nodes: seq<Choice>, templates: seq<Choice>)
    requires forall c :: c in nodes ==> !c.template
    requires forall c :: c in templates ==> c.template
    ensures NodesOf(nodes + templates) == nodes
  {
    if nodes != [] {
      NodesOfSplit(nodes[1..], templates);
      assert (nodes + templates)[1..] == nodes[1..] + templates;
      assert nodes == [nodes[0]] + nodes[1..];
    } else if templates != [] {
      NodesOfSplit([], templates[1..]);
      assert [] + templates[1..] == ([] + templates)[1..];
    }
  }

  /** In the full ordinary group, the nodes come first and the templates last. */
  lemma FullGroupSplit(snap: Snapshot, region: string, residential: bool, d: Draw)
    requires DistinctNames(snap) && IsShuffle(d.shuffle)
    ensures var full := Group(snap, region, Selector(residential, false), true, d);
            full == NodesOf(full) + TemplateList(snap, region, Selector(residential, false)) &&
            NodesOf(full) == Nodes(LiveNodes(snap, region, residential, d), OfflineNodes(snap, region, residential, d))
  {
    var live, dead := LiveNodes(snap, region, residential, d), OfflineNodes(snap, region, residential, d);
    var templates := TemplateList(snap, region, Selector(residential, false));
    GroupLists(snap, region, residential, d);
    TemplateListPermutes(snap, region, Selector(residential, false));
    SameMultiset(live, AliveChoices(snap, region, residential));
    SameMultiset(dead, OfflineChoices(snap, region, residential));
    SameMultiset(templates, TemplateChoices(snap, region, residential));
    NodesOfSplit(Nodes(live, dead), templates);
    assert Nodes(live, dead) + templates == OrdinaryGroup(live, dead, templates, true);
  }

  lemma MergedPremiumOnly(live: seq<Choice>, dead: seq<Choice>, templates: seq<Choice>)
    requires live == [] || dead == []
    ensures var nodes := Nodes(live, dead);
            Only(nodes + templates, true) != [] ==>
            Merged(live, dead, PremiumFirst(templates), true, false)
            == Only(nodes + templates, true) + Only(nodes, false)
  {
    var nodes := Nodes(live, dead);
    OnlyConcat(nodes, templates, true);
    PremiumFirstOnly(templates, true);
    PremiumGroupParts(live, dead, PremiumFirst(templates), false);
    assert Only(nodes, false) + [] == Only(nodes, false);
  }

  /** Without template fallback, a premium request tries the premium choices of the full group,
      templates included, and then the ordinary nodes; ordinary templates are dropped. */
  lemma PremiumWithoutFallback(snap: Snapshot, region: string, residential: bool, d: Draw)
    requires DistinctNames(snap) && IsShuffle(d.shuffle)
    ensures var full := Group(snap, region, Selector(residential, false), true, d);
            Only(full, true) != [] ==>
            Group(snap, region, Selector(residential, true), false, d) == Only(full, true) + Only(NodesOf(full), false)
  {
    var live, dead := LiveNodes(snap, region, residential, d), OfflineNodes(snap, region, residential, d);
    var templates := TemplateList(snap, region, Selector(residential, false));
    FullGroupSplit(snap, region, residential, d);
    GroupLists(snap, region, residential, d);
    TemplatesPremiumFirst(snap, region, residential);
    MergedPremiumOnly(live, dead, templates);
  }

  /** Hence without template fallback the preference is not pure, even within one group: it loses a
      choice of the ordinary group exactly when the class has no node to try and has both premium and
      ordinary templates.  What whole requests lose is `PremiumPreference.PreferenceLosesIff`. */
  lemma PreferenceLosesTemplatesIff(snap: Snapshot, region: string, residential: bool, d: Draw)
    requires DistinctNames(snap) && IsShuffle(d.shuffle)
    ensures var plain := Group(snap, region, Selector(residential, false), false, d);
            var premium := Group(snap, region, Selector(residential, true), false, d);
            var T := TemplateChoices(snap, region, residential);
            (exists c :: c in plain && c !in premium) <==>
            AliveChoices(snap, region, residential) == {} && OfflineChoices(snap, region, residential) == {} &&
            (exists c :: c in T && c.premium) && (exists c :: c in T && !c.premium)
  {
    var live, dead := LiveNodes(snap, region, residential, d), OfflineNodes(snap, region, residential, d);
    var templates := TemplateList(snap, region, Selector(residential, false));
    GroupLists(snap, region, residential, d);
    TemplatesPremiumFirst(snap, region, residential);
    TemplateListPermutes(snap, region, Selector(residential, false));
    SameMultiset(live, AliveChoices(snap, region, residential));
    SameMultiset(dead, OfflineChoices(snap, region, residential));
    SameMultiset(templates, TemplateChoices(snap, region, residential));
    MergeLosesIff(live, dead, templates);
  }

  lemma MergeLosesIff(live: seq<Choice>, dead: seq<Choice>, templates: seq<Choice>)
    requires live == [] || dead == []
    ensures (exists c :: c in Merged(live, dead, templates, false, false) &&
                         c !in Merged(live, dead, PremiumFirst(templates), true, false)) <==>
            live == [] && dead == [] &&
            (exists c :: c in templates && c.premium) && (exists c :: c in templates && !c.premium)
  {
    var nodes := Nodes(live, dead);
    var plain := Merged(live, dead, templates, false, false);
    var premium := Merged(live, dead, PremiumFirst(templates), true, false);
    PremiumGroupParts(live, dead, PremiumFirst(templates), false);
    forall p
      ensures Only(PremiumFirst(templates), p) == Only(templates, p)
      ensures forall c :: c in Only(nodes, p) <==> c in nodes && c.premium == p
      ensures forall c :: c in Only(templates, p) <==> c in templates && c.premium == p
    {
      PremiumFirstOnly(templates, p);
      OnlyKeeps(nodes, p);
      OnlyKeeps(templates, p);
    }
    assert forall c :: c in PremiumFirst(templates) <==> c in templates;
  }

  // ----- round robin -----

  /** One selection advances the counter of each group at most once, although a group orders two
      lists under the same key: only one of them is non-empty. */
  lemma CountersAdvanceOnce(snap: Snapshot, region: string, sel: Selector, wt: bool, d: Draw, key: string)
    requires DistinctNames(snap)
    ensures Count(d.rr, key) <= Count(CandidateCounters(snap, region, sel, wt, d), key) <= Count(d.rr, key) + 1
    ensures d.strategy != RoundRobin ==> CandidateCounters(snap, region, sel, wt, d) == d.rr
  {
    if region != "" {
      GroupAdvances(snap, region, sel.residential, d, key);
      GroupAdvances(snap, region, true, After(snap, region, sel, d), key);
      assert GroupOf(region, true)[|region|..] == "-RES";
      assert GroupOf(region, false) != GroupOf(region, true);
    }
  }

  lemma GroupAdvances(snap: Snapshot, region: string, residential: bool, d: Draw, key: string)
    requires DistinctNames(snap)
    ensures var used := d.strategy == RoundRobin && key == GroupOf(region, residential) &&
                        AliveChoices(snap, region, residential) + OfflineChoices(snap, region, residential) != {};
            Count(GroupCounters(snap, region, residential, d), key) == Count(d.rr, key) + (if used then 1 else 0)
    ensures d.strategy != RoundRobin ==> GroupCounters(snap, region, residential, d) == d.rr
  {
    AliveExcludesOffline(snap, region, residential);
    EntryListLists(snap, region, residential);
    OfflineListLists(snap, region, residential);
    EmptyHasNoElements(EntryList(snap, region, residential));
    EmptyHasNoElements(OfflineList(snap, region, residential));
  }

  /** How often `x` is tried first in `k` consecutive round-robin orderings of `s`. */
  ghost function TimesFirst(s: seq<Choice>, start: nat, k: nat, x: Choice, shuffle: Shuffle): nat
    requires s != []
  {
    if k == 0 then 0
    else TimesFirst(s, start, k - 1, x, shuffle) +
         (if Ordered(s, RoundRobin, start + (k - 1), shuffle)[0] == x then 1 else 0)
  }

  lemma {:induction false} ProductIsNat(k: nat, n: nat)
    ensures k * n >= 0
  {
    if k > 0 {
      ProductIsNat(k - 1, n);
      assert k * n == (k - 1) * n + n;
    }
  }

  lemma MulStep(a: int, b: int, n: nat)
    ensures a < b ==> a * n + n <= b * n
  {
    if a < b {
      ProductIsNat(b - a - 1, n);
      assert (b - a - 1) * n == b * n - a * n - n;
    }
  }

  lemma DivMod(n: nat, q: nat, r: nat)
    requires r < n
    ensures (q * n + r) / n == q && (q * n + r) % n == r
  {
    var x := q * n + r;
    MulStep(x / n, q, n);
    MulStep(q, x / n, n);
    assert x == n * (x / n) + x % n;
  }

  lemma NextMod(n: nat, c: nat)
    requires n > 0
    ensures (c + 1) % n == if c % n + 1 == n then 0 else c % n + 1
    ensures (c + 1) / n == if c % n + 1 == n then c / n + 1 else c / n
  {
    var q, r := c / n, c % n;
    if r + 1 == n {
      assert c + 1 == (q + 1) * n + 0;
      DivMod(n, q + 1, 0);
    } else {
      assert c + 1 == q * n + (r + 1);
      DivMod(n, q, r + 1);
    }
  }

  lemma FirstInTurn(s: seq<Choice>, count: nat, i: nat, shuffle: Shuffle)
    requires NoDuplicates(s) && i < |s|
    ensures Ordered(s, RoundRobin, count, shuffle) != []
    ensures Ordered(s, RoundRobin, count, shuffle)[0] == s[i] <==> count % |s| == i
  {
  }

  /** How many places `i` is ahead of `a` on a circle of `n`. */
  function Ahead(n: nat, a: nat, i: nat): int {
    if a <= i then i - a else i - a + n
  }

  function Wrap(n: nat, x: nat): int {
    if x < n then x else x - n
  }

  lemma {:induction false} TurnPosition(n: nat, start: nat, k: nat)
    requires n > 0
    ensures (start + k) % n == Wrap(n, start % n + k % n)
  {
    if k == 0 {
      DivMod(n, 0, 0);
    } else {
      TurnPosition(n, start, k - 1);
      NextMod(n, k - 1);
      NextMod(n, start + (k - 1));
    }
  }

  /** In `k` consecutive orderings, candidate `i` comes first once per full turn, and once more if
      the last incomplete turn has reached it. */
  lemma {:induction false} TurnsCount(s: seq<Choice>, start: nat, k: nat, i: nat, shuffle: Shuffle)
    requires NoDuplicates(s) && i < |s|
    ensures TimesFirst(s, start, k, s[i], shuffle)
         == k / |s| + (if Ahead(|s|, start % |s|, i) < k % |s| then 1 else 0)
  {
    var n := |s|;
    if k == 0 {
      DivMod(n, 0, 0);
    } else {
      TurnsCount(s, start, k - 1, i, shuffle);
      NextMod(n, k - 1);
      TurnPosition(n, start, k - 1);
      FirstInTurn(s, start + (k - 1), i, shuffle);
    }
  }

  /** Round-robin is fair: over any `k` consecutive orderings of `n` candidates with one group key,
      every candidate is tried first floor(k / n) or ceil(k / n) times. */
  lemma RoundRobinIsFair(s: seq<Choice>, start: nat, k: nat, x: Choice, shuffle: Shuffle)
    requires NoDuplicates(s) && x in s
    ensures var n := |s|; k / n <= TimesFirst(s, start, k, x, shuffle) <= k / n + (if k % n == 0 then 0 else 1)
  {
    var i :| 0 <= i < |s| && s[i] == x;
    TurnsCount(s, start, k, i, shuffle);
  }

  // ----- requests without a region -----

  lemma AnyListLists(snap: Snapshot, residential: bool, maxLatency: int)
    requires DistinctNames(snap)
    ensures var S := AnyChoices(snap, residential, maxLatency);
            IsListing(LatencyLess, S, AnyList(snap, residential, maxLatency)) &&
            NoDuplicates(AnyList(snap, residential, maxLatency)) && NamesIdentify(S)
  {
    var S := AnyChoices(snap, residential, maxLatency);
    AnyChoicesAreIdentified(snap, residential, maxLatency);
    NodeOrdersAreTotal(S);
    ListingLists(LatencyLess, S);
    AscendingHasNoDuplicates(LatencyLess, S, AnyList(snap, residential, maxLatency));
  }

  /** Without a region too, premium only rearranges, and every candidate is a live node of the
      class that is not direct and within the latency limit. */
  lemma AnyGroupProperties(snap: Snapshot, residential: bool, maxLatency: int, d: Draw)
    requires DistinctNames(snap) && IsShuffle(d.shuffle)
    ensures var plain := AnyGroup(snap, Selector(residential, false), maxLatency, d);
            AnyGroup(snap, Selector(residential, true), maxLatency, d) == PremiumFirst(plain) &&
            multiset(plain) == multiset(AnyChoices(snap, residential, maxLatency))
  {
    AnyListLists(snap, residential, maxLatency);
    var s := AnyList(snap, residential, maxLatency);
    OrderedPermutes(s, d.strategy, Count(d.rr, AnyGroupOf(residential)), d.shuffle);
    NoDuplicatesMultiset(s);
    var plain := AnyGroup(snap, Selector(residential, false), maxLatency, d);
    if Only(plain, true) == [] {
      AllOrdinary(plain);
    }
  }
}
