/** The route of a request in terms of its options and the pools' own settings (internal/server/server.go,
    resolveEgress and selectAnyEgressCandidates): when it is direct, when there is none, and what its
    choices and fields are. */
module RouteMeaning {
  import opened Pools
  import E = Egress
  import T = EgressTheorems
  import opened ProxyServer
  import opened EgressMeaning
  import opened Wrappers

  // ----- direct routes -----

  /** A request goes out directly exactly if it names no region and asks neither for any nor for premium
      nodes; a direct route has nothing to choose from, every other route has. */
  lemma DirectIff(snap: Snapshot, o: Options, fallback: bool, d: E.Draw)
    ensures var route := Resolved(snap, o, fallback, d);
            (route.Some? && route.value.direct <==> o.region == NoRegion && !o.any && !o.premium) &&
            (route.Some? ==> (route.value.direct <==> route.value.choices == []))
    ensures o.region == NoRegion && !o.any && !o.premium ==>
              Resolved(snap, o, fallback, d) == Some(Route(true, false, "", "DIRECT", false, false, []))
  {
  }

  // ----- requests for any region -----

  /** A node that a request for any region may use: switched on, alive, not direct, of the class, in an
      enabled pool of nodes, and with a known latency within the limit, if there is one. */
  ghost predicate Eligible(snap: Snapshot, n: string, e: EntryState, residential: bool, maxLatencyMS: int) {
    n in snap && e in snap[n].entries &&
    snap[n].config.enabled && (snap[n].config.source == Static || snap[n].config.source == Subscription) &&
    e.enabled && e.alive && !e.direct && e.residential == residential &&
    (maxLatencyMS > 0 ==> 0 < e.latency && e.latency <= maxLatencyMS)
  }

  ghost predicate AnyEligible(snap: Snapshot, residential: bool, maxLatencyMS: int) {
    exists n, e :: Eligible(snap, n, e, residential, maxLatencyMS)
  }

  function AnyName(residential: bool): string {
    if residential then "ANY-RES" else "ANY"
  }

  ghost predicate IsEligible(snap: Snapshot, residential: bool, maxLatencyMS: int, c: Choice) {
    exists n, e :: Eligible(snap, n, e, residential, maxLatencyMS) &&
      StandsFor(c, n, snap[n].config, e, e.region, AnyName(residential))
  }

  lemma AnyChoicesAre(snap: Snapshot, residential: bool, o: Options, c: Choice)
    ensures c in E.AnyChoices(snap, residential, LatencyLimit(o)) <==> IsEligible(snap, residential, o.maxLatencyMS, c)
  {
    if IsEligible(snap, residential, o.maxLatencyMS, c) {
      var n, e :| Eligible(snap, n, e, residential, o.maxLatencyMS) &&
        StandsFor(c, n, snap[n].config, e, e.region, AnyName(residential));
      assert c == E.NodeChoice(n, snap[n].config, e, e.region, E.AnyGroupOf(residential));
    }
    if c in E.AnyChoices(snap, residential, LatencyLimit(o)) {
      var n, e :| n in snap && e in snap[n].entries && E.NodePool(snap[n].config) &&
        E.AnyMatch(e, residential, LatencyLimit(o)) &&
        c == E.NodeChoice(n, snap[n].config, e, e.region, E.AnyGroupOf(residential));
      assert Eligible(snap, n, e, residential, o.maxLatencyMS);
    }
  }

  /** A group without a region holds exactly the eligible nodes of its class. */
  lemma AnyGroupHolds(snap: Snapshot, sel: Selector, o: Options, d: E.Draw, c: Choice)
    requires DistinctNames(snap) && E.IsShuffle(d.shuffle)
    ensures c in E.AnyGroup(snap, sel, LatencyLimit(o), d) <==> IsEligible(snap, sel.residential, o.maxLatencyMS, c)
  {
    var plain := E.AnyGroup(snap, Selector(sel.residential, false), LatencyLimit(o), d);
    T.AnyGroupProperties(snap, sel.residential, LatencyLimit(o), d);
    T.SameMultiset(plain, E.AnyChoices(snap, sel.residential, LatencyLimit(o)));
    AnyChoicesAre(snap, sel.residential, o, c);
    T.OnlyKeeps(plain, true);
    T.OnlyKeeps(plain, false);
    assert sel == Selector(sel.residential, sel.premium);
  }

  lemma AnyGroupEmptyIff(snap: Snapshot, sel: Selector, o: Options, d: E.Draw)
    requires DistinctNames(snap) && E.IsShuffle(d.shuffle)
    ensures E.AnyGroup(snap, sel, LatencyLimit(o), d) == [] <==> !AnyEligible(snap, sel.residential, o.maxLatencyMS)
  {
    var g := E.AnyGroup(snap, sel, LatencyLimit(o), d);
    if g != [] {
      AnyGroupHolds(snap, sel, o, d, g[0]);
    }
    if AnyEligible(snap, sel.residential, o.maxLatencyMS) {
      var n, e :| Eligible(snap, n, e, sel.residential, o.maxLatencyMS);
      var c := E.NodeChoice(n, snap[n].config, e, e.region, AnyName(sel.residential));
      assert StandsFor(c, n, snap[n].config, e, e.region, AnyName(sel.residential));
      AnyGroupHolds(snap, sel, o, d, c);
    }
  }

  /** The classes such a request draws on: its own; and for a normal request the residential one, if there
      is no eligible normal node or premium is preferred. */
  ghost predicate DrawsAny(snap: Snapshot, o: Options, residential: bool) {
    residential == o.residential ||
    (residential && (o.premium || !AnyEligible(snap, false, o.maxLatencyMS)))
  }

  lemma AnyCandidatesAre(snap: Snapshot, o: Options, d: E.Draw, c: Choice)
    requires DistinctNames(snap) && E.IsShuffle(d.shuffle)
    ensures var sel := Selector(o.residential, o.premium);
            c in AnyCandidates(snap, sel, LatencyLimit(o), d).0 <==>
            exists residential :: DrawsAny(snap, o, residential) && IsEligible(snap, residential, o.maxLatencyMS, c)
  {
    var sel := Selector(o.residential, o.premium);
    var d' := d.(rr := E.AnyCounters(snap, sel.residential, LatencyLimit(o), d));
    AnyGroupEmptyIff(snap, sel, o, d);
    AnyGroupHolds(snap, sel, o, d, c);
    AnyGroupHolds(snap, Selector(true, sel.premium), o, d', c);
    assert DrawsAny(snap, o, o.residential);
    assert o.residential || o.premium || !AnyEligible(snap, false, o.maxLatencyMS) ==> DrawsAny(snap, o, true);
    if IsEligible(snap, o.residential, o.maxLatencyMS, c) {
      assert AnyEligible(snap, o.residential, o.maxLatencyMS);
    }
  }

  /** The request is for any region: it says so, or it names no region but asks for any or premium. */
  predicate ForAny(o: Options) {
    o.region == AnyRegion || (o.region == NoRegion && (o.any || o.premium))
  }

  /** A request for any region fails exactly if no class it may use has an eligible node. */
  lemma AnyRouteFailsIff(snap: Snapshot, o: Options, fallback: bool, d: E.Draw)
    requires DistinctNames(snap) && E.IsShuffle(d.shuffle) && ForAny(o)
    ensures Resolved(snap, o, fallback, d).None? <==>
            !AnyEligible(snap, o.residential, o.maxLatencyMS) &&
            (o.residential || !AnyEligible(snap, true, o.maxLatencyMS))
  {
    var sel := Selector(o.residential, o.premium);
    var d' := d.(rr := E.AnyCounters(snap, sel.residential, LatencyLimit(o), d));
    AnyGroupEmptyIff(snap, sel, o, d);
    AnyGroupEmptyIff(snap, Selector(true, sel.premium), o, d');
  }

  /** Otherwise its choices are exactly the eligible nodes of the classes it draws on, and the route is
      residential if its request is or had to be served so. */
  lemma AnyRouteIs(snap: Snapshot, o: Options, fallback: bool, d: E.Draw, c: Choice)
    requires DistinctNames(snap) && E.IsShuffle(d.shuffle) && ForAny(o)
    requires Resolved(snap, o, fallback, d).Some?
    ensures var route := Resolved(snap, o, fallback, d).value;
            (c in route.choices <==> exists residential ::
              DrawsAny(snap, o, residential) && IsEligible(snap, residential, o.maxLatencyMS, c)) &&
            !route.direct && route.any && route.choices != [] && route.region == route.choices[0].region &&
            (route.residential <==> o.residential || !AnyEligible(snap, false, o.maxLatencyMS)) &&
            route.group == (if route.residential then "ANY-RES" else "ANY") && route.premium == o.premium
  {
    AnyCandidatesAre(snap, o, d, c);
    AnyGroupEmptyIff(snap, Selector(o.residential, o.premium), o, d);
  }

  // ----- requests for a named region -----

  /** A request for a named region fails exactly if the name is no region code or no class it may use has
      anything to offer. */
  lemma NamedRouteFailsIff(snap: Snapshot, o: Options, fallback: bool, d: E.Draw)
    requires DistinctNames(snap) && E.IsShuffle(d.shuffle) && o.region.Named?
    ensures Resolved(snap, o, fallback, d).None? <==>
            o.region.region == "" ||
            (!HasSome(snap, o.region.region, o.residential) &&
             (o.residential || !HasSome(snap, o.region.region, true)))
  {
    if o.region.region != "" {
      NoCandidatesIff(snap, o.region.region, Selector(o.residential, o.premium), fallback, d);
    }
  }

  /** Otherwise its choices are those of `CandidatesAre`, and the route takes class and group from the
      first of them. */
  lemma NamedRouteIs(snap: Snapshot, o: Options, fallback: bool, d: E.Draw, c: Choice)
    requires DistinctNames(snap) && E.IsShuffle(d.shuffle) && o.region.Named?
    requires Resolved(snap, o, fallback, d).Some?
    ensures var route, region := Resolved(snap, o, fallback, d).value, o.region.region;
            (c in route.choices <==>
              exists residential :: Draws(snap, region, Selector(o.residential, o.premium), residential) &&
                Takes(snap, region, residential, o.premium, fallback, c)) &&
            !route.direct && !route.any && route.region == region && route.choices != [] &&
            route.residential == route.choices[0].residential &&
            route.group == (if route.residential then region + "-RES" else region) && route.premium == o.premium
  {
    var sel := Selector(o.residential, o.premium);
    assert o.region.region != "" by {
      NothingWithoutRegion(snap, sel, fallback, d);
    }
    CandidatesAre(snap, o.region.region, sel, fallback, d, c);
    var first := E.Candidates(snap, o.region.region, sel, fallback, d)[0];
    CandidateGroup(snap, o.region.region, sel, fallback, d, first);
  }

  lemma CandidateGroup(snap: Snapshot, region: string, sel: Selector, fallback: bool, d: E.Draw, c: Choice)
    requires DistinctNames(snap) && E.IsShuffle(d.shuffle) && region != ""
    requires c in E.Candidates(snap, region, sel, fallback, d)
    ensures c.group == if c.residential then region + "-RES" else region
  {
    CandidatesAre(snap, region, sel, fallback, d, c);
    var residential :| Takes(snap, region, residential, sel.premium, fallback, c);
    if IsNode(snap, region, residential, c) {
      var e := NodeBehind(snap, region, residential, c);
    }
  }

  // ----- the order of the classes -----

  /** Normal choices come before residential ones. */
  ghost predicate NormalFirst(s: Choices) {
    forall i, j :: 0 <= i < j < |s| ==> s[i].residential ==> s[j].residential
  }

  lemma ConcatNormalFirst(own: Choices, more: Choices)
    requires forall c :: c in own ==> !c.residential
    requires forall c :: c in more ==> c.residential
    ensures NormalFirst(own + more)
  {
    var s := own + more;
    forall k | 0 <= k < |s|
      ensures s[k].residential <==> k >= |own|
    {
      assert s[k] == if k < |own| then own[k] else more[k - |own|];
    }
  }

  lemma OneClass(s: Choices, residential: bool)
    requires forall c :: c in s ==> c.residential == residential
    ensures NormalFirst(s)
  {
  }

  lemma AnyGroupClass(snap: Snapshot, sel: Selector, o: Options, d: E.Draw)
    requires DistinctNames(snap) && E.IsShuffle(d.shuffle)
    ensures forall c :: c in E.AnyGroup(snap, sel, LatencyLimit(o), d) ==> c.residential == sel.residential
  {
    forall c | c in E.AnyGroup(snap, sel, LatencyLimit(o), d)
      ensures c.residential == sel.residential
    {
      AnyGroupHolds(snap, sel, o, d, c);
    }
  }

  /** On every route normal choices are tried before residential ones. */
  lemma RoutesAreNormalFirst(snap: Snapshot, o: Options, fallback: bool, d: E.Draw)
    requires DistinctNames(snap) && E.IsShuffle(d.shuffle) && Resolved(snap, o, fallback, d).Some?
    ensures NormalFirst(Resolved(snap, o, fallback, d).value.choices)
  {
    var sel := Selector(o.residential, o.premium);
    var route := Resolved(snap, o, fallback, d).value;
    if o.region.Named? {
      var region := o.region.region;
      NothingWithoutRegion(snap, sel, fallback, d);
      T.GroupMembers(snap, region, sel, fallback, d);
      T.GroupMembers(snap, region, Selector(true, sel.premium), fallback, E.After(snap, region, sel, d));
      T.OfferIsOfClass(snap, region, sel.residential);
      T.OfferIsOfClass(snap, region, true);
      assert sel.(residential := true) == Selector(true, sel.premium);
      Classes(E.Group(snap, region, sel, fallback, d),
              E.Group(snap, region, Selector(true, sel.premium), fallback, E.After(snap, region, sel, d)),
              sel.residential);
    } else if !route.direct {
      var d' := d.(rr := E.AnyCounters(snap, sel.residential, LatencyLimit(o), d));
      AnyGroupClass(snap, sel, o, d);
      AnyGroupClass(snap, Selector(true, sel.premium), o, d');
      Classes(E.AnyGroup(snap, sel, LatencyLimit(o), d),
              E.AnyGroup(snap, Selector(true, sel.premium), LatencyLimit(o), d'), sel.residential);
    }
  }

  lemma Classes(own: Choices, more: Choices, residential: bool)
    requires forall c :: c in own ==> c.residential == residential
    requires forall c :: c in more ==> c.residential
    ensures NormalFirst(own) && NormalFirst(more) && (!residential ==> NormalFirst(own + more))
  {
    OneClass(own, residential);
    OneClass(more, true);
    if !residential {
      ConcatNormalFirst(own, more);
    }
  }
}
