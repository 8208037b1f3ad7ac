/** The pool manager (internal/pool/manager.go): the loops that collect, sort and merge the
    candidates, the round-robin counters, and the proxy's report of a dead node.

    Every method is proved equal to the corresponding function of `Egress` on a snapshot of the
    pools, although the pool map may be walked in any order.  One selection is one atomic step;
    the region has already been normalised, "" standing for an invalid one. */
module EgressManager {
  import opened Pools
  import opened NodeHealth
  import opened Ordering
  import E = Egress
  import T = EgressTheorems
  import opened Text

  type Choices = seq<Choice>

  /** A pool; refreshing a subscription, which replaces the entries, is not part of the model. */
  class Pool {
    const config: PoolConfig
    const entries: seq<NodeEntry>

    constructor (config: PoolConfig, entries: seq<NodeEntry>)
      ensures this.config == config && this.entries == entries
    {
      this.config, this.entries := config, entries;
    }

    function State(): (s: PoolState)
      reads entries
      ensures s.config == config && |s.entries| == |entries|
      ensures forall i :: 0 <= i < |entries| ==> s.entries[i] == entries[i].State()
    {
      PoolState(config, seq(|entries|, i requires 0 <= i < |entries| reads entries => entries[i].State()))
    }

    ghost predicate Among(nodes: set<NodeEntry>) {
      forall i :: 0 <= i < |entries| ==> entries[i] in nodes
    }

    ghost predicate Unshared() {
      forall i, j :: 0 <= i < j < |entries| ==> entries[i] != entries[j]
    }

    ghost predicate Apart(other: Pool) {
      forall i :: 0 <= i < |entries| ==> entries[i] !in other.entries
    }

    /** MarkNodeUnavailable's loop over the entries of the pool. */
    method Mark(nodeName: string) returns (marked: bool)
      requires Unshared()
      modifies entries
      ensures marked <==> MarksIn(old(State().entries), nodeName)
      ensures State() == MarkedPool(old(State()), nodeName)
    {
      ghost var es := State().entries;
      for i := 0 to |entries|
        invariant Find(es, nodeName) >= i
      {
        var entry := entries[i];
        assert es[i] == entry.State();
        if entry.name == nodeName {
          if entry.direct {
            return false;
          }
          entry.alive := false;
          entry.failCount := entry.failCount + 1;
          assert State().entries == es[i := Marked(es[i])];
          return true;
        }
      }
      return false;
    }
  }

  // ----- the part of the sets that a walk has collected -----

  ghost function AliveIn(snap: Snapshot, names: set<string>, region: string, residential: bool): set<Choice> {
    set n, e | n in names && n in snap && e in snap[n].entries && E.NodePool(snap[n].config) && e.alive &&
               E.Matching(e, region, residential)
      :: E.NodeChoice(n, snap[n].config, e, region, E.GroupOf(region, residential))
  }

  ghost function AliveOf(n: string, c: PoolConfig, es: seq<EntryState>, region: string,
                         residential: bool): set<Choice> {
    set e | e in es && E.NodePool(c) && e.alive && E.Matching(e, region, residential)
      :: E.NodeChoice(n, c, e, region, E.GroupOf(region, residential))
  }

  ghost function AnyIn(snap: Snapshot, names: set<string>, residential: bool, maxLatency: int): set<Choice> {
    set n, e | n in names && n in snap && e in snap[n].entries && E.NodePool(snap[n].config) &&
               E.AnyMatch(e, residential, maxLatency)
      :: E.NodeChoice(n, snap[n].config, e, e.region, E.AnyGroupOf(residential))
  }

  ghost function AnyOf(n: string, c: PoolConfig, es: seq<EntryState>, residential: bool, maxLatency: int): set<Choice> {
    set e | e in es && E.NodePool(c) && E.AnyMatch(e, residential, maxLatency)
      :: E.NodeChoice(n, c, e, e.region, E.AnyGroupOf(residential))
  }

  ghost function MatchIn(snap: Snapshot, names: set<string>, region: string,
                         residential: bool): set<(string, EntryState)> {
    set n, e | n in names && n in snap && e in snap[n].entries && E.NodePool(snap[n].config) &&
               E.Matching(e, region, residential)
      :: (n, e)
  }

  ghost function MatchOf(n: string, c: PoolConfig, es: seq<EntryState>, region: string,
                         residential: bool): set<(string, EntryState)> {
    set e | e in es && E.NodePool(c) && E.Matching(e, region, residential) :: (n, e)
  }

  ghost function TriedIn(snap: Snapshot, names: set<string>, region: string, residential: bool): set<Choice> {
    set n, e | n in names && n in snap && e in snap[n].entries && E.NodePool(snap[n].config) &&
               E.Matching(e, region, residential) && E.TriedOffline(snap[n].config, e)
      :: E.NodeChoice(n, snap[n].config, e, region, E.GroupOf(region, residential))
  }

  ghost function TriedOf(n: string, c: PoolConfig, es: seq<EntryState>, region: string,
                         residential: bool): set<Choice> {
    set e | e in es && E.NodePool(c) && E.Matching(e, region, residential) && E.TriedOffline(c, e)
      :: E.NodeChoice(n, c, e, region, E.GroupOf(region, residential))
  }

  ghost function TemplatesIn(snap: Snapshot, names: set<string>, region: string, residential: bool): set<Choice> {
    set n | n in names && n in snap && E.Offers(snap[n].config, residential)
      :: E.TemplateChoice(n, snap[n].config, region, residential)
  }

  lemma EarlierNames(es: seq<EntryState>, i: nat, e: EntryState)
    requires i < |es| && DistinctIn(es) && e in es[..i]
    ensures e.name != es[i].name
  {
  }

  /** Visiting one more entry of a pool, seen from the set collected so far. */
  lemma NextAlive(n: string, c: PoolConfig, es: seq<EntryState>, i: nat, region: string, residential: bool)
    requires i < |es| && DistinctIn(es) && E.NodePool(c)
    ensures var e := es[i];
            AliveOf(n, c, es[..i + 1], region, residential) == AliveOf(n, c, es[..i], region, residential) +
              (if e.alive && E.Matching(e, region, residential)
               then {E.NodeChoice(n, c, e, region, E.GroupOf(region, residential))} else {})
    ensures forall d :: d in AliveOf(n, c, es[..i], region, residential) ==> d.node != es[i].name && d.pool == n
  {
    assert es[..i + 1] == es[..i] + [es[i]];
  }

  lemma NextAny(n: string, c: PoolConfig, es: seq<EntryState>, i: nat, residential: bool, maxLatency: int)
    requires i < |es| && DistinctIn(es) && E.NodePool(c)
    ensures var e := es[i];
            AnyOf(n, c, es[..i + 1], residential, maxLatency) == AnyOf(n, c, es[..i], residential, maxLatency) +
              (if E.AnyMatch(e, residential, maxLatency)
               then {E.NodeChoice(n, c, e, e.region, E.AnyGroupOf(residential))} else {})
    ensures forall d :: d in AnyOf(n, c, es[..i], residential, maxLatency) ==> d.node != es[i].name && d.pool == n
  {
    assert es[..i + 1] == es[..i] + [es[i]];
  }

  lemma NextMatch(n: string, c: PoolConfig, es: seq<EntryState>, i: nat, region: string, residential: bool)
    requires i < |es| && DistinctIn(es) && E.NodePool(c)
    ensures var e := es[i];
            MatchOf(n, c, es[..i + 1], region, residential) == MatchOf(n, c, es[..i], region, residential) +
              (if E.Matching(e, region, residential) then {(n, e)} else {})
    ensures (n, es[i]) !in MatchOf(n, c, es[..i], region, residential)
  {
    assert es[..i + 1] == es[..i] + [es[i]];
    if es[i] in es[..i] {
      EarlierNames(es, i, es[i]);
    }
  }

  lemma NextTried(n: string, c: PoolConfig, es: seq<EntryState>, i: nat, region: string, residential: bool)
    requires i < |es| && E.NodePool(c)
    ensures var e := es[i];
            TriedOf(n, c, es[..i + 1], region, residential) == TriedOf(n, c, es[..i], region, residential) +
              (if E.Matching(e, region, residential) && E.TriedOffline(c, e)
               then {E.NodeChoice(n, c, e, region, E.GroupOf(region, residential))} else {})
  {
    assert es[..i + 1] == es[..i] + [es[i]];
  }

  /** Finishing one more pool. */
  lemma AliveNextPool(snap: Snapshot, names: set<string>, n: string, region: string, residential: bool)
    requires n in snap
    ensures AliveIn(snap, names + {n}, region, residential)
         == AliveIn(snap, names, region, residential) + AliveOf(n, snap[n].config, snap[n].entries, region, residential)
    ensures forall c :: c in AliveIn(snap, names, region, residential) ==> c.pool in names
  {
  }

  lemma AnyNextPool(snap: Snapshot, names: set<string>, n: string, residential: bool, maxLatency: int)
    requires n in snap
    ensures AnyIn(snap, names + {n}, residential, maxLatency)
         == AnyIn(snap, names, residential, maxLatency) +
            AnyOf(n, snap[n].config, snap[n].entries, residential, maxLatency)
    ensures forall c :: c in AnyIn(snap, names, residential, maxLatency) ==> c.pool in names
  {
  }

  lemma MatchNextPool(snap: Snapshot, todo: set<string>, n: string, region: string, residential: bool)
    requires n in snap && n in todo && todo <= snap.Keys
    ensures var c, es := snap[n].config, snap[n].entries;
            MatchIn(snap, snap.Keys - (todo - {n}), region, residential)
            == MatchIn(snap, snap.Keys - todo, region, residential) +
               (if E.NodePool(c) then MatchOf(n, c, es, region, residential) else {}) &&
            TriedIn(snap, snap.Keys - (todo - {n}), region, residential)
            == TriedIn(snap, snap.Keys - todo, region, residential) +
               (if E.NodePool(c) then TriedOf(n, c, es, region, residential) else {})
    ensures forall x :: x in MatchIn(snap, snap.Keys - todo, region, residential) ==> x.0 != n
  {
    Visited(snap.Keys, todo, n);
  }

  lemma TemplatesNextPool(snap: Snapshot, names: set<string>, n: string, region: string, residential: bool)
    requires n in snap
    ensures TemplatesIn(snap, names + {n}, region, residential)
         == TemplatesIn(snap, names, region, residential) +
            (if E.Offers(snap[n].config, residential)
             then {E.TemplateChoice(n, snap[n].config, region, residential)} else {})
    ensures forall c :: c in TemplatesIn(snap, names, region, residential) ==> c.pool in names
  {
  }

  lemma Visited(all: set<string>, todo: set<string>, name: string)
    requires name in todo && todo <= all
    ensures all - (todo - {name}) == (all - todo) + {name}
  {
  }

  class Manager {
    var pools: map<string, Pool>
    var rrByGroup: map<string, nat>

    /** The node entries of all pools. */
    ghost var nodes: set<NodeEntry>

    constructor ()
      ensures pools == map[] && rrByGroup == map[] && Valid()
    {
      pools, rrByGroup, nodes := map[], map[], {};
    }

    /** No node entry is shared between two places. */
    ghost predicate Valid()
      reads this`pools
    {
      (forall n :: n in pools ==> pools[n].Unshared()) &&
      (forall m, n :: m in pools && n in pools && m != n ==> pools[m].Apart(pools[n]))
    }

    /** The pools, read as values, are `snap`. */
    ghost predicate Shows(snap: Snapshot)
      reads this, nodes
    {
      pools.Keys == snap.Keys &&
      forall n :: n in pools ==> pools[n].Among(nodes) && pools[n].State() == snap[n]
    }

    /** entryChoices */
    method EntryChoices(ghost snap: Snapshot, region: string, residential: bool) returns (choices: Choices)
      requires Shows(snap) && DistinctNames(snap)
      ensures Shows(snap) && choices == E.EntryList(snap, region, residential)
    {
      choices := [];
      var todo := pools.Keys;
      while todo != {}
        invariant todo <= pools.Keys && Shows(snap)
        invariant NoDuplicates(choices)
        invariant Elements(choices) == AliveIn(snap, pools.Keys - todo, region, residential)
        decreases todo
      {
        var name :| name in todo;
        var pool := pools[name];
        ghost var seen := pools.Keys - todo;
        AliveNextPool(snap, seen, name, region, residential);
        Visited(pools.Keys, todo, name);
        todo := todo - {name};
        if E.NodePool(pool.config) {
          choices := AppendAlive(name, pool, choices, region, residential);
        }
      }
      assert AliveIn(snap, pools.Keys, region, residential) == E.AliveChoices(snap, region, residential);
      assert pools.Keys - todo == pools.Keys;
      E.ChoicesAreIdentified(snap, region, residential);
      E.NodeOrdersAreTotal(Elements(choices));
      choices := SortSlice(choices, E.NameLess);
    }

    /** Its inner loop over the entries of one pool. */
    method AppendAlive(name: string, pool: Pool, before: Choices, region: string, residential: bool)
      returns (choices: Choices)
      requires E.NodePool(pool.config) && DistinctIn(pool.State().entries)
      requires NoDuplicates(before) && forall c :: c in Elements(before) ==> c.pool != name
      ensures NoDuplicates(choices)
      ensures Elements(choices)
           == Elements(before) + AliveOf(name, pool.config, pool.State().entries, region, residential)
    {
      choices := before;
      ghost var es := pool.State().entries;
      for i := 0 to |pool.entries|
        invariant NoDuplicates(choices)
        invariant Elements(choices) == Elements(before) + AliveOf(name, pool.config, es[..i], region, residential)
      {
        var entry := pool.entries[i];
        NextAlive(name, pool.config, es, i, region, residential);
        if !entry.enabled || !entry.alive {
          continue;
        }
        if entry.region != region || entry.residential != residential {
          continue;
        }
        var c := E.NodeChoice(name, pool.config, entry.State(), region, E.GroupOf(region, residential));
        Appended(choices, c);
        choices := choices + [c];
      }
      assert es[..|es|] == es;
    }

    /** anyEntryChoices */
    method AnyEntryChoices(ghost snap: Snapshot, residential: bool, maxLatency: int) returns (choices: Choices)
      requires Shows(snap) && DistinctNames(snap)
      ensures Shows(snap) && choices == E.AnyList(snap, residential, maxLatency)
    {
      choices := [];
      var todo := pools.Keys;
      while todo != {}
        invariant todo <= pools.Keys && Shows(snap)
        invariant NoDuplicates(choices)
        invariant Elements(choices) == AnyIn(snap, pools.Keys - todo, residential, maxLatency)
        decreases todo
      {
        var name :| name in todo;
        var pool := pools[name];
        ghost var seen := pools.Keys - todo;
        AnyNextPool(snap, seen, name, residential, maxLatency);
        Visited(pools.Keys, todo, name);
        todo := todo - {name};
        if E.NodePool(pool.config) {
          choices := AppendAny(name, pool, choices, residential, maxLatency);
        }
      }
      assert AnyIn(snap, pools.Keys, residential, maxLatency) == E.AnyChoices(snap, residential, maxLatency);
      assert pools.Keys - todo == pools.Keys;
      E.AnyChoicesAreIdentified(snap, residential, maxLatency);
      E.NodeOrdersAreTotal(Elements(choices));
      choices := SortSlice(choices, E.LatencyLess);
    }

    method AppendAny(name: string, pool: Pool, before: Choices, residential: bool, maxLatency: int)
      returns (choices: Choices)
      requires E.NodePool(pool.config) && DistinctIn(pool.State().entries)
      requires NoDuplicates(before) && forall c :: c in Elements(before) ==> c.pool != name
      ensures NoDuplicates(choices)
      ensures Elements(choices)
           == Elements(before) + AnyOf(name, pool.config, pool.State().entries, residential, maxLatency)
    {
      choices := before;
      ghost var es := pool.State().entries;
      for i := 0 to |pool.entries|
        invariant NoDuplicates(choices)
        invariant Elements(choices) == Elements(before) + AnyOf(name, pool.config, es[..i], residential, maxLatency)
      {
        var entry := pool.entries[i];
        NextAny(name, pool.config, es, i, residential, maxLatency);
        if !entry.enabled || !entry.alive {
          continue;
        }
        if entry.direct {
          continue;
        }
        if entry.residential != residential {
          continue;
        }
        if maxLatency > 0 && (entry.latency <= 0 || entry.latency > maxLatency) {
          continue;
        }
        var c := E.NodeChoice(name, pool.config, entry.State(), entry.region, E.AnyGroupOf(residential));
        Appended(choices, c);
        choices := choices + [c];
      }
      assert es[..|es|] == es;
    }

    /** templateChoices */
    method TemplateChoices(ghost snap: Snapshot, region: string, sel: Selector) returns (choices: Choices)
      requires Shows(snap) && DistinctNames(snap)
      ensures Shows(snap) && choices == E.TemplateList(snap, region, sel)
    {
      choices := [];
      var todo := pools.Keys;
      while todo != {}
        invariant todo <= pools.Keys && Shows(snap)
        invariant NoDuplicates(choices)
        invariant Elements(choices) == TemplatesIn(snap, pools.Keys - todo, region, sel.residential)
        decreases todo
      {
        var name :| name in todo;
        var config := pools[name].config;
        ghost var seen := pools.Keys - todo;
        TemplatesNextPool(snap, seen, name, region, sel.residential);
        Visited(pools.Keys, todo, name);
        todo := todo - {name};
        if config.source != Template || !config.enabled || !E.Covers(config, sel.residential) {
          continue;
        }
        if !config.usable {
          continue;
        }
        var c := E.TemplateChoice(name, config, region, sel.residential);
        Appended(choices, c);
        choices := choices + [c];
      }
      assert TemplatesIn(snap, pools.Keys, region, sel.residential) == E.TemplateChoices(snap, region, sel.residential);
      assert pools.Keys - todo == pools.Keys;
      E.ChoicesAreIdentified(snap, region, sel.residential);
      E.TemplateOrdersAreTotal(Elements(choices), sel.premium);
      choices := SortSlice(choices, E.TemplateOrder(sel.premium));
    }

    /** tryOfflineEntryChoices */
    method TryOfflineEntryChoices(ghost snap: Snapshot, region: string, residential: bool) returns (choices: Choices)
      requires Shows(snap) && DistinctNames(snap)
      ensures Shows(snap) && choices == E.OfflineList(snap, region, residential)
    {
      var allMatching, fallback := CountAllMatching(snap, region, residential);
      if allMatching == 1 && fallback != [] {
        return fallback;
      }
      return [];
    }

    /** Its outer loop over the pools. */
    method CountAllMatching(ghost snap: Snapshot, region: string, residential: bool)
      returns (allMatching: nat, fallback: Choices)
      requires Shows(snap) && DistinctNames(snap)
      ensures Shows(snap)
      ensures E.OfflineList(snap, region, residential) == if allMatching == 1 then fallback else []
    {
      allMatching, fallback := 0, [];
      ghost var nodes: seq<(string, EntryState)> := [];
      var todo := pools.Keys;
      while todo != {}
        invariant todo <= pools.Keys && Shows(snap) && allMatching == |nodes|
        invariant Counted(snap, todo, region, residential, nodes, fallback)
        decreases todo
      {
        var name :| name in todo;
        var pool := pools[name];
        ghost var before, fallback0 := nodes, fallback;
        if !E.NodePool(pool.config) {
          CountedNextPool(snap, todo, name, region, residential, nodes, fallback, nodes, fallback);
        } else {
          ghost var tried := TriedIn(snap, snap.Keys - todo, region, residential);
          CountedElsewhere(snap, todo, name, region, residential, nodes, fallback);
          allMatching, fallback, nodes := CountMatching(name, pool, region, residential, allMatching, fallback,
                                                        snap[name].entries, nodes, tried);
          CountedNextPool(snap, todo, name, region, residential, before, fallback0, nodes, fallback);
        }
        todo := todo - {name};
      }
      OfflineDecided(snap, region, residential, nodes, fallback);
    }

    /** Its inner loop: counts the matching entries of one pool and remembers a dead one to try. */
    method CountMatching(name: string, pool: Pool, region: string, residential: bool, count: nat, before: Choices,
                         ghost es: seq<EntryState>, ghost seen: seq<(string, EntryState)>, ghost tried: set<Choice>)
      returns (allMatching: nat, fallback: Choices, ghost nodes: seq<(string, EntryState)>)
      requires E.NodePool(pool.config) && es == pool.State().entries && DistinctIn(es)
      requires count == |seen| && NoDuplicates(seen) && forall x :: x in Elements(seen) ==> x.0 != name
      requires Picked(tried, before)
      ensures allMatching == |nodes| && NoDuplicates(nodes)
      ensures Elements(nodes) == Elements(seen) + MatchOf(name, pool.config, es, region, residential)
      ensures Picked(tried + TriedOf(name, pool.config, es, region, residential), fallback)
    {
      allMatching, fallback, nodes := count, before, seen;
      assert tried + TriedOf(name, pool.config, es[..0], region, residential) == tried;
      for i := 0 to |pool.entries|
        invariant allMatching == |nodes|
        invariant CountedUpTo(name, pool.config, es, i, region, residential, seen, tried, nodes, fallback)
      {
        var entry := pool.entries[i];
        CountedNext(name, pool.config, es, i, region, residential, seen, tried, nodes, fallback);
        if !entry.enabled {
          continue;
        }
        if entry.region != region || entry.residential != residential {
          continue;
        }
        allMatching := allMatching + 1;
        nodes := nodes + [(name, es[i])];
        if E.TriedOffline(pool.config, entry.State()) {
          fallback := [E.NodeChoice(name, pool.config, entry.State(), region, E.GroupOf(region, residential))];
        }
      }
      assert es[..|es|] == es;
    }

    /** orderEgressChoices; `shuffle` is what rand.Shuffle does. */
    method OrderEgressChoices(choices: Choices, strategy: Strategy, rrKey: string, shuffle: E.Shuffle)
      returns (ordered: Choices)
      requires NoDuplicates(choices) && E.NamesIdentify(Elements(choices))
      modifies this`rrByGroup
      ensures ordered == E.Ordered(choices, strategy, E.Count(old(rrByGroup), rrKey), shuffle)
      ensures rrByGroup == E.Advanced(old(rrByGroup), choices, strategy, rrKey)
    {
      if choices == [] {
        return [];
      }
      match strategy
      case RoundRobin =>
        var count := if rrKey in rrByGroup then rrByGroup[rrKey] else 0;
        var idx := count % |choices|;
        rrByGroup := rrByGroup[rrKey := count + 1];
        if idx > 0 {
          return choices[idx..] + choices[..idx];
        }
        assert choices[0..] + choices[..0] == choices;
        return choices;
      case LeastLatency =>
        E.NodeOrdersAreTotal(Elements(choices));
        ordered := SortSlice(choices, E.LatencyLess);
      case Random =>
        ordered := shuffle(choices);
    }

    /** The first half of egressCandidateGroup: both lists of nodes, ordered under one key. */
    method OrderedNodes(ghost snap: Snapshot, region: string, strategy: Strategy, residential: bool, shuffle: E.Shuffle)
      returns (entries: Choices, offline: Choices)
      requires Shows(snap) && DistinctNames(snap)
      modifies this`rrByGroup
      ensures Shows(snap)
      ensures var d := E.Draw(strategy, old(rrByGroup), shuffle);
              entries == E.LiveNodes(snap, region, residential, d) &&
              offline == E.OfflineNodes(snap, region, residential, d) &&
              rrByGroup == E.GroupCounters(snap, region, residential, d)
    {
      var group := E.GroupOf(region, residential);
      T.NodeListsAreOrderable(snap, region, residential);
      var alive := EntryChoices(snap, region, residential);
      entries := OrderEgressChoices(alive, strategy, group, shuffle);
      var dead := TryOfflineEntryChoices(snap, region, residential);
      offline := OrderEgressChoices(dead, strategy, group, shuffle);
    }

    /** egressCandidateGroup, with premiumCandidateGroup and filterChoicesByPremium */
    method EgressCandidateGroup(ghost snap: Snapshot, region: string, strategy: Strategy, sel: Selector,
                                withTemplates: bool, shuffle: E.Shuffle) returns (choices: Choices)
      requires Shows(snap) && DistinctNames(snap)
      modifies this`rrByGroup
      ensures Shows(snap)
      ensures var d := E.Draw(strategy, old(rrByGroup), shuffle);
              choices == E.Group(snap, region, sel, withTemplates, d) &&
              rrByGroup == E.GroupCounters(snap, region, sel.residential, d)
    {
      var entries, offline := OrderedNodes(snap, region, strategy, sel.residential, shuffle);
      var templates := TemplateChoices(snap, region, sel);
      if sel.premium {
        choices := E.PremiumGroup(entries, offline, templates, withTemplates);
        if choices != [] {
          return;
        }
      }
      if entries != [] {
        return if withTemplates then entries + templates else entries;
      }
      if offline != [] {
        return if withTemplates then offline + templates else offline;
      }
      return templates;
    }

    /** SelectEgressCandidatesFor and SelectEgressCandidatesWithTemplateFallbackFor, with
        appendPremiumResidentialFallback; an empty result is their error. */
    method SelectEgressCandidates(ghost snap: Snapshot, region: string, strategy: Strategy, sel: Selector,
                                  withTemplates: bool, shuffle: E.Shuffle) returns (choices: Choices)
      requires Shows(snap) && DistinctNames(snap)
      modifies this`rrByGroup
      ensures Shows(snap)
      ensures var d := E.Draw(strategy, old(rrByGroup), shuffle);
              choices == E.Candidates(snap, region, sel, withTemplates, d) &&
              rrByGroup == E.CandidateCounters(snap, region, sel, withTemplates, d)
    {
      if region == "" {
        return [];
      }
      choices := EgressCandidateGroup(snap, region, strategy, sel, withTemplates, shuffle);
      if choices != [] {
        if sel.premium && !sel.residential {
          var more := EgressCandidateGroup(snap, region, strategy, sel.(residential := true), withTemplates, shuffle);
          choices := choices + more;
        }
        return;
      }
      if !sel.residential {
        choices := EgressCandidateGroup(snap, region, strategy, sel.(residential := true), withTemplates, shuffle);
      }
    }

    /** SelectAnyEgressCandidatesFor, with prioritizePremiumChoices */
    method SelectAnyEgressCandidates(ghost snap: Snapshot, strategy: Strategy, sel: Selector, maxLatency: int,
                                     shuffle: E.Shuffle) returns (choices: Choices)
      requires Shows(snap) && DistinctNames(snap)
      modifies this`rrByGroup
      ensures Shows(snap)
      ensures var d := E.Draw(strategy, old(rrByGroup), shuffle);
              choices == E.AnyGroup(snap, sel, maxLatency, d) &&
              rrByGroup == E.AnyCounters(snap, sel.residential, maxLatency, d)
    {
      var any := AnyEntryChoices(snap, sel.residential, maxLatency);
      T.AnyListLists(snap, sel.residential, maxLatency);
      choices := OrderEgressChoices(any, strategy, E.AnyGroupOf(sel.residential), shuffle);
      if !sel.premium || choices == [] {
        return;
      }
      var premium, ordinary := E.Only(choices, true), E.Only(choices, false);
      if premium == [] {
        return;
      }
      return premium + ordinary;
    }

    /** MarkNodeUnavailable: the first entry of that name dies, unless it is direct. */
    method MarkNodeUnavailable(ghost snap: Snapshot, poolName: string, nodeName: string) returns (marked: bool)
      requires Valid() && Shows(snap)
      modifies nodes
      ensures Valid() && Shows(MarkNode(snap, poolName, nodeName))
      ensures marked <==> Markable(snap, poolName, nodeName)
    {
      if TrimSpace(poolName) == "" || TrimSpace(nodeName) == "" {
        return false;
      }
      if poolName !in pools {
        return false;
      }
      ghost var s := MarkedPool(snap[poolName], nodeName);
      marked := MarkIn(snap, poolName, nodeName, s);
      assert MarkNode(snap, poolName, nodeName) == snap[poolName := s];
    }

    method MarkIn(ghost snap: Snapshot, poolName: string, nodeName: string, ghost s: PoolState) returns (marked: bool)
      requires Valid() && Shows(snap) && poolName in pools && s == MarkedPool(snap[poolName], nodeName)
      modifies nodes
      ensures marked <==> MarksIn(snap[poolName].entries, nodeName)
      ensures Valid() && Shows(snap[poolName := s])
    {
      var pool := pools[poolName];
      marked := pool.Mark(nodeName);
      ghost var snap' := snap[poolName := s];
      forall n | n in pools
        ensures pools[n].State() == snap'[n]
      {
        if n != poolName {
          assert pools[n].Apart(pool);
          assert pools[n].State() == old(pools[n].State());
        }
      }
    }
  }

  predicate MarksIn(es: seq<EntryState>, nodeName: string) {
    var i := Find(es, nodeName);
    i < |es| && !es[i].direct
  }

  function MarkedPool(s: PoolState, nodeName: string): PoolState {
    if MarksIn(s.entries, nodeName) then
      var i := Find(s.entries, nodeName); s.(entries := s.entries[i := Marked(s.entries[i])])
    else s
  }

  /** Nothing to pick from, or one of the members. */
  ghost predicate Picked(S: set<Choice>, picked: Choices) {
    if S == {} then picked == [] else |picked| == 1 && picked[0] in S
  }

  /** Within one pool: after `i` entries, `nodes` lists what was `seen` before and the matching ones among
      them, and `fallback` is one of the dead ones to try. */
  ghost predicate CountedUpTo(name: string, c: PoolConfig, es: seq<EntryState>, i: nat, region: string,
                              residential: bool, seen: seq<(string, EntryState)>, tried: set<Choice>,
                              nodes: seq<(string, EntryState)>, fallback: Choices)
    requires i <= |es|
  {
    NoDuplicates(nodes) && Elements(nodes) == Elements(seen) + MatchOf(name, c, es[..i], region, residential) &&
    Picked(tried + TriedOf(name, c, es[..i], region, residential), fallback)
  }

  /** One more entry. */
  lemma CountedNext(name: string, c: PoolConfig, es: seq<EntryState>, i: nat, region: string, residential: bool,
                    seen: seq<(string, EntryState)>, tried: set<Choice>, nodes: seq<(string, EntryState)>,
                    fallback: Choices)
    requires i < |es| && DistinctIn(es) && E.NodePool(c) && forall x :: x in Elements(seen) ==> x.0 != name
    requires CountedUpTo(name, c, es, i, region, residential, seen, tried, nodes, fallback)
    ensures var e := es[i]; var choice := E.NodeChoice(name, c, e, region, E.GroupOf(region, residential));
            if E.Matching(e, region, residential) then
              CountedUpTo(name, c, es, i + 1, region, residential, seen, tried, nodes + [(name, e)],
                          if E.TriedOffline(c, e) then [choice] else fallback)
            else
              CountedUpTo(name, c, es, i + 1, region, residential, seen, tried, nodes, fallback)
  {
    NextMatch(name, c, es, i, region, residential);
    NextTried(name, c, es, i, region, residential);
    if E.Matching(es[i], region, residential) {
      assert (name, es[i]) !in Elements(nodes);
      Appended(nodes, (name, es[i]));
    }
  }

  /** With the pools `todo` left to visit, `nodes` lists the matching nodes seen so far, and
      `fallback` is one of the dead ones to try, if there is any. */
  ghost predicate Counted(snap: Snapshot, todo: set<string>, region: string, residential: bool,
                          nodes: seq<(string, EntryState)>, fallback: Choices) {
    NoDuplicates(nodes) && Elements(nodes) == MatchIn(snap, snap.Keys - todo, region, residential) &&
    Picked(TriedIn(snap, snap.Keys - todo, region, residential), fallback)
  }

  lemma CountedElsewhere(snap: Snapshot, todo: set<string>, n: string, region: string, residential: bool,
                         nodes: seq<(string, EntryState)>, fallback: Choices)
    requires n in todo && Counted(snap, todo, region, residential, nodes, fallback)
    ensures forall x :: x in Elements(nodes) ==> x.0 != n
  {
  }

  lemma CountedNextPool(snap: Snapshot, todo: set<string>, n: string, region: string, residential: bool,
                        before: seq<(string, EntryState)>, fallback: Choices,
                        nodes: seq<(string, EntryState)>, fallback': Choices)
    requires n in snap && n in todo && todo <= snap.Keys
    requires Counted(snap, todo, region, residential, before, fallback)
    requires NoDuplicates(nodes)
    requires var c, es := snap[n].config, snap[n].entries;
             if E.NodePool(c) then
               Elements(nodes) == Elements(before) + MatchOf(n, c, es, region, residential) &&
               Picked(TriedIn(snap, snap.Keys - todo, region, residential) + TriedOf(n, c, es, region, residential),
                      fallback')
             else nodes == before && fallback' == fallback
    ensures Counted(snap, todo - {n}, region, residential, nodes, fallback')
  {
    MatchNextPool(snap, todo, n, region, residential);
    var T := TriedIn(snap, snap.Keys - todo, region, residential);
    assert T + {} == T;
  }

  lemma OfflineDecided(snap: Snapshot, region: string, residential: bool, nodes: seq<(string, EntryState)>,
                       fallback: Choices)
    requires DistinctNames(snap) && Counted(snap, {}, region, residential, nodes, fallback)
    ensures E.OfflineList(snap, region, residential) == if |nodes| == 1 then fallback else []
  {
    assert snap.Keys - {} == snap.Keys;
    assert MatchIn(snap, snap.Keys, region, residential) == E.MatchingNodes(snap, region, residential);
    var S := E.OfflineChoices(snap, region, residential);
    var r := if |nodes| == 1 then fallback else [];
    if |nodes| == 1 {
      assert Elements(nodes) == {nodes[0]};
      OfflineOfOne(snap, region, residential, nodes[0], fallback);
    } else {
      NotSingle(nodes);
      assert S == {};
    }
    assert Elements(r) == S;
    E.ChoicesAreIdentified(snap, region, residential);
    E.NodeOrdersAreTotal(S);
    ListingIs(E.NameLess, S, r);
  }

  lemma NotSingle<T>(s: seq<T>)
    requires NoDuplicates(s) && |s| != 1
    ensures forall x :: Elements(s) != {x}
  {
    forall x
      ensures Elements(s) != {x}
    {
      assert x in {x};
      if |s| >= 2 {
        assert s[0] in Elements(s) && s[1] in Elements(s) && s[0] != s[1];
      }
    }
  }

  /** When a single node matches, the try-offline choices are the dead nodes to try. */
  lemma OfflineOfOne(snap: Snapshot, region: string, residential: bool, x: (string, EntryState), fallback: Choices)
    requires E.MatchingNodes(snap, region, residential) == {x}
    requires Picked(TriedIn(snap, snap.Keys, region, residential), fallback)
    ensures Elements(fallback) == E.OfflineChoices(snap, region, residential)
  {
    var T, S := TriedIn(snap, snap.Keys, region, residential), E.OfflineChoices(snap, region, residential);
    forall n, e | n in snap && e in snap[n].entries && E.NodePool(snap[n].config) && E.Matching(e, region, residential)
      ensures (n, e) == x
    {
      assert (n, e) in E.MatchingNodes(snap, region, residential);
    }
    assert x in E.MatchingNodes(snap, region, residential);
    assert T == S;
    assert forall c, d :: c in T && d in T ==> c == d;
  }
}
