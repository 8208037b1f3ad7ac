/** What egress selection computes from a snapshot of the pools (internal/pool/manager.go).

    The functions here are the specification of the manager's methods: the lists are listings
    of sets, so they do not mention the order in which the pool map is walked. */
module Egress {
  import opened Pools
  import opened Ordering
  import opened Text

  // ----- the comparators -----

  /** By pool name, then node name. */
  predicate NameLess(a: Choice, b: Choice) {
    if a.pool == b.pool then StringLess(a.node, b.node) else StringLess(a.pool, b.pool)
  }

  /** By latency, an unknown latency (0) last; ties by name. */
  predicate LatencyLess(a: Choice, b: Choice) {
    if a.latency == b.latency then NameLess(a, b)
    else if a.latency == 0 then false
    else if b.latency == 0 then true
    else a.latency < b.latency
  }

  /** Templates: higher priority first, then by pool name. */
  predicate PriorityLess(a: Choice, b: Choice) {
    if a.priority != b.priority then a.priority > b.priority else StringLess(a.pool, b.pool)
  }

  /** Templates for a premium request: premium ones first. */
  predicate PremiumFirstLess(a: Choice, b: Choice) {
    if a.premium != b.premium then a.premium else PriorityLess(a, b)
  }

  function TemplateOrder(premium: bool): (Choice, Choice) -> bool {
    if premium then PremiumFirstLess else PriorityLess
  }

  /** Pool and node name identify a choice. */
  ghost predicate NamesIdentify(S: set<Choice>) {
    forall c, d :: c in S && d in S && c.pool == d.pool && c.node == d.node ==> c == d
  }

  /** The pool name alone identifies a choice, as it does for templates. */
  ghost predicate PoolsIdentify(S: set<Choice>) {
    forall c, d :: c in S && d in S && c.pool == d.pool ==> c == d
  }

  lemma NameLessIsOrder(a: Choice, b: Choice, c: Choice)
    ensures !NameLess(a, a)
    ensures a.pool != b.pool || a.node != b.node ==> NameLess(a, b) || NameLess(b, a)
    ensures NameLess(a, b) && NameLess(b, c) ==> NameLess(a, c)
  {
    StringLessIrreflexive(a.node);
    if a.pool != b.pool {
      StringLessConnected(a.pool, b.pool);
    } else if a.node != b.node {
      StringLessConnected(a.node, b.node);
    }
    if NameLess(a, b) && NameLess(b, c) {
      if a.pool == b.pool == c.pool {
        StringLessTransitive(a.node, b.node, c.node);
      } else if a.pool != b.pool && b.pool != c.pool {
        StringLessTransitive(a.pool, b.pool, c.pool);
        StringLessIrreflexive(a.pool);
        assert a.pool == c.pool ==> StringLess(a.pool, b.pool) && StringLess(b.pool, a.pool);
      }
    }
  }

  lemma PriorityLessIsOrder(a: Choice, b: Choice, c: Choice)
    ensures !PriorityLess(a, a)
    ensures a.pool != b.pool ==> PriorityLess(a, b) || PriorityLess(b, a)
    ensures PriorityLess(a, b) && PriorityLess(b, c) ==> PriorityLess(a, c)
  {
    StringLessIrreflexive(a.pool);
    if a.pool != b.pool {
      StringLessConnected(a.pool, b.pool);
    }
    if StringLess(a.pool, b.pool) && StringLess(b.pool, c.pool) {
      StringLessTransitive(a.pool, b.pool, c.pool);
    }
  }

  /** The name order and the latency order leave no ties among distinctly named nodes. */
  lemma NodeOrdersAreTotal(S: set<Choice>)
    requires NamesIdentify(S)
    ensures StrictTotalOn(NameLess, S) && StrictTotalOn(LatencyLess, S)
  {
    forall a, b, c | a in S && b in S && c in S
      ensures !NameLess(a, a) && !LatencyLess(a, a)
      ensures a != b ==> (NameLess(a, b) || NameLess(b, a)) && (LatencyLess(a, b) || LatencyLess(b, a))
      ensures NameLess(a, b) && NameLess(b, c) ==> NameLess(a, c)
      ensures LatencyLess(a, b) && LatencyLess(b, c) ==> LatencyLess(a, c)
    {
      NameLessIsOrder(a, b, c);
    }
  }

  /** Neither do the two template orders among distinct pools. */
  lemma TemplateOrdersAreTotal(S: set<Choice>, premium: bool)
    requires PoolsIdentify(S)
    ensures StrictTotalOn(TemplateOrder(premium), S)
  {
    forall a, b, c | a in S && b in S && c in S
      ensures !PriorityLess(a, a) && (a != b ==> PriorityLess(a, b) || PriorityLess(b, a))
      ensures PriorityLess(a, b) && PriorityLess(b, c) ==> PriorityLess(a, c)
    {
      PriorityLessIsOrder(a, b, c);
    }
  }

  // ----- the choices that pools offer -----

  /** EgressGroupFor on an already normalised region. */
  function GroupOf(region: string, residential: bool): string {
    if region == "" then "DIRECT" else if residential then region + "-RES" else region
  }

  function AnyGroupOf(residential: bool): string {
    if residential then "ANY-RES" else "ANY"
  }

  predicate NodePool(c: PoolConfig) {
    c.enabled && (c.source == Static || c.source == Subscription)
  }

  predicate Matching(e: EntryState, region: string, residential: bool) {
    e.enabled && e.region == region && e.residential == residential
  }

  function NodeChoice(pool: string, c: PoolConfig, e: EntryState, region: string, group: string): Choice {
    Choice(pool, e.name, c.source, region, group, e.residential, e.premium, false, false, 0, e.latency)
  }

  /** The nodes a request may use now: enabled, alive, in the region and of the class. */
  ghost function AliveChoices(snap: Snapshot, region: string, residential: bool): set<Choice> {
    set n, e | n in snap && e in snap[n].entries && NodePool(snap[n].config) && e.alive &&
               Matching(e, region, residential)
      :: NodeChoice(n, snap[n].config, e, region, GroupOf(region, residential))
  }

  /** All nodes of the region and class, dead ones included. */
  ghost function MatchingNodes(snap: Snapshot, region: string, residential: bool): set<(string, EntryState)> {
    set n, e | n in snap && e in snap[n].entries && NodePool(snap[n].config) && Matching(e, region, residential)
      :: (n, e)
  }

  predicate TriedOffline(c: PoolConfig, e: EntryState) {
    c.source == Subscription && c.tryOffline && !e.alive
  }

  /** The try-offline node: the region and class have exactly one node, it is dead, and its
      subscription asks to try it anyway. */
  ghost function OfflineChoices(snap: Snapshot, region: string, residential: bool): set<Choice> {
    set n, e | n in snap && e in snap[n].entries &&
               MatchingNodes(snap, region, residential) == {(n, e)} && TriedOffline(snap[n].config, e)
      :: NodeChoice(n, snap[n].config, e, region, GroupOf(region, residential))
  }

  /** NormalizeTemplateCoverage and TemplateCoversResidential */
  predicate Covers(c: PoolConfig, residential: bool) {
    match c.coverage
    case Both => true
    case ResidentialOnly => residential
    case NormalOnly => !residential
    case Unset => c.chijie || residential == c.residential
  }

  function TemplateChoice(pool: string, c: PoolConfig, region: string, residential: bool): Choice {
    Choice(pool, pool + "-" + Lower(region), Template, region, GroupOf(region, residential), residential,
           c.premium, true, c.chijie, c.priority, 0)
  }

  predicate Offers(c: PoolConfig, residential: bool) {
    c.source == Template && c.enabled && Covers(c, residential) && c.usable
  }

  ghost function TemplateChoices(snap: Snapshot, region: string, residential: bool): set<Choice> {
    set n | n in snap && Offers(snap[n].config, residential)
      :: TemplateChoice(n, snap[n].config, region, residential)
  }

  ghost predicate AnyMatch(e: EntryState, residential: bool, maxLatency: int) {
    e.enabled && e.alive && !e.direct && e.residential == residential &&
    (maxLatency > 0 ==> 0 < e.latency <= maxLatency)
  }

  /** The nodes for a request without a region. */
  ghost function AnyChoices(snap: Snapshot, residential: bool, maxLatency: int): set<Choice> {
    set n, e | n in snap && e in snap[n].entries && NodePool(snap[n].config) && AnyMatch(e, residential, maxLatency)
      :: NodeChoice(n, snap[n].config, e, e.region, AnyGroupOf(residential))
  }

  lemma SameName(entries: seq<EntryState>, e: EntryState, f: EntryState)
    requires DistinctIn(entries) && e in entries && f in entries && e.name == f.name
    ensures e == f
  {
  }

  lemma ChoicesAreIdentified(snap: Snapshot, region: string, residential: bool)
    requires DistinctNames(snap)
    ensures NamesIdentify(AliveChoices(snap, region, residential))
    ensures NamesIdentify(OfflineChoices(snap, region, residential))
    ensures PoolsIdentify(TemplateChoices(snap, region, residential))
  {
    forall n, e, f | n in snap && e in snap[n].entries && f in snap[n].entries && e.name == f.name
      ensures e == f
    {
      SameName(snap[n].entries, e, f);
    }
  }

  lemma AnyChoicesAreIdentified(snap: Snapshot, residential: bool, maxLatency: int)
    requires DistinctNames(snap)
    ensures NamesIdentify(AnyChoices(snap, residential, maxLatency))
  {
    forall n, e, f | n in snap && e in snap[n].entries && f in snap[n].entries && e.name == f.name
      ensures e == f
    {
      SameName(snap[n].entries, e, f);
    }
  }

  // ----- ordering by strategy -----

  /** How rand.Shuffle rearranges a list; an arbitrary permutation. */
  type Shuffle = seq<Choice> -> seq<Choice>

  ghost predicate IsShuffle(shuffle: Shuffle) {
    forall s :: multiset(shuffle(s)) == multiset(s)
  }

  type Counters = map<string, nat>

  function Count(rr: Counters, key: string): nat {
    if key in rr then rr[key] else 0
  }

  function Rotate(s: seq<Choice>, k: nat): seq<Choice>
    requires k <= |s|
  {
    s[k..] + s[..k]
  }

  /** orderEgressChoices: the order in which the candidates are tried. */
  ghost function Ordered(s: seq<Choice>, strategy: Strategy, count: nat, shuffle: Shuffle): seq<Choice> {
    if s == [] then []
    else match strategy
      case RoundRobin => Rotate(s, count % |s|)
      case LeastLatency => Listing(LatencyLess, Elements(s))
      case Random => shuffle(s)
  }

  /** The round-robin counters after ordering a list under `key`. */
  function Advanced(rr: Counters, s: seq<Choice>, strategy: Strategy, key: string): Counters {
    if s != [] && strategy == RoundRobin then rr[key := Count(rr, key) + 1] else rr
  }

  // ----- one group of candidates -----

  /** filterChoicesByPremium */
  function Only(s: seq<Choice>, premium: bool): seq<Choice> {
    if s == [] then []
    else if s[0].premium == premium then [s[0]] + Only(s[1..], premium)
    else Only(s[1..], premium)
  }

  /** All premium choices, then all ordinary ones, each in their old order. */
  function PremiumFirst(s: seq<Choice>): seq<Choice> {
    Only(s, true) + Only(s, false)
  }

  /** premiumCandidateGroup */
  function PremiumGroup(entries: seq<Choice>, offline: seq<Choice>, templates: seq<Choice>,
                        withTemplates: bool): seq<Choice> {
    var pe, po, pt := Only(entries, true), Only(offline, true), Only(templates, true);
    if |pe| + |po| + |pt| == 0 then []
    else
      (if pe != [] then pe + pt else if po != [] then po + pt else pt) +
      Only(entries, false) + Only(offline, false) +
      (if withTemplates then Only(templates, false) else [])
  }

  /** The group of a request without the premium preference. */
  function OrdinaryGroup(entries: seq<Choice>, offline: seq<Choice>, templates: seq<Choice>,
                         withTemplates: bool): seq<Choice> {
    if entries != [] then (if withTemplates then entries + templates else entries)
    else if offline != [] then (if withTemplates then offline + templates else offline)
    else templates
  }

  /** The merge at the end of egressCandidateGroup. */
  function Merged(entries: seq<Choice>, offline: seq<Choice>, templates: seq<Choice>, premium: bool,
                  withTemplates: bool): seq<Choice> {
    var p := PremiumGroup(entries, offline, templates, withTemplates);
    if premium && p != [] then p else OrdinaryGroup(entries, offline, templates, withTemplates)
  }

  ghost function EntryList(snap: Snapshot, region: string, residential: bool): seq<Choice> {
    Listing(NameLess, AliveChoices(snap, region, residential))
  }

  ghost function OfflineList(snap: Snapshot, region: string, residential: bool): seq<Choice> {
    Listing(NameLess, OfflineChoices(snap, region, residential))
  }

  ghost function TemplateList(snap: Snapshot, region: string, sel: Selector): seq<Choice> {
    Listing(TemplateOrder(sel.premium), TemplateChoices(snap, region, sel.residential))
  }

  /** The random and stateful inputs of one selection. */
  datatype Draw = Draw(strategy: Strategy, rr: Counters, shuffle: Shuffle)

  /** The live nodes of a class, in the order they are to be tried. */
  ghost function LiveNodes(snap: Snapshot, region: string, residential: bool, d: Draw): seq<Choice> {
    Ordered(EntryList(snap, region, residential), d.strategy, Count(d.rr, GroupOf(region, residential)), d.shuffle)
  }

  /** The try-offline node of a class, ordered under the same key after the live nodes. */
  ghost function OfflineNodes(snap: Snapshot, region: string, residential: bool, d: Draw): seq<Choice> {
    var key := GroupOf(region, residential);
    var rr := Advanced(d.rr, EntryList(snap, region, residential), d.strategy, key);
    Ordered(OfflineList(snap, region, residential), d.strategy, Count(rr, key), d.shuffle)
  }

  /** egressCandidateGroup: the candidates of one class, in the order they are to be tried. */
  ghost function Group(snap: Snapshot, region: string, sel: Selector, withTemplates: bool, d: Draw): seq<Choice> {
    Merged(LiveNodes(snap, region, sel.residential, d), OfflineNodes(snap, region, sel.residential, d),
           TemplateList(snap, region, sel), sel.premium, withTemplates)
  }

  /** The round-robin counters after egressCandidateGroup. */
  ghost function GroupCounters(snap: Snapshot, region: string, residential: bool, d: Draw): Counters {
    var key := GroupOf(region, residential);
    var rr := Advanced(d.rr, EntryList(snap, region, residential), d.strategy, key);
    Advanced(rr, OfflineList(snap, region, residential), d.strategy, key)
  }

  /** The draw that the residential fallback sees, after the group of the request's own class. */
  ghost function After(snap: Snapshot, region: string, sel: Selector, d: Draw): Draw {
    d.(rr := GroupCounters(snap, region, sel.residential, d))
  }

  /** SelectEgressCandidatesFor (`withTemplates` false) and SelectEgressCandidatesWithTemplateFallbackFor
      (`withTemplates` true); the empty list stands for their error. */
  ghost function Candidates(snap: Snapshot, region: string, sel: Selector, withTemplates: bool, d: Draw): seq<Choice> {
    if region == "" then []
    else
      var own := Group(snap, region, sel, withTemplates, d);
      var fallback := Group(snap, region, sel.(residential := true), withTemplates, After(snap, region, sel, d));
      if own != [] then
        if sel.premium && !sel.residential then own + fallback else own
      else if !sel.residential then fallback
      else []
  }

  ghost function CandidateCounters(snap: Snapshot, region: string, sel: Selector, withTemplates: bool,
                                   d: Draw): Counters {
    if region == "" then d.rr
    else
      var d' := After(snap, region, sel, d);
      if !sel.residential && (sel.premium || Group(snap, region, sel, withTemplates, d) == [])
      then GroupCounters(snap, region, true, d')
      else d'.rr
  }

  ghost function AnyList(snap: Snapshot, residential: bool, maxLatency: int): seq<Choice> {
    Listing(LatencyLess, AnyChoices(snap, residential, maxLatency))
  }

  /** SelectAnyEgressCandidatesFor */
  ghost function AnyGroup(snap: Snapshot, sel: Selector, maxLatency: int, d: Draw): seq<Choice> {
    var s := Ordered(AnyList(snap, sel.residential, maxLatency), d.strategy,
                     Count(d.rr, AnyGroupOf(sel.residential)), d.shuffle);
    if sel.premium && Only(s, true) != [] then PremiumFirst(s) else s
  }

  ghost function AnyCounters(snap: Snapshot, residential: bool, maxLatency: int, d: Draw): Counters {
    Advanced(d.rr, AnyList(snap, residential, maxLatency), d.strategy, AnyGroupOf(residential))
  }
}
