/** The values that selection reads: pools, their node entries and the choices made from them
    (internal/pool/manager.go). */
module Pools {
  import opened Text

  datatype Source = Direct | Static | Template | Subscription

  /** The `coverage` setting of a template; `Unset` stands for any other text. */
  datatype Coverage = Unset | NormalOnly | ResidentialOnly | Both

  /** A node entry at one moment.  `direct` says that the node's type is "direct". */
  datatype EntryState = EntryState(
    name: string, direct: bool, enabled: bool, alive: bool, failCount: nat, latency: int,
    region: string, residential: bool, premium: bool)

  /** A pool's settings.  `usable` says that a template's endpoint or dialer can be built. */
  datatype PoolConfig = PoolConfig(
    source: Source, enabled: bool, tryOffline: bool, residential: bool, premium: bool,
    coverage: Coverage, chijie: bool, usable: bool, priority: int)

  datatype PoolState = PoolState(config: PoolConfig, entries: seq<EntryState>)

  type Snapshot = map<string, PoolState>

  datatype Selector = Selector(residential: bool, premium: bool)

  datatype Strategy = Random | RoundRobin | LeastLatency

  datatype Choice = Choice(
    pool: string, node: string, source: Source, region: string, group: string,
    residential: bool, premium: bool, template: bool, chijie: bool, priority: int, latency: int)

  /** Node names are distinct within every pool. */
  ghost predicate DistinctNames(snap: Snapshot) {
    forall n :: n in snap ==> DistinctIn(snap[n].entries)
  }

  ghost predicate DistinctIn(entries: seq<EntryState>) {
    forall i, j :: 0 <= i < j < |entries| ==> entries[i].name != entries[j].name
  }

  // ----- marking a node unavailable -----

  /** The position of the first entry called `node`, or the number of entries. */
  function Find(entries: seq<EntryState>, node: string): (i: nat)
    ensures i <= |entries|
    ensures i < |entries| ==> entries[i].name == node
    ensures forall j :: 0 <= j < i ==> entries[j].name != node
  {
    if entries == [] || entries[0].name == node then 0 else 1 + Find(entries[1..], node)
  }

  /** An entry after the proxy reported it: dead, with one more failure; a direct node is exempt. */
  function Marked(e: EntryState): EntryState {
    if e.direct then e else e.(alive := false, failCount := e.failCount + 1)
  }

  /** Whether a mark finds an entry to change. */
  predicate Markable(snap: Snapshot, pool: string, node: string) {
    TrimSpace(pool) != "" && TrimSpace(node) != "" && pool in snap &&
    var i := Find(snap[pool].entries, node);
    i < |snap[pool].entries| && !snap[pool].entries[i].direct
  }

  /** The pools after MarkNodeUnavailable. */
  function MarkNode(snap: Snapshot, pool: string, node: string): Snapshot {
    if !Markable(snap, pool, node) then snap
    else
      var es := snap[pool].entries;
      var i := Find(es, node);
      snap[pool := snap[pool].(entries := es[i := Marked(es[i])])]
  }
}
