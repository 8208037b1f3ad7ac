/** Liveness of a node (internal/pool/health.go, updateNodeHealth, and the other writer of the
    same fields, MarkNodeUnavailable in internal/pool/manager.go). */
module NodeHealth {
  import opened Pools

  /** updateNodeHealth's threshold: a non-positive setting means 3. */
  function Threshold(maxFail: int): (m: int)
    ensures m > 0
  {
    if maxFail <= 0 then 3 else maxFail
  }

  datatype Event = ProbeOk(latency: int) | ProbeFailed | ProxyMark

  /** One event on an entry. */
  function After(e: EntryState, ev: Event, maxFail: int): EntryState {
    match ev
    case ProbeOk(latency) => e.(alive := true, failCount := 0, latency := latency)
    case ProbeFailed =>
      if !e.alive then e
      else e.(failCount := e.failCount + 1, alive := e.failCount + 1 < Threshold(maxFail))
    case ProxyMark => Marked(e)
  }

  class NodeEntry {
    const name: string
    const direct: bool
    var enabled: bool
    var alive: bool
    var failCount: nat
    var latency: int
    const region: string
    const residential: bool
    const premium: bool

    /** newNodeEntry: a node starts alive, with nothing counted. */
    constructor (name: string, direct: bool, enabled: bool, region: string, residential: bool, premium: bool)
      ensures State() == EntryState(name, direct, enabled, true, 0, 0, region, residential, premium)
    {
      this.name, this.direct, this.enabled := name, direct, enabled;
      this.alive, this.failCount, this.latency := true, 0, 0;
      this.region, this.residential, this.premium := region, residential, premium;
    }

    function State(): EntryState
      reads this
    {
      EntryState(name, direct, enabled, alive, failCount, latency, region, residential, premium)
    }

    /** updateNodeHealth: reports the new liveness, the new count, and whether this call killed
        the node. */
    method UpdateHealth(probe: Event, maxFail: int) returns (nowAlive: bool, count: nat, markedDead: bool)
      requires !probe.ProxyMark?
      modifies this`alive, this`failCount, this`latency
      ensures State() == After(old(State()), probe, maxFail)
      ensures nowAlive == alive && count == failCount
      ensures markedDead <==> old(alive) && !alive
    {
      var limit := if maxFail <= 0 then 3 else maxFail;
      if probe.ProbeFailed? {
        markedDead := false;
        if alive {
          failCount := failCount + 1;
          if failCount >= limit {
            alive := false;
            markedDead := true;
          }
        }
        return alive, failCount, markedDead;
      }
      alive := true;
      failCount := 0;
      latency := probe.latency;
      return alive, failCount, false;
    }
  }

  // ----- history -----

  /** The entry after a run of events. */
  function Run(e: EntryState, events: seq<Event>, maxFail: int): EntryState {
    if events == [] then e
    else After(Run(e, events[..|events| - 1], maxFail), events[|events| - 1], maxFail)
  }

  /** The events since the last successful probe. */
  function SinceSuccess(events: seq<Event>): seq<Event> {
    if events == [] || events[|events| - 1].ProbeOk? then []
    else SinceSuccess(events[..|events| - 1]) + [events[|events| - 1]]
  }

  /** How many proxy marks are among the events. */
  function Marks(events: seq<Event>): nat {
    if events == [] then 0
    else Marks(events[..|events| - 1]) + (if events[|events| - 1].ProxyMark? then 1 else 0)
  }

  /** How many probes failed before the first of the marks that count. */
  function FailedBeforeMark(events: seq<Event>, direct: bool): nat {
    if events == [] then 0
    else
      var front, last := events[..|events| - 1], events[|events| - 1];
      FailedBeforeMark(front, direct) +
      (if last.ProbeFailed? && (direct || Marks(front) == 0) then 1 else 0)
  }

  function Min(a: int, b: int): int { if a < b then a else b }

  /** What the events since the last success say about the node. */
  ghost predicate Decided(e: EntryState, since: seq<Event>, maxFail: int) {
    var marks := if e.direct then 0 else Marks(since);
    var failed := FailedBeforeMark(since, e.direct);
    (e.alive <==> marks == 0 && failed < Threshold(maxFail)) &&
    e.failCount == marks + Min(failed, Threshold(maxFail))
  }

  lemma DecidedStep(e: EntryState, since: seq<Event>, ev: Event, maxFail: int)
    requires Decided(e, since, maxFail) && !ev.ProbeOk?
    ensures Decided(After(e, ev, maxFail), since + [ev], maxFail)
  {
    assert (since + [ev])[..|since|] == since;
  }

  lemma DecidedAfterSuccess(e: EntryState, latency: int, maxFail: int)
    ensures Decided(After(e, ProbeOk(latency), maxFail), [], maxFail)
  {
  }

  lemma {:induction false} RunDecides(e: EntryState, events: seq<Event>, maxFail: int)
    requires e.alive && e.failCount == 0
    ensures Decided(Run(e, events, maxFail), SinceSuccess(events), maxFail)
    ensures Run(e, events, maxFail).direct == e.direct
  {
    if events != [] {
      var front, last := events[..|events| - 1], events[|events| - 1];
      RunDecides(e, front, maxFail);
      if last.ProbeOk? {
        DecidedAfterSuccess(Run(e, front, maxFail), last.latency, maxFail);
      } else {
        DecidedStep(Run(e, front, maxFail), SinceSuccess(front), last, maxFail);
      }
    }
  }

  /** On every run of successful probes, failed probes and proxy marks, the node is alive exactly
      when, since its last success or its creation, no mark hit it and fewer than the threshold
      of probes failed.  Its count is the failed probes up to its death plus all marks; direct
      nodes ignore marks. */
  lemma {:induction false} HistoryDecidesLiveness(e: EntryState, events: seq<Event>, maxFail: int)
    requires e.alive && e.failCount == 0
    ensures var now, since := Run(e, events, maxFail), SinceSuccess(events);
            var marks := if e.direct then 0 else Marks(since);
            var failed := FailedBeforeMark(since, e.direct);
            var threshold := if maxFail > 0 then maxFail else 3;
            (now.alive <==> marks == 0 && failed < threshold) &&
            now.failCount == marks + (if failed < threshold then failed else threshold)
    ensures Run(e, events, maxFail).direct == e.direct
  {
    RunDecides(e, events, maxFail);
  }

  /** The latency of the last successful probe, or the one before all of them. */
  function LastLatency(events: seq<Event>, before: int): int {
    if events == [] then before
    else if events[|events| - 1].ProbeOk? then events[|events| - 1].latency
    else LastLatency(events[..|events| - 1], before)
  }

  /** The latency of a node is that of its last successful probe; nothing but liveness, count and latency
      ever changes. */
  lemma {:induction false} OnlyHealthChanges(e: EntryState, events: seq<Event>, maxFail: int)
    ensures var now := Run(e, events, maxFail);
            now.latency == LastLatency(events, e.latency) &&
            now == e.(alive := now.alive, failCount := now.failCount, latency := now.latency)
  {
    if events != [] {
      OnlyHealthChanges(e, events[..|events| - 1], maxFail);
    }
  }

  /** How many probes failed among the events. */
  function Failed(events: seq<Event>): nat {
    if events == [] then 0
    else Failed(events[..|events| - 1]) + (if events[|events| - 1].ProbeFailed? then 1 else 0)
  }

  lemma {:induction false} UnmarkedCount(events: seq<Event>, direct: bool)
    requires direct || Marks(events) == 0
    ensures FailedBeforeMark(events, direct) == Failed(events)
  {
    if events != [] {
      UnmarkedCount(events[..|events| - 1], direct);
    }
  }

  /** While a node is alive, its count is the number of probes that failed since its last
      success: the count the threshold is compared with is never stale. */
  lemma {:induction false} CountWhileAlive(e: EntryState, events: seq<Event>, maxFail: int)
    requires e.alive && e.failCount == 0
    requires Run(e, events, maxFail).alive
    ensures Run(e, events, maxFail).failCount == Failed(SinceSuccess(events)) < Threshold(maxFail)
  {
    HistoryDecidesLiveness(e, events, maxFail);
    UnmarkedCount(SinceSuccess(events), e.direct);
  }
}
