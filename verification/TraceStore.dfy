/** The in-memory log of the traffic store (internal/traffic/store.go): a buffer that is pruned and
    shifted in place. */
module TraceStore {
  import opened Traces
  import opened TraceLog
  import TraceId

  /** The trace that Record stores: it gets an identifier, and the current time if it has none. */
  function Stamped(t: Trace, id: int, now: int): Trace {
    t.(id := TraceId.IdOf(id), timestamp := if t.timestamp == 0 then now else t.timestamp)
  }

  const NO_TRACE := Trace("", 0, "", "", "", "", "", false, 0, 0, 0, 0, "")

  lemma FilterStep(all: Log, i: nat, cutoff: int)
    requires i < |all|
    ensures Unexpired(all[..i + 1], cutoff)
         == Unexpired(all[..i], cutoff) + (if all[i].timestamp >= cutoff then [all[i]] else [])
    ensures all[i..][1..] == all[i + 1..]
  {
    UnexpiredSnoc(all[..i], all[i], cutoff);
    assert all[..i + 1] == all[..i] + [all[i]];
  }

  /** A slice of traces that is cut to its capacity after every append. */
  class Window {
    const capacity: nat
    const buf: array<Trace>
    var count: nat

    ghost predicate Valid()
      reads this
    {
      buf.Length == capacity + 1 && count <= capacity
    }

    constructor (capacity: nat)
      ensures Valid() && this.capacity == capacity && Contents() == [] && fresh(buf)
    {
      this.capacity := capacity;
      count := 0;
      buf := new Trace[capacity + 1](_ => NO_TRACE);
    }

    /** The traces in the slice, oldest first. */
    function Contents(): Log
      reads this, buf
      requires Valid()
    {
      buf[..count]
    }

    /** The slice as a value. */
    method All() returns (traces: Log)
      requires Valid()
      ensures traces == Contents()
    {
      traces := buf[..count];
    }

    /** Appends a trace; beyond the capacity, copies the newest ones to the front. */
    method Append(t: Trace)
      requires Valid()
      modifies this, buf
      ensures Valid() && Contents() == LastN(old(Contents()) + [t], capacity)
    {
      ghost var all := Contents() + [t];
      buf[count] := t;
      assert buf[..count + 1] == all;
      if count + 1 <= capacity {
        count := count + 1;
        return;
      }
      for i := 0 to capacity
        invariant count == capacity
        invariant buf[..i] == all[1..i + 1] && buf[i..capacity + 1] == all[i..]
      {
        ghost var front, rest := buf[..i], buf[i + 1..capacity + 1];
        assert rest == all[i + 1..] by {
          assert rest == buf[i..capacity + 1][1..];
        }
        assert buf[i + 1] == all[i + 1] by {
          assert buf[i + 1] == rest[0];
        }
        buf[i] := buf[i + 1];
        assert buf[..i + 1] == front + [all[i + 1]];
        assert buf[i + 1..capacity + 1] == rest;
      }
    }

    /** Takes over the newest traces of a list. */
    method Replace(all: Log)
      requires Valid()
      modifies this, buf
      ensures Valid() && Contents() == LastN(all, capacity)
    {
      var start := if |all| > capacity then |all| - capacity else 0;
      for i := 0 to |all| - start
        invariant buf[..i] == all[start..start + i]
      {
        ghost var front := buf[..i];
        buf[i] := all[start + i];
        assert buf[..i + 1] == front + [all[start + i]];
      }
      count := |all| - start;
      assert all[start..|all|] == all[start..];
    }

    /** Keeps the traces that are not older than the cutoff, in place. */
    method Prune(cutoff: int)
      requires Valid()
      modifies this, buf
      ensures Valid() && Contents() == Unexpired(old(Contents()), cutoff)
    {
      var n := count;
      ghost var all := Contents();
      var kept := 0;
      for i := 0 to n
        invariant Valid() && count == n && 0 <= kept <= i
        invariant buf[..kept] == Unexpired(all[..i], cutoff)
        invariant buf[i..n] == all[i..]
      {
        FilterStep(all, i, cutoff);
        assert buf[i] == buf[i..n][0] == all[i];
        if buf[i].timestamp >= cutoff {
          ghost var front, rest := buf[..kept], buf[i + 1..n];
          buf[kept] := buf[i];
          kept := kept + 1;
          assert buf[..kept] == front + [all[i]];
          assert buf[i + 1..n] == rest;
        }
        assert buf[i + 1..n] == all[i..][1..];
      }
      assert all[..n] == all;
      count := kept;
    }
  }

  class Store {
    const window: Window
    var nextID: int
    var activeTunnels: int
    var retentionDays: int
    var startedAt: int

    /** The opens and closes of tunnels so far. */
    ghost var tunnelOps: seq<TunnelOp>

    ghost predicate Valid()
      reads this, window
    {
      window.Valid() && window.capacity > 0 && activeTunnels == Tunnels(tunnelOps)
    }

    function Contents(): Log
      reads this, window, window.buf
      requires Valid()
    {
      window.Contents()
    }

    constructor (capacity: int, retentionDays: int, now: int)
      ensures Valid() && Contents() == [] && nextID == 0 && activeTunnels == 0 && fresh(window) && fresh(window.buf)
      ensures window.capacity == (if capacity <= 0 then 1000 else capacity) && this.retentionDays == retentionDays
      ensures startedAt == now && tunnelOps == []
    {
      window := new Window(if capacity <= 0 then 1000 else capacity);
      this.retentionDays, startedAt := retentionDays, now;
      nextID, activeTunnels, tunnelOps := 0, 0, [];
    }

    /** Record: prunes, appends the stamped trace and drops the oldest ones beyond the capacity.
        `now` and `stamp` are the two clock readings the code takes. */
    method Record(trace: Trace, now: int, stamp: int) returns (recorded: Trace)
      requires Valid()
      modifies this, window, window.buf
      ensures Valid() && nextID == old(nextID) + 1 && retentionDays == old(retentionDays)
      ensures tunnelOps == old(tunnelOps) && activeTunnels == old(activeTunnels) && startedAt == old(startedAt)
      ensures recorded == Stamped(trace, nextID, stamp)
      ensures recorded.timestamp == (if trace.timestamp != 0 then trace.timestamp else stamp)
      ensures recorded.id == TraceId.IdOf(nextID)
      ensures recorded == trace.(id := recorded.id, timestamp := recorded.timestamp)
      ensures Contents()
           == LastN(Unexpired(old(Contents()), Cutoff(now, old(retentionDays))) + [recorded], window.capacity)
    {
      window.Prune(Cutoff(now, retentionDays));
      nextID := nextID + 1;
      recorded := trace.(id := TraceId.IdOf(nextID));
      if recorded.timestamp == 0 {
        recorded := recorded.(timestamp := stamp);
      }
      window.Append(recorded);
    }

    /** Snapshot's list of traces: newest first, at most `limit` of them. */
    method Recent(limit: int, now: int) returns (traces: Log)
      requires Valid()
      modifies window, window.buf
      ensures Valid() && Contents() == Unexpired(old(Contents()), Cutoff(now, retentionDays))
      ensures var n := |Contents()|;
              |traces| == (if limit <= 0 || limit > n then n else limit) &&
              forall i :: 0 <= i < |traces| ==> traces[i] == Contents()[n - 1 - i]
    {
      window.Prune(Cutoff(now, retentionDays));
      var count := window.count;
      var max := if limit <= 0 || limit > count then count else limit;
      traces := [];
      var i := count - 1;
      while i >= 0 && |traces| < max
        invariant |traces| <= max && i == count - 1 - |traces|
        invariant forall j :: 0 <= j < |traces| ==> traces[j] == window.buf[count - 1 - j]
      {
        traces := traces + [window.buf[i]];
        i := i - 1;
      }
    }

    /** EnablePersistence, on traces loaded from the files: puts them before the traces in memory,
        sorts all by time, keeps the newest and continues their numbering. */
    method Restore(loaded: Log)
      requires Valid()
      modifies this, window, window.buf
      ensures Valid()
      ensures loaded == [] ==> Contents() == old(Contents()) && nextID == old(nextID)
      ensures loaded != [] ==> Contents() == LastN(StableSorted(loaded + old(Contents())), window.capacity) &&
                               nextID == MaxId(Contents(), old(nextID))
      ensures retentionDays == old(retentionDays)
      ensures tunnelOps == old(tunnelOps) && activeTunnels == old(activeTunnels)
      ensures startedAt
           == if loaded != [] && Contents()[0].timestamp != 0 then Contents()[0].timestamp else old(startedAt)
    {
      if loaded == [] {
        return;
      }
      var all := StableSort(loaded + Contents());
      window.Replace(all);
      ghost var kept := Contents();
      for i := 0 to window.count
        invariant Valid() && Contents() == kept && retentionDays == old(retentionDays)
        invariant tunnelOps == old(tunnelOps) && activeTunnels == old(activeTunnels) && startedAt == old(startedAt)
        invariant nextID == MaxId(kept[..i], old(nextID))
      {
        MaxIdStep(kept, i, old(nextID));
        var id := TraceId.ParseTraceId(window.buf[i].id);
        if id > nextID {
          nextID := id;
        }
      }
      assert kept[..|kept|] == kept;
      if window.buf[0].timestamp != 0 {
        startedAt := window.buf[0].timestamp;
      }
    }

    method TunnelOpened()
      requires Valid()
      modifies this`activeTunnels, this`tunnelOps
      ensures Valid() && tunnelOps == old(tunnelOps) + [Begin]
    {
      TunnelsSnoc(tunnelOps, Begin);
      activeTunnels := activeTunnels + 1;
      tunnelOps := tunnelOps + [Begin];
    }

    method TunnelClosed()
      requires Valid()
      modifies this`activeTunnels, this`tunnelOps
      ensures Valid() && tunnelOps == old(tunnelOps) + [End]
    {
      TunnelsSnoc(tunnelOps, End);
      tunnelOps := tunnelOps + [End];
      if activeTunnels > 0 {
        activeTunnels := activeTunnels - 1;
      }
    }
  }

  // ----- open tunnels -----

  datatype TunnelOp = Begin | End

  /** The count of open tunnels after a run of opens and closes. */
  function Tunnels(ops: seq<TunnelOp>): nat {
    if ops == [] then 0
    else
      var n := Tunnels(ops[..|ops| - 1]);
      if ops[|ops| - 1].Begin? then n + 1 else if n > 0 then n - 1 else 0
  }

  lemma TunnelsSnoc(ops: seq<TunnelOp>, op: TunnelOp)
    ensures Tunnels(ops + [op])
         == if op.Begin? then Tunnels(ops) + 1 else if Tunnels(ops) > 0 then Tunnels(ops) - 1 else 0
  {
    assert (ops + [op])[..|ops|] == ops;
  }

  /** Opens minus closes. */
  function Balance(ops: seq<TunnelOp>): int {
    if ops == [] then 0 else Balance(ops[..|ops| - 1]) + (if ops[|ops| - 1].Begin? then 1 else -1)
  }

  /** How far the closes were ever ahead of the opens: so many closes found no open tunnel. */
  function Unmatched(ops: seq<TunnelOp>): nat {
    if ops == [] then 0
    else
      var u := Unmatched(ops[..|ops| - 1]);
      if -Balance(ops) > u then -Balance(ops) else u
  }

  lemma {:induction false} UnmatchedIsMost(ops: seq<TunnelOp>, k: nat)
    requires k <= |ops|
    ensures -Balance(ops[..k]) <= Unmatched(ops)
  {
    if k == |ops| {
      assert ops[..k] == ops;
    } else {
      UnmatchedIsMost(ops[..|ops| - 1], k);
      assert ops[..|ops| - 1][..k] == ops[..k];
    }
  }

  lemma {:induction false} UnmatchedIsReached(ops: seq<TunnelOp>) returns (k: nat)
    ensures k <= |ops| && -Balance(ops[..k]) == Unmatched(ops)
  {
    k := |ops|;
    assert ops[..k] == ops;
    if ops != [] && -Balance(ops) <= Unmatched(ops[..|ops| - 1]) {
      k := UnmatchedIsReached(ops[..|ops| - 1]);
      assert ops[..|ops| - 1][..k] == ops[..k];
    }
  }

  /** The count is the opens minus those closes that found an open tunnel. */
  lemma {:induction false} TunnelsAreMatched(ops: seq<TunnelOp>)
    ensures Tunnels(ops) == Balance(ops) + Unmatched(ops)
  {
    if ops != [] {
      TunnelsAreMatched(ops[..|ops| - 1]);
    }
  }

  /** It is exactly opens minus closes if and only if no close ever came before its open. */
  lemma TunnelsBalanceIff(ops: seq<TunnelOp>)
    ensures Tunnels(ops) == Balance(ops) <==> forall k :: 0 <= k <= |ops| ==> Balance(ops[..k]) >= 0
  {
    TunnelsAreMatched(ops);
    if Unmatched(ops) == 0 {
      forall k | 0 <= k <= |ops|
        ensures Balance(ops[..k]) >= 0
      {
        UnmatchedIsMost(ops, k);
      }
    } else {
      var k := UnmatchedIsReached(ops);
    }
  }

  /** The largest identifier among the traces and `floor`. */
  function MaxId(s: Log, floor: int): int {
    if s == [] then floor
    else
      var m, id := MaxId(s[..|s| - 1], floor), TraceId.ParseTraceId(s[|s| - 1].id);
      if id > m then id else m
  }

  lemma MaxIdStep(s: Log, i: nat, floor: int)
    requires i < |s|
    ensures var m, id := MaxId(s[..i], floor), TraceId.ParseTraceId(s[i].id);
            MaxId(s[..i + 1], floor) == if id > m then id else m
  {
    assert s[..i + 1][..i] == s[..i];
  }

  // ----- sort.SliceStable by time -----

  /** Where a trace goes that comes after the traces of `s`: behind all that are not younger. */
  function Place(s: Log, t: Trace): (k: nat)
    ensures k <= |s| && (k > 0 ==> s[k - 1].timestamp <= t.timestamp)
    ensures forall i :: k <= i < |s| ==> s[i].timestamp > t.timestamp
  {
    if s == [] || s[|s| - 1].timestamp <= t.timestamp then |s| else Place(s[..|s| - 1], t)
  }

  function Inserted(s: Log, t: Trace): Log {
    var k := Place(s, t); s[..k] + [t] + s[k..]
  }

  function StableSorted(s: Log): Log {
    if s == [] then [] else Inserted(StableSorted(s[..|s| - 1]), s[|s| - 1])
  }

  method StableSort(s: Log) returns (r: Log)
    ensures r == StableSorted(s)
  {
    r := [];
    for i := 0 to |s|
      invariant r == StableSorted(s[..i])
    {
      assert s[..i + 1][..i] == s[..i];
      r := Inserted(r, s[i]);
    }
    assert s[..|s|] == s;
  }

  /** The traces of one instant, in order. */
  function At(s: Log, time: int): Log {
    if s == [] then []
    else At(s[..|s| - 1], time) + (if s[|s| - 1].timestamp == time then [s[|s| - 1]] else [])
  }

  lemma {:induction false} AtConcat(s: Log, t: Log, time: int)
    ensures At(s + t, time) == At(s, time) + At(t, time)
  {
    if t == [] {
      assert s + t == s;
    } else {
      AtConcat(s, t[..|t| - 1], time);
      assert (s + t)[..|s + t| - 1] == s + t[..|t| - 1];
    }
  }

  lemma {:induction false} AtNone(s: Log, time: int)
    requires forall i :: 0 <= i < |s| ==> s[i].timestamp != time
    ensures At(s, time) == []
  {
    if s != [] {
      AtNone(s[..|s| - 1], time);
    }
  }

  lemma InsertedKeepsOrder(s: Log, t: Trace)
    requires Chronological(s)
    ensures Chronological(Inserted(s, t))
  {
    var k, r := Place(s, t), Inserted(s, t);
    forall i, j | 0 <= i < j < |r|
      ensures r[i].timestamp <= r[j].timestamp
    {
      if j < k {
        assert r[i] == s[i] && r[j] == s[j];
      } else if j == k {
        assert r[i] == s[i] && s[i].timestamp <= s[k - 1].timestamp;
      } else {
        assert r[j] == s[j - 1];
        if i < k {
          assert r[i] == s[i];
        } else if i > k {
          assert r[i] == s[i - 1];
        }
      }
    }
  }

  lemma AtInserted(s: Log, t: Trace, time: int)
    ensures var k := Place(s, t);
            At(Inserted(s, t), time) == (At(s[..k], time) + At([t], time)) + At(s[k..], time)
  {
    var k := Place(s, t);
    AtConcat(s[..k] + [t], s[k..], time);
    AtConcat(s[..k], [t], time);
  }

  lemma AtAppended(s: Log, t: Trace, k: nat, time: int)
    requires k <= |s|
    ensures At(s + [t], time) == (At(s[..k], time) + At(s[k..], time)) + At([t], time)
  {
    AtConcat(s, [t], time);
    AtConcat(s[..k], s[k..], time);
    assert s[..k] + s[k..] == s;
  }

  lemma InsertedAt(s: Log, t: Trace, time: int)
    ensures At(Inserted(s, t), time) == At(s + [t], time)
  {
    var k := Place(s, t);
    AtInserted(s, t, time);
    AtAppended(s, t, k, time);
    if t.timestamp == time {
      AtNone(s[k..], time);
    } else {
      AtNone([t], time);
    }
    SwapEmpty(At(s[..k], time), At([t], time), At(s[k..], time));
  }

  lemma SwapEmpty(a: Log, b: Log, c: Log)
    requires b == [] || c == []
    ensures (a + b) + c == (a + c) + b
  {
  }

  /** Sorting by time yields a chronological list and keeps the order of traces of the same
      instant. */
  lemma {:induction false} StableSortedIsStable(s: Log, time: int)
    ensures Chronological(StableSorted(s)) && At(StableSorted(s), time) == At(s, time)
  {
    if s != [] {
      var front, t := s[..|s| - 1], s[|s| - 1];
      var sorted := StableSorted(front);
      StableSortedIsStable(front, time);
      InsertedKeepsOrder(sorted, t);
      InsertedAt(sorted, t, time);
      AtConcat(sorted, [t], time);
      AtConcat(front, [t], time);
      assert front + [t] == s;
      assert StableSorted(s) == Inserted(sorted, t);
    }
  }

  lemma {:induction false} AtOccurs(s: Log, i: nat)
    requires i < |s|
    ensures At(s, s[i].timestamp) != []
  {
    if i < |s| - 1 {
      AtOccurs(s[..|s| - 1], i);
    }
  }

  lemma {:induction false} AtOfTime(s: Log, time: int)
    requires At(s, time) != []
    ensures exists i :: 0 <= i < |s| && s[i].timestamp == time
  {
    if forall i :: 0 <= i < |s| ==> s[i].timestamp != time {
      AtNone(s, time);
    }
  }

  lemma LastTimes(s: Log, r: Log)
    requires Chronological(r) && s != [] && forall time :: At(s, time) == At(r, time)
    ensures r != [] && s[|s| - 1].timestamp <= r[|r| - 1].timestamp
  {
    AtOccurs(s, |s| - 1);
    AtOfTime(r, s[|s| - 1].timestamp);
  }

  /** These two properties determine the list: the code's result cannot be any other. */
  lemma {:induction false} StableSortIsUnique(s: Log, r: Log)
    requires Chronological(s) && Chronological(r) && forall time :: At(s, time) == At(r, time)
    ensures s == r
  {
    if s != [] || r != [] {
      if s != [] { LastTimes(s, r); }
      if r != [] { LastTimes(r, s); }
      var x, y, f, g := s[|s| - 1], r[|r| - 1], s[..|s| - 1], r[..|r| - 1];
      assert At(s, x.timestamp) == At(r, x.timestamp);
      SameLast(At(f, x.timestamp), x, At(g, x.timestamp), y);
      forall time
        ensures At(f, time) == At(g, time)
      {
        assert At(s, time) == At(r, time);
        if time == x.timestamp {
          SameLast(At(f, time), x, At(g, time), y);
        } else {
          assert At(f, time) + [] == At(f, time) && At(g, time) + [] == At(g, time);
        }
      }
      StableSortIsUnique(f, g);
      assert s == f + [x] && r == g + [y];
    }
  }

  lemma SameLast(f: Log, x: Trace, g: Log, y: Trace)
    requires f + [x] == g + [y]
    ensures f == g && x == y
  {
    assert |f| == |g|;
    assert f == (f + [x])[..|f|] && g == (g + [y])[..|g|];
    assert x == (f + [x])[|f|] && y == (g + [y])[|g|];
  }

  lemma {:induction false} SortedStaysPut(s: Log)
    requires Chronological(s)
    ensures StableSorted(s) == s
  {
    if s != [] {
      SortedStaysPut(s[..|s| - 1]);
      if |s| > 1 {
        assert s[|s| - 2].timestamp <= s[|s| - 1].timestamp;
      }
    }
  }
}
