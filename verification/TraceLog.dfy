/** Lists of traces in the order they were recorded: expiry by local day and the last `n`
    (internal/traffic/store.go and persistence.go). */
module TraceLog {
  import opened Traces

  type Log = seq<Trace>

  /** A day in clock units; local days are whole multiples of it. */
  const DAY := 86_400_000_000_000

  const DEFAULT_RETENTION_DAYS := 7

  function DayOf(t: int): int {
    t / DAY
  }

  /** The first local day that is kept at `now` with this retention. */
  function FirstDay(now: int, days: int): int {
    DayOf(now) - ((if days < 1 then DEFAULT_RETENTION_DAYS else days) - 1)
  }

  /** startOfLocalDay(now).AddDate(0, 0, -(days - 1)) */
  function Cutoff(now: int, days: int): int {
    FirstDay(now, days) * DAY
  }

  /** A trace is kept as long as its local day is one of the last `days` days, today included; a retention
      below one means seven days. */
  lemma RetentionMeans(t: int, now: int, days: int)
    ensures t >= Cutoff(now, days) <==>
            now / 86_400_000_000_000 - t / 86_400_000_000_000 < (if days >= 1 then days else 7)
  {
    DayBeforeCutoff(t, FirstDay(now, days));
  }

  lemma CutoffMonotone(now: int, later: int, days: int)
    requires now <= later
    ensures Cutoff(now, days) <= Cutoff(later, days)
  {
  }

  lemma DayBeforeCutoff(t: int, day: int)
    ensures DayOf(t) < day <==> t < day * DAY
  {
  }

  /** The traces that are not older than the cutoff, in order. */
  function Unexpired(s: Log, cutoff: int): Log {
    if s == [] then []
    else Unexpired(s[..|s| - 1], cutoff) + (if s[|s| - 1].timestamp >= cutoff then [s[|s| - 1]] else [])
  }

  function LastN(s: Log, n: nat): Log {
    if |s| <= n then s else s[|s| - n..]
  }

  /** The newest `n` traces, or all of them. */
  lemma LastNMeans(s: Log, n: nat)
    ensures |LastN(s, n)| == (if |s| < n then |s| else n)
    ensures s[..|s| - |LastN(s, n)|] + LastN(s, n) == s
  {
  }

  ghost predicate Chronological(s: Log) {
    forall i, j :: 0 <= i <= j < |s| ==> s[i].timestamp <= s[j].timestamp
  }

  lemma UnexpiredSnoc(s: Log, t: Trace, cutoff: int)
    ensures Unexpired(s + [t], cutoff) == Unexpired(s, cutoff) + (if t.timestamp >= cutoff then [t] else [])
  {
    assert (s + [t])[..|s|] == s;
  }

  lemma {:induction false} UnexpiredConcat(s: Log, t: Log, cutoff: int)
    ensures Unexpired(s + t, cutoff) == Unexpired(s, cutoff) + Unexpired(t, cutoff)
  {
    if t == [] {
      assert s + t == s;
    } else {
      var front, last := t[..|t| - 1], t[|t| - 1];
      assert s + t == (s + front) + [last] && t == front + [last];
      UnexpiredConcat(s, front, cutoff);
      UnexpiredSnoc(s + front, last, cutoff);
    }
  }

  lemma {:induction false} UnexpiredAll(s: Log, cutoff: int)
    requires forall i :: 0 <= i < |s| ==> s[i].timestamp >= cutoff
    ensures Unexpired(s, cutoff) == s
  {
    if s != [] {
      UnexpiredAll(s[..|s| - 1], cutoff);
    }
  }

  lemma {:induction false} UnexpiredNone(s: Log, cutoff: int)
    requires forall i :: 0 <= i < |s| ==> s[i].timestamp < cutoff
    ensures Unexpired(s, cutoff) == []
  {
    if s != [] {
      UnexpiredNone(s[..|s| - 1], cutoff);
    }
  }

  lemma {:induction false} UnexpiredTwice(s: Log, early: int, late: int)
    requires early <= late
    ensures Unexpired(Unexpired(s, early), late) == Unexpired(s, late)
  {
    if s != [] {
      var front, last := s[..|s| - 1], s[|s| - 1];
      UnexpiredTwice(front, early, late);
      if last.timestamp >= early {
        UnexpiredSnoc(Unexpired(front, early), last, late);
      } else {
        assert Unexpired(s, early) == Unexpired(front, early);
      }
    }
  }

  lemma {:induction false} UnexpiredEarlier(s: Log, early: int, late: int)
    requires early <= late
    ensures Unexpired(Unexpired(s, late), early) == Unexpired(s, late)
  {
    if s != [] {
      var front, last := s[..|s| - 1], s[|s| - 1];
      UnexpiredEarlier(front, early, late);
      if last.timestamp >= late {
        UnexpiredSnoc(Unexpired(front, late), last, early);
      } else {
        assert Unexpired(s, late) == Unexpired(front, late);
      }
    }
  }

  function Max(a: int, b: int): int { if a < b then b else a }

  /** Pruning twice, in any order of the cutoffs. */
  lemma UnexpiredMax(s: Log, a: int, b: int)
    ensures Unexpired(Unexpired(s, a), b) == Unexpired(s, Max(a, b))
  {
    if a <= b {
      UnexpiredTwice(s, a, b);
    } else {
      UnexpiredEarlier(s, b, a);
    }
  }

  lemma {:induction false} UnexpiredMembers(s: Log, cutoff: int)
    ensures forall t :: t in Unexpired(s, cutoff) ==> t in s && t.timestamp >= cutoff
  {
    if s != [] {
      UnexpiredMembers(s[..|s| - 1], cutoff);
    }
  }

  lemma UnexpiredSame(s: Log, cutoff: int)
    ensures Unexpired(s, cutoff) == s <==> forall t :: t in s ==> t.timestamp >= cutoff
  {
    if forall t :: t in s ==> t.timestamp >= cutoff {
      UnexpiredAll(s, cutoff);
    }
    UnexpiredMembers(s, cutoff);
  }

  /** How many traces at the beginning are older than the cutoff. */
  function ExpiredCount(s: Log, cutoff: int): (k: nat)
    ensures k <= |s| && (k < |s| ==> s[k].timestamp >= cutoff)
    ensures forall i :: 0 <= i < k ==> s[i].timestamp < cutoff
  {
    if s == [] || s[0].timestamp >= cutoff then 0 else 1 + ExpiredCount(s[1..], cutoff)
  }

  lemma UnexpiredSplit(s: Log, k: nat, cutoff: int)
    requires k <= |s|
    requires forall i :: 0 <= i < k ==> s[i].timestamp < cutoff
    requires forall i :: k <= i < |s| ==> s[i].timestamp >= cutoff
    ensures Unexpired(s, cutoff) == s[k..]
  {
    UnexpiredNone(s[..k], cutoff);
    UnexpiredAll(s[k..], cutoff);
    UnexpiredConcat(s[..k], s[k..], cutoff);
    assert s[..k] + s[k..] == s;
  }

  /** The unexpired part of a chronological log is its end. */
  lemma UnexpiredIsTail(s: Log, cutoff: int)
    requires Chronological(s)
    ensures var k := ExpiredCount(s, cutoff);
            Unexpired(s, cutoff) == s[k..] && forall i :: k <= i < |s| ==> s[i].timestamp >= cutoff
  {
    var k := ExpiredCount(s, cutoff);
    forall i | k <= i < |s|
      ensures s[i].timestamp >= cutoff
    {
      assert s[k].timestamp <= s[i].timestamp;
    }
    UnexpiredSplit(s, k, cutoff);
  }

  // ----- what a bounded, pruned log keeps -----

  /** `kept` is the end of `history`, at most `capacity` long; what was cut off is older than
      `cutoff`, unless the log is full. */
  ghost predicate Keeps(kept: Log, history: Log, capacity: nat, cutoff: int) {
    |kept| <= capacity && |kept| <= |history| && kept == history[|history| - |kept|..] &&
    (|kept| < capacity ==> forall i :: 0 <= i < |history| - |kept| ==> history[i].timestamp < cutoff)
  }

  /** Nothing unexpired was cut off: pruning what is kept is pruning everything. */
  lemma {:induction false} ShortLogSuffices(history: Log, k: nat, later: int)
    requires k <= |history| && forall i :: 0 <= i < k ==> history[i].timestamp < later
    ensures Unexpired(history[k..], later) == Unexpired(history, later)
  {
    if k == |history| {
      UnexpiredNone(history, later);
    } else {
      var front, last := history[..|history| - 1], history[|history| - 1];
      ShortLogSuffices(front, k, later);
      assert history[k..] == front[k..] + [last];
      UnexpiredSnoc(front[k..], last, later);
    }
  }

  lemma PruneShortLog(kept: Log, history: Log, capacity: nat, later: int)
    requires Chronological(history) && |kept| <= capacity && |kept| <= |history|
    requires kept == history[|history| - |kept|..]
    requires forall i :: 0 <= i < |history| - |kept| ==> history[i].timestamp < later
    ensures Unexpired(kept, later) == LastN(Unexpired(history, later), capacity)
    ensures Keeps(Unexpired(kept, later), history, capacity, later)
  {
    var k := ExpiredCount(history, later);
    ShortLogSuffices(history, |history| - |kept|, later);
    UnexpiredIsTail(history, later);
    TailIsKept(history, k, |history| - |kept|, capacity, later);
  }

  lemma TailIsKept(history: Log, k: nat, g: nat, capacity: nat, later: int)
    requires g <= k <= |history| && |history| - g <= capacity
    requires forall i :: 0 <= i < k ==> history[i].timestamp < later
    ensures Keeps(history[k..], history, capacity, later) && LastN(history[k..], capacity) == history[k..]
  {
  }

  /** A full log whose traces are all unexpired stays as it is. */
  lemma PruneFullLog(kept: Log, history: Log, capacity: nat, k: nat, later: int)
    requires |kept| == capacity <= |history| && kept == history[|history| - capacity..]
    requires k <= |history| - capacity && forall i :: k <= i < |history| ==> history[i].timestamp >= later
    ensures Unexpired(kept, later) == LastN(history[k..], capacity)
    ensures Keeps(Unexpired(kept, later), history, capacity, later)
  {
    UnexpiredAll(kept, later);
    assert history[k..][|history| - k - capacity..] == history[|history| - capacity..];
  }

  /** Pruning at a later cutoff. */
  lemma KeepsPrune(kept: Log, history: Log, capacity: nat, cutoff: int, later: int)
    requires Chronological(history) && Keeps(kept, history, capacity, cutoff) && cutoff <= later
    ensures Keeps(Unexpired(kept, later), history, capacity, later)
    ensures Unexpired(kept, later) == LastN(Unexpired(history, later), capacity)
  {
    var g := |history| - |kept|;
    var k := ExpiredCount(history, later);
    if |kept| == capacity && k < g {
      UnexpiredIsTail(history, later);
      PruneFullLog(kept, history, capacity, k, later);
    } else {
      PruneShortLog(kept, history, capacity, later);
    }
  }

  /** What precedes an expired trace has expired. */
  lemma BeforeExpired(history: Log, j: nat, early: int)
    requires Chronological(history) && j < |history| && history[j].timestamp < early
    ensures forall i :: 0 <= i <= j ==> history[i].timestamp < early
  {
  }

  lemma ChronologicalDrop(history: Log, g: nat)
    requires Chronological(history) && g <= |history|
    ensures Chronological(history[g..])
  {
  }

  lemma DropDrop(history: Log, g: nat, k: nat)
    requires g + k <= |history|
    ensures history[g..][k..] == history[g + k..]
    ensures k > 0 ==> history[g..][k - 1] == history[g + k - 1]
  {
  }

  /** Pruning at an earlier cutoff than the one up to which the log is known. */
  lemma KeepsPruneEarlier(kept: Log, history: Log, capacity: nat, cutoff: int, early: int)
    requires Chronological(history) && Keeps(kept, history, capacity, cutoff) && early <= cutoff
    ensures Keeps(Unexpired(kept, early), history, capacity, cutoff)
  {
    var g, k := |history| - |kept|, ExpiredCount(kept, early);
    ChronologicalDrop(history, g);
    UnexpiredIsTail(kept, early);
    DropDrop(history, g, k);
    if k > 0 {
      BeforeExpired(history, g + k - 1, early);
      TailIsKept(history, g + k, g, capacity, cutoff);
    }
  }

  lemma KeepsPruneAny(kept: Log, history: Log, capacity: nat, cutoff: int, other: int)
    requires Chronological(history) && Keeps(kept, history, capacity, cutoff)
    ensures Keeps(Unexpired(kept, other), history, capacity, Max(cutoff, other))
  {
    if cutoff <= other {
      KeepsPrune(kept, history, capacity, cutoff, other);
    } else {
      KeepsPruneEarlier(kept, history, capacity, cutoff, other);
    }
  }

  /** Appending a trace to a full log drops the oldest one. */
  lemma KeepsAppend(kept: Log, history: Log, capacity: nat, cutoff: int, t: Trace)
    requires capacity > 0 && Keeps(kept, history, capacity, cutoff)
    ensures Keeps(LastN(kept + [t], capacity), history + [t], capacity, cutoff)
  {
    var gone := |history| - |kept|;
    assert kept + [t] == (history + [t])[gone..];
    if |kept| == capacity {
      assert LastN(kept + [t], capacity) == (history + [t])[gone + 1..];
    }
  }

  /** A log restored from everything unexpired keeps what it should. */
  lemma KeepsRestored(history: Log, capacity: nat, cutoff: int)
    requires Chronological(history)
    ensures Keeps(LastN(Unexpired(history, cutoff), capacity), history, capacity, cutoff)
  {
    var k := ExpiredCount(history, cutoff);
    UnexpiredIsTail(history, cutoff);
    if |history| - k > capacity {
      assert history[k..][|history| - k - capacity..] == history[|history| - capacity..];
    }
  }
}
