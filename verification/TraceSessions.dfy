/** Whole runs of the traffic store: records, looks and restarts (internal/traffic/store.go and
    persistence.go).

    One step is one call, a restart being Close and EnablePersistence on a new store.  Records are
    sequential, so the queue hands them to the writer in order (see PersistenceQueue), and the
    settings do not change. */
module TraceSessions {
  import opened Traces
  import opened TraceLog
  import opened TraceStore
  import opened TraceFiles
  import opened Wrappers
  import opened Ordering
  import TraceId

  datatype Settings = Settings(capacity: nat, days: int)

  datatype Session = Session(contents: Log, nextID: int, files: Files, currentDay: Option<int>)

  /** The clock readings of a call are part of the operation. */
  datatype Op = Record(trace: Trace, now: int, stamp: int) | Look(now: int) | Restart(now: int)

  const FRESH := Session([], 0, map[], None)

  ghost function Step(p: Settings, s: Session, op: Op): Session {
    match op
    case Record(trace, now, stamp) =>
      var t := Stamped(trace, s.nextID + 1, stamp);
      Session(LastN(Unexpired(s.contents, Cutoff(now, p.days)) + [t], p.capacity), s.nextID + 1,
              Written(s.files, s.currentDay, t, p.days), Some(DayOf(t.timestamp)))
    case Look(now) => s.(contents := Unexpired(s.contents, Cutoff(now, p.days)))
    case Restart(now) =>
      var files := Pruned(s.files, now, p.days);
      var loaded := Loaded(files, p.capacity);
      if loaded == [] then Session([], 0, files, None)
      else
        var contents := LastN(StableSorted(loaded + []), p.capacity);
        Session(contents, MaxId(contents, 0), files, None)
  }

  /** A run so far: the store, every trace that was ever recorded, the last clock reading, and the
      cutoff up to which restarts have lost what older traces there were. */
  datatype World = World(session: Session, history: Log, clock: int, floor: int)

  /** What a step adds to the history. */
  ghost function Added(s: Session, op: Op): Log {
    if op.Record? then [Stamped(op.trace, s.nextID + 1, op.stamp)] else []
  }

  /** The last clock reading of an operation. */
  function Reading(op: Op): int {
    if op.Record? then op.stamp else op.now
  }

  /** The cutoff of the last record: the writer has deleted the files of the days before it. */
  function LastCutoff(p: Settings, H: Log): int
    requires H != []
  {
    Cutoff(H[|H| - 1].timestamp, p.days)
  }

  ghost function Advance(p: Settings, w: World, op: Op): World {
    World(Step(p, w.session, op), w.history + Added(w.session, op), Reading(op),
          if op.Restart? && w.history != [] then Max(w.floor, LastCutoff(p, w.history)) else w.floor)
  }

  ghost function Run(p: Settings, ops: seq<Op>, start: int): World {
    if ops == [] then World(FRESH, [], start, Cutoff(start, p.days))
    else Advance(p, Run(p, ops[..|ops| - 1], start), ops[|ops| - 1])
  }

  lemma RunSnoc(p: Settings, ops: seq<Op>, op: Op, start: int)
    ensures Run(p, ops + [op], start) == Advance(p, Run(p, ops, start), op)
  {
    assert (ops + [op])[..|ops|] == ops;
  }

  /** The time that a record will carry. */
  function TimeOf(op: Op): int
    requires op.Record?
  {
    if op.trace.timestamp == 0 then op.stamp else op.trace.timestamp
  }

  /** `op` may come next: the clock does not go back, and neither do the times of the records, which
      may be dated before or after the clock. */
  ghost predicate Follows(op: Op, history: Log, clock: int) {
    clock <= op.now &&
    (op.Record? ==> op.now <= op.stamp && TimeOf(op) != 0 &&
                    (history != [] ==> history[|history| - 1].timestamp <= TimeOf(op)))
  }

  ghost predicate Orderly(p: Settings, ops: seq<Op>, start: int) {
    ops == [] ||
    (Orderly(p, ops[..|ops| - 1], start) &&
     Follows(ops[|ops| - 1], Run(p, ops[..|ops| - 1], start).history, Run(p, ops[..|ops| - 1], start).clock))
  }

  // ----- the disk -----

  ghost predicate FilesOk(files: Files) {
    forall d, i :: d in files && 0 <= i < |files[d]| ==> DayOf(files[d][i].timestamp) == d
  }

  function From(days: seq<int>, first: int): seq<int> {
    if days == [] then []
    else From(days[..|days| - 1], first) + (if days[|days| - 1] >= first then [days[|days| - 1]] else [])
  }

  lemma {:induction false} FromKeeps(days: seq<int>, first: int)
    requires Ascending(DayLess, days)
    ensures Ascending(DayLess, From(days, first))
    ensures forall d :: d in From(days, first) <==> d in days && d >= first
  {
    if days != [] {
      var front, last := days[..|days| - 1], days[|days| - 1];
      FromKeeps(front, first);
      assert days == front + [last];
      assert forall d :: d in front ==> DayLess(d, last);
    }
  }

  lemma PrunedDays(files: Files, now: int, days: int)
    ensures DaysOf(Pruned(files, now, days)) == From(DaysOf(files), FirstDay(now, days))
  {
    var kept, r := Pruned(files, now, days), From(DaysOf(files), FirstDay(now, days));
    DaysAreOrdered(files.Keys);
    DaysAreOrdered(kept.Keys);
    FromKeeps(DaysOf(files), FirstDay(now, days));
    SameElements(r, kept.Keys, DaysOf(files), files.Keys, FirstDay(now, days));
    ListingIs(DayLess, kept.Keys, r);
  }

  lemma SameElements(r: seq<int>, kept: set<int>, days: seq<int>, all: set<int>, first: int)
    requires Elements(days) == all && (forall d :: d in r <==> d in days && d >= first)
    requires kept == set d | d in all && d >= first
    ensures Elements(r) == kept
  {
    forall d: int
      ensures d in Elements(r) <==> d in kept
    {
      assert d in days <==> d in Elements(days);
    }
    assert Elements(r) <= kept && kept <= Elements(r);
  }

  lemma {:induction false} ConcatPruned(files: Files, days: seq<int>, now: int, keep: int)
    requires FilesOk(files)
    ensures Concat(Pruned(files, now, keep), From(days, FirstDay(now, keep)))
         == Unexpired(Concat(files, days), Cutoff(now, keep))
  {
    if days != [] {
      var front, d, first := days[..|days| - 1], days[|days| - 1], FirstDay(now, keep);
      var kept := Pruned(files, now, keep);
      ConcatPruned(files, front, now, keep);
      UnexpiredConcat(Concat(files, front), Lines(files, d), Cutoff(now, keep));
      forall i | 0 <= i < |Lines(files, d)|
        ensures Lines(files, d)[i].timestamp >= Cutoff(now, keep) <==> d >= first
      {
        DayBeforeCutoff(Lines(files, d)[i].timestamp, first);
      }
      if d >= first {
        UnexpiredAll(Lines(files, d), Cutoff(now, keep));
        assert (From(front, first) + [d])[..|From(front, first)|] == From(front, first);
        assert Lines(kept, d) == Lines(files, d);
      } else {
        UnexpiredNone(Lines(files, d), Cutoff(now, keep));
        assert From(days, first) == From(front, first);
      }
    }
  }

  /** Pruning whole files by their day removes exactly the traces that are older than the cutoff. */
  lemma PruneOnDisk(files: Files, now: int, days: int)
    requires FilesOk(files)
    ensures OnDisk(Pruned(files, now, days)) == Unexpired(OnDisk(files), Cutoff(now, days))
  {
    PrunedDays(files, now, days);
    ConcatPruned(files, DaysOf(files), now, days);
  }

  lemma {:induction false} ConcatElsewhere(files: Files, days: seq<int>, d: int, lines: Log)
    requires d !in days
    ensures Concat(files[d := lines], days) == Concat(files, days)
  {
    if days != [] {
      ConcatElsewhere(files, days[..|days| - 1], d, lines);
    }
  }

  lemma DaysUpTo(files: Files, d: int)
    requires forall e :: e in files ==> e <= d
    ensures forall e :: e in DaysOf(files) ==> e <= d
    ensures d in files <==> d in DaysOf(files)
  {
    var days := DaysOf(files);
    DaysAreOrdered(files.Keys);
    forall e: int
      ensures e in days <==> e in files.Keys
    {
      assert e in days <==> e in Elements(days);
    }
  }

  lemma AscendingSnoc(days: seq<int>, d: int)
    requires Ascending(DayLess, days) && d !in days && forall e :: e in days ==> e <= d
    ensures Ascending(DayLess, days + [d])
  {
    forall i | 0 <= i < |days|
      ensures DayLess(days[i], d)
    {
      assert days[i] in days;
    }
  }

  lemma NewDay(files: Files, d: int, lines: Log)
    requires d !in files && forall e :: e in files ==> e <= d
    ensures DaysOf(files[d := lines]) == DaysOf(files) + [d]
  {
    var days := DaysOf(files);
    DaysAreOrdered(files.Keys);
    DaysUpTo(files, d);
    AscendingHasNoDuplicates(DayLess, files.Keys, days);
    Appended(days, d);
    DaysAreOrdered(files.Keys + {d});
    AscendingSnoc(days, d);
    ListingIs(DayLess, files.Keys + {d}, days + [d]);
    assert files[d := lines].Keys == files.Keys + {d};
  }

  lemma OldDay(files: Files, d: int, lines: Log) returns (front: seq<int>)
    requires d in files && forall e :: e in files ==> e <= d
    ensures d !in front && DaysOf(files) == front + [d]
    ensures DaysOf(files[d := lines]) == DaysOf(files)
  {
    var days := DaysOf(files);
    DaysAreOrdered(files.Keys);
    DaysUpTo(files, d);
    LastIsGreatest(days, d);
    front := days[..|days| - 1];
    assert files[d := lines].Keys == files.Keys;
  }

  lemma LastIsGreatest(days: seq<int>, d: int)
    requires Ascending(DayLess, days) && d in days && forall e :: e in days ==> e <= d
    ensures days == days[..|days| - 1] + [d] && d !in days[..|days| - 1]
  {
    var last := days[|days| - 1];
    assert last in days;
    var i :| 0 <= i < |days| && days[i] == d;
    assert i < |days| - 1 ==> DayLess(days[i], last);
    forall k | 0 <= k < |days| - 1
      ensures days[k] != d
    {
      assert DayLess(days[k], last);
    }
  }

  lemma ConcatSnoc(files: Files, days: seq<int>, d: int)
    ensures Concat(files, days + [d]) == Concat(files, days) + Lines(files, d)
  {
    assert (days + [d])[..|days|] == days;
  }

  lemma Associative(a: Log, b: Log, c: Log)
    ensures a + (b + c) == (a + b) + c
  {
  }

  lemma ConcatAppend(files: Files, front: seq<int>, d: int, t: Trace)
    requires d !in front
    ensures Concat(files[d := Lines(files, d) + [t]], front + [d]) == Concat(files, front + [d]) + [t]
  {
    var lines := Lines(files, d) + [t];
    ConcatSnoc(files, front, d);
    ConcatSnoc(files[d := lines], front, d);
    ConcatElsewhere(files, front, d, lines);
    Associative(Concat(files, front), Lines(files, d), [t]);
  }

  /** Appending to the newest file appends to the whole. */
  lemma AppendOnDisk(files: Files, d: int, t: Trace)
    requires forall e :: e in files ==> e <= d
    ensures OnDisk(files[d := Lines(files, d) + [t]]) == OnDisk(files) + [t]
  {
    var lines := Lines(files, d) + [t];
    if d in files {
      var front := OldDay(files, d, lines);
      ConcatAppend(files, front, d, t);
    } else {
      DaysUpTo(files, d);
      NewDay(files, d, lines);
      ConcatAppend(files, DaysOf(files), d, t);
      ConcatSnoc(files, DaysOf(files), d);
      assert OnDisk(files) + [] == OnDisk(files);
    }
  }

  /** Opening the file of a new day and writing to it. */
  lemma WrittenIs(files: Files, currentDay: Option<int>, t: Trace, days: int)
    requires days >= 1
    ensures var d := DayOf(t.timestamp);
            var kept := if currentDay == Some(d) then files else Pruned(files, t.timestamp, days);
            Written(files, currentDay, t, days) == kept[d := Lines(kept, d) + [t]]
  {
    var d := DayOf(t.timestamp);
    if currentDay != Some(d) {
      var kept, ready := Pruned(files, t.timestamp, days), Opened(files, t, days);
      assert Lines(ready, d) == Lines(kept, d);
      assert Written(files, currentDay, t, days).Keys == kept[d := Lines(kept, d) + [t]].Keys;
    }
  }

  // ----- the invariant -----

  ghost predicate Timed(H: Log) {
    forall i :: 0 <= i < |H| ==> H[i].timestamp != 0
  }

  /** From here on the files hold the whole history: the clock's cutoff, or the last record's. */
  function Horizon(p: Settings, H: Log, clock: int): int {
    if H == [] then Cutoff(clock, p.days) else Max(Cutoff(clock, p.days), LastCutoff(p, H))
  }

  /** What is not expired is not below the floor. */
  ghost predicate AboveFloor(contents: Log, cutoff: int, floor: int) {
    forall t :: t in contents && t.timestamp >= cutoff ==> t.timestamp >= floor
  }

  /** The memory holds the end of the history, up to the capacity, the cutoff or the floor. */
  ghost predicate MemoryOk(p: Settings, contents: Log, H: Log, clock: int, floor: int) {
    Keeps(contents, H, p.capacity, Max(Cutoff(clock, p.days), floor)) &&
    AboveFloor(contents, Cutoff(clock, p.days), floor)
  }

  /** There are no files of days after the last record, nor of days it has expired. */
  ghost predicate DaysOk(p: Settings, files: Files, H: Log) {
    forall d :: d in files ==> H != [] && FirstDay(H[|H| - 1].timestamp, p.days) <= d <= DayOf(H[|H| - 1].timestamp)
  }

  ghost predicate CurrentOk(currentDay: Option<int>, H: Log) {
    currentDay.Some? ==> H != [] && currentDay.value == DayOf(H[|H| - 1].timestamp)
  }

  /** From the cutoff on, the files hold the whole history. */
  ghost predicate DiskOk(p: Settings, files: Files, H: Log, cutoff: int) {
    FilesOk(files) && DaysOk(p, files, H) && Unexpired(OnDisk(files), cutoff) == Unexpired(H, cutoff)
  }

  /** Logs that agree on what is unexpired agree at every later time. */
  lemma AgreeLater(a: Log, b: Log, cutoff: int, later: int)
    requires cutoff <= later && Unexpired(a, cutoff) == Unexpired(b, cutoff)
    ensures Unexpired(a, later) == Unexpired(b, later)
  {
    UnexpiredTwice(a, cutoff, later);
    UnexpiredTwice(b, cutoff, later);
  }

  lemma DiskLater(p: Settings, files: Files, H: Log, cutoff: int, later: int)
    requires DiskOk(p, files, H, cutoff) && cutoff <= later
    ensures DiskOk(p, files, H, later)
  {
    AgreeLater(OnDisk(files), H, cutoff, later);
  }

  lemma HorizonLater(p: Settings, H: Log, clock: int, now: int)
    requires clock <= now
    ensures Horizon(p, H, clock) <= Horizon(p, H, now)
  {
    CutoffMonotone(clock, now, p.days);
  }

  lemma HorizonRecord(p: Settings, H: Log, t: Trace, clock: int, now: int)
    requires clock <= now && (H != [] ==> H[|H| - 1].timestamp <= t.timestamp)
    ensures Horizon(p, H, clock) <= Horizon(p, H + [t], now)
    ensures Cutoff(t.timestamp, p.days) <= Horizon(p, H + [t], now)
  {
    CutoffMonotone(clock, now, p.days);
    if H != [] {
      CutoffMonotone(H[|H| - 1].timestamp, t.timestamp, p.days);
    }
  }

  lemma ChronologicalSnoc(H: Log, t: Trace)
    requires Chronological(H) && (H != [] ==> H[|H| - 1].timestamp <= t.timestamp)
    ensures Chronological(H + [t])
  {
    forall i, j | 0 <= i <= j < |H + [t]|
      ensures (H + [t])[i].timestamp <= (H + [t])[j].timestamp
    {
      assert i < |H| ==> H[i].timestamp <= H[|H| - 1].timestamp;
    }
  }

  lemma TimedSnoc(H: Log, t: Trace)
    requires Timed(H) && t.timestamp != 0
    ensures Timed(H + [t])
  {
  }

  lemma KeepsRecord(kept: Log, H: Log, capacity: nat, cutoff: int, now: int, later: int, t: Trace)
    requires capacity > 0 && Chronological(H) && Keeps(kept, H, capacity, cutoff) && cutoff <= later && now <= later
    ensures Keeps(LastN(Unexpired(kept, now) + [t], capacity), H + [t], capacity, later)
  {
    KeepsPruneAny(kept, H, capacity, cutoff, now);
    KeepsAppend(Unexpired(kept, now), H, capacity, Max(cutoff, now), t);
  }

  lemma AboveFloorPruned(contents: Log, cutoff: int, now: int, later: int, floor: int)
    requires AboveFloor(contents, cutoff, floor) && cutoff <= later
    ensures AboveFloor(Unexpired(contents, now), later, floor)
  {
    UnexpiredMembers(contents, now);
  }

  lemma AboveFloorRecord(contents: Log, cutoff: int, now: int, later: int, floor: int, t: Trace, n: nat)
    requires AboveFloor(contents, cutoff, floor) && cutoff <= later
    requires t.timestamp >= later ==> t.timestamp >= floor
    ensures AboveFloor(LastN(Unexpired(contents, now) + [t], n), later, floor)
  {
    var all := Unexpired(contents, now) + [t];
    AboveFloorPruned(contents, cutoff, now, later, floor);
    forall u | u in LastN(all, n) && u.timestamp >= later
      ensures u.timestamp >= floor
    {
      assert u in all;
    }
  }

  /** A record that is not expired is not below the floor either. */
  lemma RecordAboveFloor(p: Settings, H: Log, t: Trace, clock: int, now: int, floor: int)
    requires p.days >= 1 && clock <= now && floor <= Horizon(p, H, clock)
    requires H != [] ==> H[|H| - 1].timestamp <= t.timestamp
    ensures t.timestamp >= Cutoff(now, p.days) ==> t.timestamp >= floor
  {
    CutoffMonotone(clock, now, p.days);
    if H != [] {
      CutoffMonotone(H[|H| - 1].timestamp, t.timestamp, p.days);
    }
    CutoffIsPast(t.timestamp, p.days);
  }

  lemma CutoffIsPast(t: int, days: int)
    ensures Cutoff(t, days) <= t
  {
  }

  /** The same about bare cutoffs: at the last clock reading, at the pruning and at the stamp. */
  lemma MemoryRecordCut(contents: Log, H: Log, capacity: nat, c: int, n: int, l: int, floor: int, t: Trace)
    requires capacity > 0 && Chronological(H) && Keeps(contents, H, capacity, Max(c, floor))
    requires AboveFloor(contents, c, floor)
    requires c <= n <= l && (t.timestamp >= l ==> t.timestamp >= floor)
    ensures Keeps(LastN(Unexpired(contents, n) + [t], capacity), H + [t], capacity, Max(l, floor))
    ensures AboveFloor(LastN(Unexpired(contents, n) + [t], capacity), l, floor)
  {
    KeepsRecord(contents, H, capacity, Max(c, floor), n, Max(l, floor), t);
    AboveFloorRecord(contents, c, n, l, floor, t, capacity);
  }

  lemma MemoryRecord(p: Settings, contents: Log, H: Log, clock: int, floor: int, op: Op, t: Trace)
    requires p.capacity > 0 && p.days >= 1 && Chronological(H) && MemoryOk(p, contents, H, clock, floor)
    requires op.Record? && Follows(op, H, clock) && t.timestamp == TimeOf(op) && floor <= Horizon(p, H, clock)
    ensures MemoryOk(p, LastN(Unexpired(contents, Cutoff(op.now, p.days)) + [t], p.capacity), H + [t], op.stamp, floor)
  {
    var c, n, l := Cutoff(clock, p.days), Cutoff(op.now, p.days), Cutoff(op.stamp, p.days);
    CutoffMonotone(clock, op.now, p.days);
    CutoffMonotone(op.now, op.stamp, p.days);
    RecordAboveFloor(p, H, t, clock, op.stamp, floor);
    MemoryRecordCut(contents, H, p.capacity, c, n, l, floor, t);
  }

  lemma MemoryLater(p: Settings, contents: Log, H: Log, clock: int, floor: int, now: int)
    requires Chronological(H) && MemoryOk(p, contents, H, clock, floor) && clock <= now
    ensures MemoryOk(p, Unexpired(contents, Cutoff(now, p.days)), H, now, floor)
  {
    var c, n := Cutoff(clock, p.days), Cutoff(now, p.days);
    CutoffMonotone(clock, now, p.days);
    KeepsPruneAny(contents, H, p.capacity, Max(c, floor), n);
    AboveFloorPruned(contents, c, n, n, floor);
  }

  // ----- writing -----

  lemma DaysReady(p: Settings, files: Files, currentDay: Option<int>, H: Log, t: Trace, kept: Files)
    requires p.days >= 1 && DaysOk(p, files, H) && CurrentOk(currentDay, H)
    requires H != [] ==> H[|H| - 1].timestamp <= t.timestamp
    requires kept == if currentDay == Some(DayOf(t.timestamp)) then files else Pruned(files, t.timestamp, p.days)
    ensures forall d :: d in kept ==> FirstDay(t.timestamp, p.days) <= d <= DayOf(t.timestamp)
  {
  }

  lemma NewestDay(p: Settings, files: Files, H: Log, t: Trace, lines: Log)
    requires p.days >= 1 && forall d :: d in files ==> FirstDay(t.timestamp, p.days) <= d <= DayOf(t.timestamp)
    ensures DaysOk(p, files[DayOf(t.timestamp) := lines], H + [t])
  {
  }

  lemma FilesAppend(files: Files, d: int, t: Trace)
    requires FilesOk(files) && DayOf(t.timestamp) == d
    ensures FilesOk(files[d := Lines(files, d) + [t]])
  {
  }

  /** The directory that the writer appends to holds what it held before, from the cutoff on. */
  lemma DiskReady(p: Settings, files: Files, currentDay: Option<int>, H: Log, t: Trace, cutoff: int)
    returns (kept: Files)
    requires DiskOk(p, files, H, cutoff) && Cutoff(t.timestamp, p.days) <= cutoff
    ensures kept == if currentDay == Some(DayOf(t.timestamp)) then files else Pruned(files, t.timestamp, p.days)
    ensures FilesOk(kept) && Unexpired(OnDisk(kept), cutoff) == Unexpired(H, cutoff)
  {
    if currentDay == Some(DayOf(t.timestamp)) {
      kept := files;
    } else {
      kept := Pruned(files, t.timestamp, p.days);
      PruneOnDisk(files, t.timestamp, p.days);
      UnexpiredTwice(OnDisk(files), Cutoff(t.timestamp, p.days), cutoff);
    }
  }

  lemma DiskRecord(p: Settings, files: Files, currentDay: Option<int>, H: Log, t: Trace, cutoff: int)
    requires p.days >= 1 && DiskOk(p, files, H, cutoff) && CurrentOk(currentDay, H)
    requires Cutoff(t.timestamp, p.days) <= cutoff && (H != [] ==> H[|H| - 1].timestamp <= t.timestamp)
    ensures DiskOk(p, Written(files, currentDay, t, p.days), H + [t], cutoff)
  {
    var d := DayOf(t.timestamp);
    var kept := DiskReady(p, files, currentDay, H, t, cutoff);
    DaysReady(p, files, currentDay, H, t, kept);
    WrittenIs(files, currentDay, t, p.days);
    AppendOnDisk(kept, d, t);
    UnexpiredSnoc(OnDisk(kept), t, cutoff);
    UnexpiredSnoc(H, t, cutoff);
    NewestDay(p, kept, H, t, Lines(kept, d) + [t]);
    FilesAppend(kept, d, t);
  }

  // ----- restarting -----

  lemma {:induction false} ReadableAll(s: Log)
    requires forall i :: 0 <= i < |s| ==> s[i].timestamp != 0
    ensures Readable(s) == s
  {
    if s != [] {
      ReadableAll(s[..|s| - 1]);
    }
  }

  lemma ChronologicalTail(s: Log, k: nat)
    requires Chronological(s) && k <= |s|
    ensures Chronological(s[k..])
  {
  }

  lemma ChronologicalEnd(s: Log, n: nat)
    requires Chronological(s)
    ensures Chronological(LastN(s, n))
  {
    if |s| > n {
      ChronologicalTail(s, |s| - n);
    }
  }

  /** Reading such a log back through a window and sorting it leaves its end as it is. */
  lemma LoadsTheEnd(s: Log, capacity: nat)
    requires Chronological(s) && forall i :: 0 <= i < |s| ==> s[i].timestamp != 0
    ensures StableSorted(LastN(Readable(s), capacity)) == LastN(s, capacity)
    ensures Chronological(LastN(s, capacity))
  {
    ReadableAll(s);
    ChronologicalEnd(s, capacity);
    SortedStaysPut(LastN(s, capacity));
  }

  lemma UnexpiredOfHistory(H: Log, cutoff: int)
    requires Chronological(H) && Timed(H)
    ensures Chronological(Unexpired(H, cutoff))
    ensures forall i :: 0 <= i < |Unexpired(H, cutoff)| ==> Unexpired(H, cutoff)[i].timestamp != 0
  {
    UnexpiredIsTail(H, cutoff);
    ChronologicalTail(H, ExpiredCount(H, cutoff));
  }

  /** The files of expired days are gone already. */
  lemma OnDiskIsRecent(p: Settings, files: Files, H: Log)
    requires FilesOk(files) && DaysOk(p, files, H) && H != []
    ensures Unexpired(OnDisk(files), LastCutoff(p, H)) == OnDisk(files)
  {
    var t := H[|H| - 1];
    PruneOnDisk(files, t.timestamp, p.days);
    PrunedIs(files, files, t.timestamp, p.days);
  }

  /** Pruning the files at the clock leaves the history from the horizon on. */
  lemma DiskFromHorizon(p: Settings, files: Files, H: Log, now: int)
    requires DiskOk(p, files, H, Horizon(p, H, now))
    ensures OnDisk(Pruned(files, now, p.days)) == Unexpired(H, Horizon(p, H, now))
  {
    PruneOnDisk(files, now, p.days);
    if H != [] {
      OnDiskIsRecent(p, files, H);
      UnexpiredMax(OnDisk(files), LastCutoff(p, H), Cutoff(now, p.days));
    }
  }

  /** Loading the pruned directory yields the newest traces of the history from the horizon on. */
  lemma RestartLoads(p: Settings, files: Files, H: Log, now: int)
    requires DiskOk(p, files, H, Horizon(p, H, now)) && Chronological(H) && Timed(H)
    ensures Loaded(Pruned(files, now, p.days), p.capacity) == LastN(Unexpired(H, Horizon(p, H, now)), p.capacity)
    ensures Chronological(Loaded(Pruned(files, now, p.days), p.capacity))
  {
    DiskFromHorizon(p, files, H, now);
    UnexpiredOfHistory(H, Horizon(p, H, now));
    LoadsTheEnd(Unexpired(H, Horizon(p, H, now)), p.capacity);
  }

  lemma DiskRestart(p: Settings, files: Files, H: Log, now: int)
    requires DiskOk(p, files, H, Horizon(p, H, now))
    ensures DiskOk(p, Pruned(files, now, p.days), H, Horizon(p, H, now))
  {
    DiskFromHorizon(p, files, H, now);
    UnexpiredMax(H, Horizon(p, H, now), Horizon(p, H, now));
  }

  lemma RestoredAlone(loaded: Log, capacity: nat)
    requires Chronological(loaded) && |loaded| <= capacity
    ensures LastN(StableSorted(loaded + []), capacity) == loaded
  {
    assert loaded + [] == loaded;
    SortedStaysPut(loaded);
  }

  lemma RestartedWith(p: Settings, s: Session, now: int, kept: Log)
    requires Loaded(Pruned(s.files, now, p.days), p.capacity) == kept
    requires LastN(StableSorted(kept + []), p.capacity) == kept
    ensures Step(p, s, Restart(now)) == Session(kept, MaxId(kept, 0), Pruned(s.files, now, p.days), None)
  {
  }

  /** What a restarted store holds, whether or not it found any traces. */
  lemma RestartedContents(p: Settings, s: Session, H: Log, now: int)
    requires DiskOk(p, s.files, H, Horizon(p, H, now)) && Chronological(H) && Timed(H)
    ensures var kept := LastN(Unexpired(H, Horizon(p, H, now)), p.capacity);
            Step(p, s, Restart(now)) == Session(kept, MaxId(kept, 0), Pruned(s.files, now, p.days), None)
  {
    var kept := LastN(Unexpired(H, Horizon(p, H, now)), p.capacity);
    RestartLoads(p, s.files, H, now);
    RestoredAlone(kept, p.capacity);
    RestartedWith(p, s, now, kept);
  }

  /** The loaded traces are all from the horizon on, so above every floor. */
  lemma MemoryRestart(p: Settings, H: Log, now: int, floor: int)
    requires Chronological(H) && floor <= Horizon(p, H, now)
    ensures var cut := Horizon(p, H, now);
            var floor' := if H == [] then floor else Max(floor, LastCutoff(p, H));
            floor' <= cut && MemoryOk(p, LastN(Unexpired(H, cut), p.capacity), H, now, floor')
  {
    var cut := Horizon(p, H, now);
    KeepsRestored(H, p.capacity, cut);
    UnexpiredMembers(H, cut);
    forall t | t in LastN(Unexpired(H, cut), p.capacity)
      ensures t.timestamp >= cut
    {
      assert t in Unexpired(H, cut);
    }
  }

  // ----- every run -----

  ghost predicate HistoryOk(p: Settings, w: World) {
    Chronological(w.history) && Timed(w.history) && w.floor <= Horizon(p, w.history, w.clock)
  }

  ghost predicate Inv(p: Settings, w: World) {
    HistoryOk(p, w) && MemoryOk(p, w.session.contents, w.history, w.clock, w.floor) &&
    DiskOk(p, w.session.files, w.history, Horizon(p, w.history, w.clock)) && CurrentOk(w.session.currentDay, w.history)
  }

  lemma AdvanceRecord(p: Settings, w: World, op: Op, t: Trace)
    requires op.Record? && t == Stamped(op.trace, w.session.nextID + 1, op.stamp)
    ensures var s, r := w.session, Advance(p, w, op);
            r.session.contents == LastN(Unexpired(s.contents, Cutoff(op.now, p.days)) + [t], p.capacity) &&
            r.session.files == Written(s.files, s.currentDay, t, p.days) &&
            r.session.currentDay == Some(DayOf(t.timestamp)) && r.floor == w.floor &&
            r.history == w.history + [t] && r.clock == op.stamp && t.timestamp == TimeOf(op) &&
            r.session.nextID == s.nextID + 1 && t.id == TraceId.IdOf(s.nextID + 1)
  {
  }

  lemma HistoryAdvance(p: Settings, w: World, op: Op, r: World)
    requires op.Record? && Follows(op, w.history, w.clock) && r == Advance(p, w, op) && HistoryOk(p, w)
    ensures HistoryOk(p, r) && CurrentOk(r.session.currentDay, r.history)
  {
    var t := Stamped(op.trace, w.session.nextID + 1, op.stamp);
    AdvanceRecord(p, w, op, t);
    ChronologicalSnoc(w.history, t);
    TimedSnoc(w.history, t);
    HorizonRecord(p, w.history, t, w.clock, op.stamp);
  }

  lemma MemoryAdvance(p: Settings, w: World, op: Op, r: World)
    requires p.capacity > 0 && p.days >= 1 && op.Record? && Follows(op, w.history, w.clock) && r == Advance(p, w, op)
    requires HistoryOk(p, w) && MemoryOk(p, w.session.contents, w.history, w.clock, w.floor)
    ensures MemoryOk(p, r.session.contents, r.history, r.clock, r.floor)
  {
    var t := Stamped(op.trace, w.session.nextID + 1, op.stamp);
    AdvanceRecord(p, w, op, t);
    MemoryRecord(p, w.session.contents, w.history, w.clock, w.floor, op, t);
  }

  lemma DiskAdvance(p: Settings, w: World, op: Op, r: World)
    requires p.days >= 1 && op.Record? && Follows(op, w.history, w.clock) && r == Advance(p, w, op)
    requires DiskOk(p, w.session.files, w.history, Horizon(p, w.history, w.clock))
    requires CurrentOk(w.session.currentDay, w.history)
    ensures DiskOk(p, r.session.files, r.history, Horizon(p, r.history, r.clock))
  {
    var t := Stamped(op.trace, w.session.nextID + 1, op.stamp);
    AdvanceRecord(p, w, op, t);
    HorizonRecord(p, w.history, t, w.clock, op.stamp);
    var cut := Horizon(p, w.history + [t], op.stamp);
    DiskLater(p, w.session.files, w.history, Horizon(p, w.history, w.clock), cut);
    DiskRecord(p, w.session.files, w.session.currentDay, w.history, t, cut);
  }

  lemma InvRecord(p: Settings, w: World, op: Op)
    requires p.capacity > 0 && p.days >= 1 && op.Record? && Follows(op, w.history, w.clock) && Inv(p, w)
    ensures Inv(p, Advance(p, w, op))
  {
    HistoryAdvance(p, w, op, Advance(p, w, op));
    MemoryAdvance(p, w, op, Advance(p, w, op));
    DiskAdvance(p, w, op, Advance(p, w, op));
  }

  lemma InvLook(p: Settings, w: World, now: int)
    requires w.clock <= now && Inv(p, w)
    ensures Inv(p, Advance(p, w, Look(now)))
  {
    MemoryLater(p, w.session.contents, w.history, w.clock, w.floor, now);
    HorizonLater(p, w.history, w.clock, now);
    DiskLater(p, w.session.files, w.history, Horizon(p, w.history, w.clock), Horizon(p, w.history, now));
    assert w.history + [] == w.history;
  }

  lemma AdvanceRestart(p: Settings, w: World, now: int)
    requires w.clock <= now && Inv(p, w)
    ensures var r := Advance(p, w, Restart(now));
            r.session.contents == LastN(Unexpired(w.history, Horizon(p, w.history, now)), p.capacity) &&
            r.session.nextID == MaxId(r.session.contents, 0) && r.session.currentDay == None &&
            r.session.files == Pruned(w.session.files, now, p.days) && r.history == w.history && r.clock == now &&
            r.floor == if w.history == [] then w.floor else Max(w.floor, LastCutoff(p, w.history))
    ensures DiskOk(p, w.session.files, w.history, Horizon(p, w.history, now))
  {
    HorizonLater(p, w.history, w.clock, now);
    DiskLater(p, w.session.files, w.history, Horizon(p, w.history, w.clock), Horizon(p, w.history, now));
    RestartedContents(p, w.session, w.history, now);
    assert w.history + [] == w.history;
  }

  lemma InvRestart(p: Settings, w: World, now: int)
    requires w.clock <= now && Inv(p, w)
    ensures Inv(p, Advance(p, w, Restart(now)))
  {
    AdvanceRestart(p, w, now);
    HorizonLater(p, w.history, w.clock, now);
    DiskRestart(p, w.session.files, w.history, now);
    MemoryRestart(p, w.history, now, w.floor);
  }

  lemma InvStep(p: Settings, w: World, op: Op)
    requires p.capacity > 0 && p.days >= 1 && Follows(op, w.history, w.clock) && Inv(p, w)
    ensures Inv(p, Advance(p, w, op))
  {
    match op
    case Record(_, _, _) => InvRecord(p, w, op);
    case Look(now) => InvLook(p, w, now);
    case Restart(now) => InvRestart(p, w, now);
  }

  lemma NothingOnDisk()
    ensures OnDisk(map[]) == []
  {
    var files: Files := map[];
    DaysAreOrdered(files.Keys);
    EmptyHasNoElements(DaysOf(files));
  }

  lemma InvFresh(p: Settings, start: int)
    ensures Inv(p, World(FRESH, [], start, Cutoff(start, p.days)))
  {
    NothingOnDisk();
  }

  lemma {:induction false} InvRun(p: Settings, ops: seq<Op>, start: int)
    requires p.capacity > 0 && p.days >= 1 && Orderly(p, ops, start)
    ensures Inv(p, Run(p, ops, start))
  {
    if ops == [] {
      InvFresh(p, start);
    } else {
      InvRun(p, ops[..|ops| - 1], start);
      InvStep(p, Run(p, ops[..|ops| - 1], start), ops[|ops| - 1]);
    }
  }

  // ----- what is shown -----

  /** What the store shows at a moment. */
  ghost function Shown(p: Settings, w: World, now: int): Log {
    Unexpired(w.session.contents, Cutoff(now, p.days))
  }

  lemma AboveFloorShown(contents: Log, cutoff: int, floor: int, now: int)
    requires AboveFloor(contents, cutoff, floor) && cutoff <= now
    ensures Unexpired(contents, now) == Unexpired(contents, Max(now, floor))
  {
    UnexpiredMembers(contents, now);
    UnexpiredSame(Unexpired(contents, now), floor);
    UnexpiredMax(contents, now, floor);
  }

  lemma InvShows(p: Settings, w: World, now: int)
    requires Inv(p, w) && w.clock <= now
    ensures Shown(p, w, now) == LastN(Unexpired(w.history, Max(Cutoff(now, p.days), w.floor)), p.capacity)
  {
    var c, n := Cutoff(w.clock, p.days), Cutoff(now, p.days);
    CutoffMonotone(w.clock, now, p.days);
    AboveFloorShown(w.session.contents, c, w.floor, n);
    KeepsPrune(w.session.contents, w.history, p.capacity, Max(c, w.floor), Max(n, w.floor));
  }

  /** After any run of records, looks and restarts, the store shows exactly the last `capacity` of
      all traces ever recorded that are neither expired nor below the floor, in order. */
  lemma ShowsTheNewest(p: Settings, ops: seq<Op>, start: int, now: int)
    requires p.capacity > 0 && p.days >= 1 && Orderly(p, ops, start) && Run(p, ops, start).clock <= now
    ensures var w := Run(p, ops, start);
            Shown(p, w, now) == LastN(Unexpired(w.history, Max(Cutoff(now, p.days), w.floor)), p.capacity)
  {
    InvRun(p, ops, start);
    InvShows(p, Run(p, ops, start), now);
  }

  /** Without restarts the floor never exceeds the clock's cutoff: the bounded log shows the last
      `capacity` of all unexpired traces, whatever their dates. */
  lemma {:induction false} NoRestartNoFloor(p: Settings, ops: seq<Op>, start: int)
    requires Orderly(p, ops, start) && forall i :: 0 <= i < |ops| ==> !ops[i].Restart?
    ensures Run(p, ops, start).floor == Cutoff(start, p.days) <= Cutoff(Run(p, ops, start).clock, p.days)
  {
    if ops != [] {
      NoRestartNoFloor(p, ops[..|ops| - 1], start);
      CutoffMonotone(Run(p, ops[..|ops| - 1], start).clock, Run(p, ops, start).clock, p.days);
    }
  }

  lemma BoundedLog(p: Settings, ops: seq<Op>, start: int, now: int)
    requires p.capacity > 0 && p.days >= 1 && Orderly(p, ops, start) && Run(p, ops, start).clock <= now
    requires forall i :: 0 <= i < |ops| ==> !ops[i].Restart?
    ensures Shown(p, Run(p, ops, start), now)
         == LastN(Unexpired(Run(p, ops, start).history, Cutoff(now, p.days)), p.capacity)
  {
    ShowsTheNewest(p, ops, start, now);
    NoRestartNoFloor(p, ops, start);
    CutoffMonotone(Run(p, ops, start).clock, now, p.days);
  }

  /** No record is dated on a later day than the clock. */
  ghost predicate OnTime(ops: seq<Op>) {
    forall i :: 0 <= i < |ops| && ops[i].Record? ==> DayOf(TimeOf(ops[i])) <= DayOf(ops[i].stamp)
  }

  lemma {:induction false} OnTimeNoFloor(p: Settings, ops: seq<Op>, start: int)
    requires Orderly(p, ops, start) && OnTime(ops)
    ensures var w := Run(p, ops, start);
            w.floor <= Cutoff(w.clock, p.days) &&
            (w.history != [] ==> LastCutoff(p, w.history) <= Cutoff(w.clock, p.days))
  {
    if ops != [] {
      var front, op := ops[..|ops| - 1], ops[|ops| - 1];
      OnTimeNoFloor(p, front, start);
      CutoffMonotone(Run(p, front, start).clock, Reading(op), p.days);
    }
  }

  // ----- what a restart changes -----

  lemma RestartShowsFrom(p: Settings, w: World, restart: int, now: int)
    requires Inv(p, w) && w.clock <= restart <= now && w.history != []
    ensures Shown(p, Advance(p, w, Restart(restart)), now) == Unexpired(Shown(p, w, now), LastCutoff(p, w.history))
  {
    var last, n := LastCutoff(p, w.history), Cutoff(now, p.days);
    InvRestart(p, w, restart);
    AdvanceRestart(p, w, restart);
    InvShows(p, Advance(p, w, Restart(restart)), now);
    CutoffMonotone(w.clock, now, p.days);
    UnexpiredMax(w.session.contents, n, last);
    KeepsPrune(w.session.contents, w.history, p.capacity, Max(Cutoff(w.clock, p.days), w.floor), Max(n, last));
  }

  /** Closing and reopening the store at any moment removes from what it shows, then and at every
      later time, exactly the traces older than the cutoff of the last record. */
  lemma RestartShows(p: Settings, ops: seq<Op>, start: int, restart: int, now: int)
    requires p.capacity > 0 && p.days >= 1 && Orderly(p, ops, start) && Run(p, ops, start).clock <= restart <= now
    ensures var w, r := Run(p, ops, start), Run(p, ops + [Restart(restart)], start);
            Shown(p, r, now) == if w.history == [] then [] else Unexpired(Shown(p, w, now), LastCutoff(p, w.history))
  {
    var w := Run(p, ops, start);
    InvRun(p, ops, start);
    RunSnoc(p, ops, Restart(restart), start);
    if w.history == [] {
      InvRestart(p, w, restart);
      AdvanceRestart(p, w, restart);
      InvShows(p, Advance(p, w, Restart(restart)), now);
    } else {
      RestartShowsFrom(p, w, restart, now);
    }
  }

  /** So a restart cannot be seen exactly when no trace that is shown is older than that cutoff. */
  lemma RestartIsInvisibleIff(p: Settings, ops: seq<Op>, start: int, restart: int, now: int)
    requires p.capacity > 0 && p.days >= 1 && Orderly(p, ops, start) && Run(p, ops, start).clock <= restart <= now
    ensures var w, r := Run(p, ops, start), Run(p, ops + [Restart(restart)], start);
            Shown(p, r, now) == Shown(p, w, now) <==>
            (w.history != [] ==> forall t :: t in Shown(p, w, now) ==> t.timestamp >= LastCutoff(p, w.history))
  {
    var w := Run(p, ops, start);
    RestartShows(p, ops, start, restart, now);
    InvRun(p, ops, start);
    InvShows(p, w, now);
    if w.history != [] {
      UnexpiredSame(Shown(p, w, now), LastCutoff(p, w.history));
    }
  }

  /** In particular a restart is invisible if no record was dated on a later day than the clock. */
  lemma RestartIsInvisible(p: Settings, ops: seq<Op>, start: int, restart: int, now: int)
    requires p.capacity > 0 && p.days >= 1 && Orderly(p, ops, start) && Run(p, ops, start).clock <= restart <= now
    requires OnTime(ops)
    ensures Shown(p, Run(p, ops + [Restart(restart)], start), now) == Shown(p, Run(p, ops, start), now)
  {
    var w := Run(p, ops, start);
    OnTimeNoFloor(p, ops, start);
    CutoffMonotone(w.clock, now, p.days);
    UnexpiredMembers(w.session.contents, Cutoff(now, p.days));
    RestartIsInvisibleIff(p, ops, start, restart, now);
  }

  // ----- identifiers -----

  function Num(t: Trace): int {
    TraceId.ParseTraceId(t.id)
  }

  /** The numbers increase along the log, up to `max`. */
  ghost predicate Numbered(s: Log, max: int) {
    (forall i :: 0 <= i < |s| ==> 1 <= Num(s[i]) <= max) &&
    (forall i, j :: 0 <= i < j < |s| ==> Num(s[i]) < Num(s[j]))
  }

  /** What is unexpired is numbered, up to the counter, which counts at most one per record. */
  ghost predicate IdsOk(p: Settings, nextID: int, H: Log, clock: int) {
    0 <= nextID <= |H| && Numbered(Unexpired(H, Cutoff(clock, p.days)), nextID)
  }

  lemma NumberedTail(s: Log, k: nat, max: int)
    requires Numbered(s, max) && k <= |s|
    ensures Numbered(s[k..], max)
  {
  }

  lemma TailsNest(H: Log, cutoff: int, later: int) returns (k: nat)
    requires Chronological(H) && cutoff <= later
    ensures k <= |Unexpired(H, cutoff)| && Unexpired(H, later) == Unexpired(H, cutoff)[k..]
  {
    var i, j := ExpiredCount(H, cutoff), ExpiredCount(H, later);
    UnexpiredIsTail(H, cutoff);
    UnexpiredIsTail(H, later);
    assert i <= j;
    k := j - i;
  }

  lemma IdsLater(p: Settings, nextID: int, H: Log, clock: int, now: int)
    requires Chronological(H) && IdsOk(p, nextID, H, clock) && clock <= now
    ensures IdsOk(p, nextID, H, now)
  {
    CutoffMonotone(clock, now, p.days);
    var k := TailsNest(H, Cutoff(clock, p.days), Cutoff(now, p.days));
    NumberedTail(Unexpired(H, Cutoff(clock, p.days)), k, nextID);
  }

  lemma NumberedSnoc(s: Log, max: nat, t: Trace)
    requires Numbered(s, max) && Num(t) == max + 1
    ensures Numbered(s + [t], max + 1) && Numbered(s, max + 1)
  {
  }

  lemma IdsRecord(p: Settings, nextID: nat, H: Log, now: int, t: Trace)
    requires IdsOk(p, nextID, H, now) && |H| < TraceId.MAX_INT64 && t.id == TraceId.IdOf(nextID + 1)
    ensures IdsOk(p, nextID + 1, H + [t], now)
  {
    TraceId.RoundTrip(nextID + 1);
    UnexpiredSnoc(H, t, Cutoff(now, p.days));
    NumberedSnoc(Unexpired(H, Cutoff(now, p.days)), nextID, t);
    assert Unexpired(H, Cutoff(now, p.days)) + [] == Unexpired(H, Cutoff(now, p.days));
  }

  lemma {:induction false} MaxIdIsLast(s: Log, max: int)
    requires Numbered(s, max)
    ensures MaxId(s, 0) == if s == [] then 0 else Num(s[|s| - 1])
  {
    if s != [] {
      var front := s[..|s| - 1];
      assert forall i :: 0 <= i < |front| ==> front[i] == s[i];
      MaxIdIsLast(front, max);
      assert front != [] ==> Num(s[|s| - 2]) < Num(s[|s| - 1]);
    }
  }

  lemma LastOfLastN(s: Log, n: nat)
    requires n > 0 && s != []
    ensures LastN(s, n) != [] && LastN(s, n)[|LastN(s, n)| - 1] == s[|s| - 1]
  {
  }

  lemma NumberedUpToLast(s: Log, max: int)
    requires Numbered(s, max) && s != []
    ensures 1 <= Num(s[|s| - 1]) <= max && Numbered(s, Num(s[|s| - 1]))
  {
  }

  /** The counter restarts at the largest identifier loaded, which bounds all of the log. */
  lemma RestartedCounter(s: Log, k: nat, max: nat, capacity: nat)
    requires capacity > 0 && Numbered(s, max) && k < |s|
    ensures 0 <= MaxId(LastN(s[k..], capacity), 0) <= max && Numbered(s, MaxId(LastN(s[k..], capacity), 0))
  {
    var tail := s[k..];
    var kept := LastN(tail, capacity);
    NumberedTail(s, k, max);
    if |tail| > capacity {
      NumberedTail(tail, |tail| - capacity, max);
    }
    MaxIdIsLast(kept, max);
    LastOfLastN(tail, capacity);
    NumberedUpToLast(s, max);
  }

  /** If nothing is loaded although there is a history, then all of it has expired. */
  lemma NothingLoaded(p: Settings, H: Log, now: int)
    requires Chronological(H) && p.days >= 1 && Unexpired(H, Horizon(p, H, now)) == []
    ensures Unexpired(H, Cutoff(now, p.days)) == []
  {
    if H != [] {
      var last := H[|H| - 1];
      CutoffIsPast(last.timestamp, p.days);
      UnexpiredSnoc(H[..|H| - 1], last, Horizon(p, H, now));
      assert H == H[..|H| - 1] + [last];
      forall i | 0 <= i < |H|
        ensures H[i].timestamp < Cutoff(now, p.days)
      {
        assert H[i].timestamp <= last.timestamp;
      }
      UnexpiredNone(H, Cutoff(now, p.days));
    }
  }

  lemma IdsRestarted(p: Settings, w: World, now: int)
    requires p.capacity > 0 && p.days >= 1 && w.clock <= now && Inv(p, w)
    requires IdsOk(p, w.session.nextID, w.history, now)
    ensures IdsOk(p, Advance(p, w, Restart(now)).session.nextID, w.history, now)
  {
    var H, c, cut := w.history, Cutoff(now, p.days), Horizon(p, w.history, now);
    AdvanceRestart(p, w, now);
    var k := TailsNest(H, c, cut);
    if Unexpired(H, cut) == [] {
      NothingLoaded(p, H, now);
    } else {
      RestartedCounter(Unexpired(H, c), k, w.session.nextID, p.capacity);
    }
  }

  lemma IdsRecorded(p: Settings, w: World, op: Op, r: World)
    requires op.Record? && IdsOk(p, w.session.nextID, w.history, op.stamp) && |w.history| < TraceId.MAX_INT64
    requires r == Advance(p, w, op)
    ensures IdsOk(p, r.session.nextID, r.history, op.stamp)
  {
    var t := Stamped(op.trace, w.session.nextID + 1, op.stamp);
    AdvanceRecord(p, w, op, t);
    IdsRecord(p, w.session.nextID, w.history, op.stamp, t);
  }

  lemma IdsStep(p: Settings, w: World, op: Op, r: World)
    requires p.capacity > 0 && p.days >= 1 && Follows(op, w.history, w.clock) && Inv(p, w) && r == Advance(p, w, op)
    requires IdsOk(p, w.session.nextID, w.history, w.clock) && |w.history| < TraceId.MAX_INT64
    ensures IdsOk(p, r.session.nextID, r.history, r.clock)
  {
    IdsLater(p, w.session.nextID, w.history, w.clock, Reading(op));
    match op
    case Record(_, _, _) =>
      IdsRecorded(p, w, op, r);
    case Look(now) =>
      assert r.history == w.history;
    case Restart(now) =>
      assert r.history == w.history;
      IdsRestarted(p, w, now);
  }

  /** The numbering of a whole run. */
  ghost predicate IdsInv(p: Settings, w: World) {
    Inv(p, w) && IdsOk(p, w.session.nextID, w.history, w.clock)
  }

  lemma IdsAdvance(p: Settings, w: World, op: Op)
    requires p.capacity > 0 && p.days >= 1 && Follows(op, w.history, w.clock) && IdsInv(p, w)
    requires |w.history| < TraceId.MAX_INT64
    ensures IdsInv(p, Advance(p, w, op)) && |Advance(p, w, op).history| <= |w.history| + 1
  {
    InvStep(p, w, op);
    IdsStep(p, w, op, Advance(p, w, op));
  }

  lemma {:induction false} IdsRun(p: Settings, ops: seq<Op>, start: int)
    requires p.capacity > 0 && p.days >= 1 && Orderly(p, ops, start) && |ops| <= TraceId.MAX_INT64
    ensures IdsInv(p, Run(p, ops, start)) && |Run(p, ops, start).history| <= |ops|
  {
    if ops == [] {
      InvFresh(p, start);
    } else {
      IdsRun(p, ops[..|ops| - 1], start);
      IdsAdvance(p, Run(p, ops[..|ops| - 1], start), ops[|ops| - 1]);
    }
  }

  lemma NumberedIdsDiffer(s: Log, max: int)
    requires Numbered(s, max)
    ensures forall i, j :: 0 <= i < j < |s| ==> s[i].id != s[j].id
  {
    forall i, j | 0 <= i < j < |s|
      ensures s[i].id != s[j].id
    {
      assert Num(s[i]) < Num(s[j]);
    }
  }

  lemma NumberedEnd(s: Log, max: int, n: nat)
    requires Numbered(s, max)
    ensures Numbered(LastN(s, n), max)
  {
    if |s| > n {
      NumberedTail(s, |s| - n, max);
    }
  }

  /** The traces that a store shows never share an identifier, however often it was restarted. */
  lemma ShownIdsAreDistinct(p: Settings, ops: seq<Op>, start: int, now: int)
    requires p.capacity > 0 && p.days >= 1 && Orderly(p, ops, start) && Run(p, ops, start).clock <= now
    requires |ops| <= TraceId.MAX_INT64
    ensures var shown := Shown(p, Run(p, ops, start), now);
            forall i, j :: 0 <= i < j < |shown| ==> shown[i].id != shown[j].id
  {
    var w := Run(p, ops, start);
    var c, cut := Cutoff(now, p.days), Max(Cutoff(now, p.days), w.floor);
    IdsRun(p, ops, start);
    InvShows(p, w, now);
    IdsLater(p, w.session.nextID, w.history, w.clock, now);
    var k := TailsNest(w.history, c, cut);
    NumberedTail(Unexpired(w.history, c), k, w.session.nextID);
    NumberedEnd(Unexpired(w.history, cut), w.session.nextID, p.capacity);
    NumberedIdsDiffer(Shown(p, w, now), w.session.nextID);
  }

  // ----- traces from the future -----

  lemma {:induction false} UnexpiredLength(s: Log, cutoff: int, later: int)
    requires cutoff <= later
    ensures |Unexpired(s, later)| <= |Unexpired(s, cutoff)|
    ensures |Unexpired(s, later)| == |Unexpired(s, cutoff)|
       <==> forall i :: 0 <= i < |s| ==> !(cutoff <= s[i].timestamp < later)
    ensures |Unexpired(s, later)| == |Unexpired(s, cutoff)| ==> Unexpired(s, later) == Unexpired(s, cutoff)
  {
    if s != [] {
      var front := s[..|s| - 1];
      UnexpiredLength(front, cutoff, later);
      assert forall i :: 0 <= i < |front| ==> front[i] == s[i];
    }
  }

  /** The writer prunes at the time of the trace, not of the clock.  It loses an unexpired trace
      exactly when there is one between the two cutoffs. */
  lemma WriterPruneIsSafeIff(files: Files, written: int, now: int, days: int)
    requires FilesOk(files)
    ensures Unexpired(OnDisk(Pruned(files, written, days)), Cutoff(now, days))
            == Unexpired(OnDisk(files), Cutoff(now, days))
       <==> forall i :: 0 <= i < |OnDisk(files)| ==>
              !(Cutoff(now, days) <= OnDisk(files)[i].timestamp < Cutoff(written, days))
  {
    var s, early, late := OnDisk(files), Cutoff(now, days), Cutoff(written, days);
    PruneOnDisk(files, written, days);
    if late <= early {
      UnexpiredTwice(s, late, early);
    } else {
      UnexpiredEarlier(s, early, late);
      UnexpiredLength(s, early, late);
    }
  }

  const TODAY := Record(NO_TRACE.(timestamp := 1), 1, 1)

  /** A record that is dated when today will have expired. */
  function Future(days: int): Op {
    Record(NO_TRACE.(timestamp := days * DAY), 1, 1)
  }

  lemma OrderlySnoc(p: Settings, ops: seq<Op>, op: Op, start: int)
    requires Orderly(p, ops, start) && Follows(op, Run(p, ops, start).history, Run(p, ops, start).clock)
    ensures Orderly(p, ops + [op], start)
  {
    assert (ops + [op])[..|ops|] == ops;
  }

  /** A run of one more record. */
  lemma RecordSnoc(p: Settings, ops: seq<Op>, op: Op, start: int, w: World, t: Trace)
    requires w == Run(p, ops, start) && Orderly(p, ops, start) && op.Record? && Follows(op, w.history, w.clock)
    requires t == Stamped(op.trace, w.session.nextID + 1, op.stamp)
    ensures var r := Run(p, ops + [op], start);
            Orderly(p, ops + [op], start) && r.history == w.history + [t] && r.clock == op.stamp &&
            r.floor == w.floor && r.session.nextID == w.session.nextID + 1
  {
    RunSnoc(p, ops, op, start);
    OrderlySnoc(p, ops, op, start);
    AdvanceRecord(p, w, op, t);
  }

  lemma FutureRun(p: Settings, x: Op, y: Op, a: Trace, b: Trace)
    requires p.days >= 1 && x == TODAY && y == Future(p.days)
    requires a == Stamped(x.trace, 1, 1) && b == Stamped(y.trace, 2, 1)
    ensures var w := Run(p, [x] + [y], 1);
            Orderly(p, [x] + [y], 1) && w.clock == 1 && w.floor == Cutoff(1, p.days) && w.history == [a] + [b]
  {
    var empty := World(FRESH, [], 1, Cutoff(1, p.days));
    assert Orderly(p, [], 1) && Run(p, [], 1) == empty;
    RecordSnoc(p, [], x, 1, empty, a);
    assert [] + [x] == [x] && [] + [a] == [a];
    RecordSnoc(p, [x], y, 1, Run(p, [x], 1), b);
  }

  lemma FutureCutoffs(days: int)
    requires days >= 1
    ensures Cutoff(1, days) <= 0 && Cutoff(days * DAY, days) == DAY
  {
  }

  lemma TwoShown(p: Settings, ops: seq<Op>, a: Trace, b: Trace)
    requires p.capacity >= 2 && p.days >= 1 && Orderly(p, ops, 1) && a.timestamp == 1 && b.timestamp == p.days * DAY
    requires var w := Run(p, ops, 1); w.clock == 1 && w.floor == Cutoff(1, p.days) && w.history == [a] + [b]
    ensures Shown(p, Run(p, ops, 1), 1) == [a] + [b]
  {
    FutureCutoffs(p.days);
    ShowsTheNewest(p, ops, 1, 1);
    UnexpiredAll([a] + [b], Cutoff(1, p.days));
  }

  lemma LosesFirst(a: Trace, b: Trace, cutoff: int)
    requires a.timestamp < cutoff <= b.timestamp
    ensures Unexpired([a] + [b], cutoff) == [b]
  {
    UnexpiredSnoc([a], b, cutoff);
    UnexpiredNone([a], cutoff);
    assert [] + [b] == [b];
  }

  lemma TwoAfterRestart(p: Settings, ops: seq<Op>, a: Trace, b: Trace)
    requires p.capacity >= 2 && p.days >= 1 && Orderly(p, ops, 1) && a.timestamp == 1 && b.timestamp == p.days * DAY
    requires var w := Run(p, ops, 1); w.clock == 1 && w.floor == Cutoff(1, p.days) && w.history == [a] + [b]
    ensures Shown(p, Run(p, ops + [Restart(1)], 1), 1) == [b]
  {
    FutureCutoffs(p.days);
    TwoShown(p, ops, a, b);
    RestartShows(p, ops, 1, 1, 1);
    LosesFirst(a, b, DAY);
  }

  /** It happens for every retention, in any log of two traces or more: after a record of today and
      one that is dated `days` days later, a restart loses the first one. */
  lemma FutureTraceBreaksRestart(p: Settings, ops: seq<Op>)
    requires p.capacity >= 2 && p.days >= 1 && ops == [TODAY] + [Future(p.days)]
    ensures Orderly(p, ops, 1)
    ensures |Shown(p, Run(p, ops, 1), 1)| == 2 && |Shown(p, Run(p, ops + [Restart(1)], 1), 1)| == 1
  {
    var a, b := Stamped(TODAY.trace, 1, 1), Stamped(Future(p.days).trace, 2, 1);
    FutureRun(p, TODAY, Future(p.days), a, b);
    TwoShown(p, ops, a, b);
    TwoAfterRestart(p, ops, a, b);
  }

  // ----- the store and its files together -----

  /** A store with persistence enabled.  The writer has caught up after every call. */
  class PersistentStore {
    const store: Store
    const disk: TraceFiles

    ghost predicate Valid()
      reads this, store, store.window, disk
    {
      store.Valid() && disk.Valid() && disk.retentionDays == store.retentionDays
    }

    ghost function Config(): Settings
      reads store
    {
      Settings(store.window.capacity, store.retentionDays)
    }

    ghost function View(): Session
      reads this, store, store.window, store.window.buf, disk
      requires Valid()
    {
      Session(store.Contents(), store.nextID, disk.files, disk.currentDay)
    }

    /** A new store on the directory that an earlier session left behind. */
    constructor (capacity: int, days: int, now: int, files: Files, ghost before: Session)
      requires days >= 1 && before.files == files
      ensures Valid() && Config() == Settings(if capacity <= 0 then 1000 else capacity, days)
      ensures View() == Step(Config(), before, Restart(now))
      ensures fresh(store) && fresh(store.window) && fresh(store.window.buf) && fresh(disk)
    {
      var st := new Store(capacity, days, now);
      var di := new TraceFiles(files, days, now);
      var loaded := di.LoadRecent(st.window.capacity);
      st.Restore(loaded);
      store, disk := st, di;
    }

    method Record(trace: Trace, now: int, stamp: int) returns (recorded: Trace)
      requires Valid()
      modifies store, store.window, store.window.buf, disk
      ensures Valid() && Config() == old(Config())
      ensures View() == Step(Config(), old(View()), Op.Record(trace, now, stamp))
      ensures [recorded] == Added(old(View()), Op.Record(trace, now, stamp))
    {
      recorded := store.Record(trace, now, stamp);
      disk.WriteTrace(recorded);
    }

    method Recent(limit: int, now: int) returns (traces: Log)
      requires Valid()
      modifies store.window, store.window.buf
      ensures Valid() && Config() == old(Config())
      ensures View() == Step(Config(), old(View()), Look(now))
      ensures limit <= 0 ==> |traces| == |View().contents| &&
                             forall i :: 0 <= i < |traces| ==> traces[i] == View().contents[|traces| - 1 - i]
    {
      traces := store.Recent(limit, now);
    }
  }
}
