/** How many failures of one address the login limiter lets through in one window
    (internal/admin/login_limiter.go).

    The caller asks before it checks a password and records a failure afterwards, so several logins
    of an address may be under way at once.  The theorems give the exact maximum for every setting
    and every number `c` of concurrent logins. */
module LoginRate {
  import opened LoginLimiter
  import opened Products
  import opened Wrappers

  // ----- runs of one address among others -----

  /** The table, the logins of the address that were allowed and have not ended, the times of the
      failures recorded for it, and the last clock reading. */
  datatype Book = Book(table: Table, pending: nat, failures: seq<int>, clock: int)

  /** A login of `ip` that is allowed is pending until its failure is recorded.  At most `c` are: with
      `c` pending, another one can only begin because one of them has been given up. */
  function Advance(p: Params, c: nat, ip: string, b: Book, op: Op): Book {
    var table := Step(p, b.table, op, true);
    if op.ip != ip then Book(table, b.pending, b.failures, op.now)
    else
      match op
      case Ask(_, now) =>
        var more := Reply(b.table, op).allowed && b.pending < c;
        Book(table, if more then b.pending + 1 else b.pending, b.failures, now)
      case Fail(_, now) =>
        Book(table, if b.pending > 0 then b.pending - 1 else 0, b.failures + [now], now)
      case Succeed(_, now) => Book(table, b.pending, b.failures, now)
  }

  function Run(p: Params, c: nat, ip: string, ops: seq<Op>, start: int): Book {
    if ops == [] then Book(map[], 0, [], start)
    else Advance(p, c, ip, Run(p, c, ip, ops[..|ops| - 1], start), ops[|ops| - 1])
  }

  /** The clock does not go back; a failure of `ip` is recorded only for a pending login, and no login
      of `ip` succeeds.  Other addresses are unconstrained. */
  predicate Permitted(ip: string, b: Book, op: Op) {
    b.clock <= op.now && (op.ip == ip ==> !op.Succeed? && (op.Fail? ==> b.pending > 0))
  }

  predicate Guarded(p: Params, c: nat, ip: string, ops: seq<Op>, start: int) {
    ops == [] ||
    (Guarded(p, c, ip, ops[..|ops| - 1], start) &&
     Permitted(ip, Run(p, c, ip, ops[..|ops| - 1], start), ops[|ops| - 1]))
  }

  // ----- what the failures alone determine -----

  /** The index of the first failure of the last group: a group takes the failures within one window
      of its first one. */
  function Start(p: Params, F: seq<int>): (s: nat)
    ensures F != [] ==> s < |F|
  {
    if |F| <= 1 then 0
    else
      var s := Start(p, F[..|F| - 1]);
      if F[|F| - 1] - F[s] > p.window then |F| - 1 else s
  }

  /** The last failure is at least the `maxFailures`-th of its group, so it locks. */
  predicate Locks(p: Params, F: seq<int>) {
    F != [] && |F| - Start(p, F) >= p.maxFailures
  }

  /** When the lock of the last locking failure ends. */
  function LockEnd(p: Params, F: seq<int>): Time {
    if F == [] then Never
    else if Locks(p, F) then At(F[|F| - 1] + p.lockout)
    else LockEnd(p, F[..|F| - 1])
  }

  /** What the limiter's entry must mean at `now` after these failures. */
  function Expected(p: Params, F: seq<int>, now: int): View {
    View(if LockEnd(p, F).After(now) then Some(LockEnd(p, F).t) else None,
         if F == [] || now - F[Start(p, F)] > p.window then None
         else Some((|F| - Start(p, F), F[Start(p, F)])))
  }

  ghost predicate Sorted(F: seq<int>) {
    forall i, j :: 0 <= i <= j < |F| ==> F[i] <= F[j]
  }

  lemma VisibleLater(p: Params, e: Option<Attempt>, F: seq<int>, now: int, later: int)
    requires Visible(p, e, now) == Expected(p, F, now) && now <= later
    ensures Visible(p, e, later) == Expected(p, F, later)
  {
  }

  /** What one operation does to the entry of `ip`. */
  lemma EntryAfterStep(p: Params, m: Table, op: Op, ip: string)
    requires p.Valid() && ip != ""
    ensures var e, e' := Get(m, ip), Get(Step(p, m, op, true), ip);
            if op.ip == ip && op.Fail? then e' == Some(AfterFailure(p, e, op.now))
            else if op.ip == ip && op.Ask? then e' == AfterAllow(p, e, op.now)
            else if op.ip == ip then e' == None
            else e' == e || (e.Some? && Stale(p, e.value, op.now) && e' == None)
  {
  }

  lemma StartSnoc(p: Params, F: seq<int>, now: int)
    ensures Start(p, F + [now]) == if F == [] || now - F[Start(p, F)] > p.window then |F| else Start(p, F)
    ensures LockEnd(p, F + [now]) == if Locks(p, F + [now]) then At(now + p.lockout) else LockEnd(p, F)
  {
    assert (F + [now])[..|F|] == F;
  }

  /** A recorded failure keeps the entry in step, also while it is locked. */
  lemma ExpectedAfterFailure(p: Params, e: Option<Attempt>, F: seq<int>, now: int)
    requires p.Valid() && Visible(p, e, now) == Expected(p, F, now)
    ensures Visible(p, Some(AfterFailure(p, e, now)), now) == Expected(p, F + [now], now)
  {
    StartSnoc(p, F, now);
    var s := Start(p, F + [now]);
    assert (F + [now])[s] == if s == |F| then now else F[s];
  }

  // ----- the invariant -----

  predicate LocksAt(p: Params, F: seq<int>, i: nat)
    requires i < |F|
  {
    Locks(p, F[..i + 1])
  }

  /** When failure `i` locks, fewer than `c` others follow it before its lock ends. */
  ghost predicate Spaced(p: Params, c: nat, F: seq<int>) {
    forall i {:trigger LocksAt(p, F, i)} :: 0 <= i < |F| - c && LocksAt(p, F, i) ==> F[i + c] >= F[i] + p.lockout
  }

  /** While failure `i` still locks, it, the failures since and the pending logins are at most `c`. */
  ghost predicate Room(p: Params, c: nat, F: seq<int>, pending: nat, now: int) {
    forall i {:trigger LocksAt(p, F, i)} ::
      0 <= i < |F| && LocksAt(p, F, i) && F[i] + p.lockout > now ==> |F| - i + pending <= c
  }

  ghost predicate Inv(p: Params, c: nat, ip: string, b: Book) {
    Sorted(b.failures) && (b.failures != [] ==> b.failures[|b.failures| - 1] <= b.clock) && b.pending <= c &&
    Visible(p, Get(b.table, ip), b.clock) == Expected(p, b.failures, b.clock) &&
    Spaced(p, c, b.failures) && Room(p, c, b.failures, b.pending, b.clock)
  }

  /** No failure locks beyond the end of the last lock. */
  lemma {:induction false} LockEndIsLast(p: Params, F: seq<int>, i: nat)
    requires Sorted(F) && i < |F| && LocksAt(p, F, i)
    ensures LockEnd(p, F).At? && F[i] + p.lockout <= LockEnd(p, F).t
  {
    if i == |F| - 1 {
      assert F[..i + 1] == F;
    } else if Locks(p, F) {
      assert F[i] <= F[|F| - 1];
    } else {
      assert F[..|F| - 1][..i + 1] == F[..i + 1];
      LockEndIsLast(p, F[..|F| - 1], i);
    }
  }

  /** Once the last lock is over there is room for any number of logins. */
  lemma NothingLocks(p: Params, c: nat, F: seq<int>, pending: nat, now: int)
    requires Sorted(F) && !LockEnd(p, F).After(now)
    ensures Room(p, c, F, pending, now)
  {
    forall i | 0 <= i < |F| && LocksAt(p, F, i)
      ensures F[i] + p.lockout <= now
    {
      LockEndIsLast(p, F, i);
    }
  }

  lemma LocksAtSnoc(p: Params, F: seq<int>, now: int, i: nat)
    requires i <= |F|
    ensures LocksAt(p, F + [now], i) <==> if i < |F| then LocksAt(p, F, i) else Locks(p, F + [now])
  {
    assert i < |F| ==> (F + [now])[..i + 1] == F[..i + 1];
    assert (F + [now])[..|F| + 1] == F + [now];
  }

  lemma SpacedSnoc(p: Params, c: nat, F: seq<int>, pending: nat, now: int)
    requires Spaced(p, c, F) && Room(p, c, F, pending, now) && 0 < pending <= c
    ensures Spaced(p, c, F + [now])
  {
    var G := F + [now];
    forall i | 0 <= i < |G| - c && LocksAt(p, G, i)
      ensures G[i + c] >= G[i] + p.lockout
    {
      LocksAtSnoc(p, F, now, i);
    }
  }

  lemma RoomSnoc(p: Params, c: nat, F: seq<int>, pending: nat, now: int)
    requires Room(p, c, F, pending, now) && 0 < pending <= c
    ensures Room(p, c, F + [now], pending - 1, now)
  {
    var G := F + [now];
    forall i | 0 <= i < |G| && LocksAt(p, G, i) && G[i] + p.lockout > now
      ensures |G| - i + (pending - 1) <= c
    {
      LocksAtSnoc(p, F, now, i);
    }
  }

  lemma RoomLater(p: Params, c: nat, F: seq<int>, pending: nat, now: int, later: int)
    requires Room(p, c, F, pending, now) && now <= later
    ensures Room(p, c, F, pending, later)
  {
  }

  lemma SortedSnoc(F: seq<int>, now: int)
    requires Sorted(F) && (F != [] ==> F[|F| - 1] <= now)
    ensures Sorted(F + [now])
  {
  }

  lemma InvLater(p: Params, c: nat, ip: string, b: Book, now: int)
    requires Inv(p, c, ip, b) && b.clock <= now
    ensures Inv(p, c, ip, b.(clock := now))
  {
    VisibleLater(p, Get(b.table, ip), b.failures, b.clock, now);
    RoomLater(p, c, b.failures, b.pending, b.clock, now);
  }

  lemma InvFail(p: Params, c: nat, ip: string, b: Book, op: Op)
    requires p.Valid() && ip != "" && Inv(p, c, ip, b) && op == Fail(ip, b.clock) && b.pending > 0
    ensures Inv(p, c, ip, Advance(p, c, ip, b, op))
  {
    EntryAfterStep(p, b.table, op, ip);
    ExpectedAfterFailure(p, Get(b.table, ip), b.failures, b.clock);
    SpacedSnoc(p, c, b.failures, b.pending, b.clock);
    RoomSnoc(p, c, b.failures, b.pending, b.clock);
    SortedSnoc(b.failures, b.clock);
  }

  /** An allowed ask finds no lock, so there is room for the login that begins. */
  lemma InvAsk(p: Params, c: nat, ip: string, b: Book, op: Op)
    requires p.Valid() && ip != "" && Inv(p, c, ip, b) && op == Ask(ip, b.clock)
    ensures Inv(p, c, ip, Advance(p, c, ip, b, op))
  {
    EntryAfterStep(p, b.table, op, ip);
    if Reply(b.table, op).allowed {
      NothingLocks(p, c, b.failures, b.pending + 1, b.clock);
    }
  }

  lemma InvStep(p: Params, c: nat, ip: string, b: Book, op: Op)
    requires p.Valid() && ip != "" && Inv(p, c, ip, b) && Permitted(ip, b, op)
    ensures Inv(p, c, ip, Advance(p, c, ip, b, op))
  {
    var b' := b.(clock := op.now);
    InvLater(p, c, ip, b, op.now);
    assert Advance(p, c, ip, b, op) == Advance(p, c, ip, b', op);
    if op.ip != ip {
      EntryAfterStep(p, b.table, op, ip);
    } else if op.Fail? {
      InvFail(p, c, ip, b', op);
    } else {
      InvAsk(p, c, ip, b', op);
    }
  }

  lemma {:induction false} InvRun(p: Params, c: nat, ip: string, ops: seq<Op>, start: int)
    requires p.Valid() && ip != "" && Guarded(p, c, ip, ops, start)
    ensures Inv(p, c, ip, Run(p, c, ip, ops, start))
  {
    if ops != [] {
      InvRun(p, c, ip, ops[..|ops| - 1], start);
      InvStep(p, c, ip, Run(p, c, ip, ops[..|ops| - 1], start), ops[|ops| - 1]);
    }
  }

  // ----- counting -----

  /** How many of the times lie in [lo, hi]. */
  function CountIn(F: seq<int>, lo: int, hi: int): nat {
    if F == [] then 0
    else CountIn(F[..|F| - 1], lo, hi) + (if lo <= F[|F| - 1] <= hi then 1 else 0)
  }

  /** How many of the failures a..b lock. */
  function LocksIn(p: Params, F: seq<int>, a: nat, b: nat): nat
    requires a <= b <= |F|
    decreases b - a
  {
    if a == b then 0 else (if LocksAt(p, F, a) then 1 else 0) + LocksIn(p, F, a + 1, b)
  }

  /** How many of a..b are marked. */
  function MarkedIn(marked: seq<bool>, a: nat, b: nat): nat
    requires a <= b <= |marked|
    decreases b - a
  {
    if a == b then 0 else (if marked[a] then 1 else 0) + MarkedIn(marked, a + 1, b)
  }

  lemma {:induction false} MarkedInAtMost(marked: seq<bool>, a: nat, m: nat, b: nat)
    requires a <= m <= b <= |marked|
    ensures MarkedIn(marked, a, b) <= (m - a) + MarkedIn(marked, m, b)
    decreases m - a
  {
    if a < m {
      MarkedInAtMost(marked, a + 1, m, b);
    }
  }

  /** A wait that holds a lockout holds one lockout less afterwards. */
  lemma OneLockoutLess(lockout: nat, w: nat, turns: nat)
    requires lockout <= w < Times(turns + 1, lockout)
    ensures turns > 0 && w - lockout < Times(turns, lockout)
  {
    assert Times(1, lockout) == lockout;
  }

  /** Marks that come at most `c` at a time, a lockout apart. */
  lemma {:induction false} FewMarked(F: seq<int>, marked: seq<bool>, lockout: nat, c: nat, a: nat, b: nat, w: nat,
                                     turns: nat)
    requires lockout > 0 && c > 0 && Sorted(F) && |marked| == |F| && a < b <= |F| && F[b - 1] - F[a] <= w
    requires forall i :: 0 <= i < |F| - c && marked[i] ==> F[i + c] >= F[i] + lockout
    requires w < Times(turns + 1, lockout)
    ensures MarkedIn(marked, a, b) <= Times(turns + 1, c)
    decreases b - a
  {
    if a + c >= b {
      MarkedInAtMost(marked, a, b, b);
    } else if !marked[a] {
      FewMarked(F, marked, lockout, c, a + 1, b, w, turns);
    } else {
      assert F[a] + lockout <= F[a + c] <= F[b - 1];
      OneLockoutLess(lockout, w, turns);
      MarkedInAtMost(marked, a, a + c, b);
      FewMarked(F, marked, lockout, c, a + c, b, w - lockout, turns - 1);
    }
  }

  lemma {:induction false} LocksAreMarked(p: Params, F: seq<int>, marked: seq<bool>, a: nat, b: nat)
    requires |marked| == |F| && a <= b <= |F| && forall i :: 0 <= i < |F| ==> marked[i] == LocksAt(p, F, i)
    ensures LocksIn(p, F, a, b) == MarkedIn(marked, a, b)
    decreases b - a
  {
    if a < b {
      LocksAreMarked(p, F, marked, a + 1, b);
    }
  }

  /** Locking failures come at most `c` at a time, a lockout apart. */
  lemma FewLock(p: Params, c: nat, F: seq<int>, a: nat, b: nat, w: nat, turns: nat)
    requires p.Valid() && c > 0 && Sorted(F) && Spaced(p, c, F) && a < b <= |F| && F[b - 1] - F[a] <= w
    requires w < Times(turns + 1, p.lockout)
    ensures LocksIn(p, F, a, b) <= Times(turns + 1, c)
  {
    var marked := seq(|F|, i requires 0 <= i < |F| => LocksAt(p, F, i));
    LocksAreMarked(p, F, marked, a, b);
    FewMarked(F, marked, p.lockout, c, a, b, w, turns);
  }

  // ----- failures that do not lock -----

  function FreeIn(p: Params, F: seq<int>, a: nat, b: nat): int
    requires a <= b <= |F|
  {
    (b - a) - LocksIn(p, F, a, b)
  }

  lemma {:induction false} FreeSplit(p: Params, F: seq<int>, a: nat, m: nat, b: nat)
    requires a <= m <= b <= |F|
    ensures FreeIn(p, F, a, b) == FreeIn(p, F, a, m) + FreeIn(p, F, m, b)
    decreases m - a
  {
    if a < m {
      FreeSplit(p, F, a + 1, m, b);
    }
  }

  function StartAt(p: Params, F: seq<int>, i: nat): nat
    requires i < |F|
  {
    Start(p, F[..i + 1])
  }

  /** From one failure to the next, the group goes on or a new one starts more than a window later. */
  lemma StartNext(p: Params, F: seq<int>, i: nat)
    requires 0 < i < |F|
    ensures var s := StartAt(p, F, i - 1);
            s < i && StartAt(p, F, i) == if F[i] - F[s] > p.window then i else s
  {
    StartSnoc(p, F[..i], F[i]);
    assert F[..i] + [F[i]] == F[..i + 1];
    assert F[..i][Start(p, F[..i])] == F[Start(p, F[..i])];
  }

  /** A group is a run of failures from its start on. */
  lemma {:induction false} GroupIsRun(p: Params, F: seq<int>, i: nat, k: nat)
    requires i < |F| && StartAt(p, F, i) <= k <= i
    ensures StartAt(p, F, i) <= i && StartAt(p, F, k) == StartAt(p, F, i)
    decreases i
  {
    if 0 < i {
      StartNext(p, F, i);
      if k < i {
        GroupIsRun(p, F, i - 1, k);
      }
    }
  }

  /** Of the failures a..b of one group at most the first `maxFailures - 1` do not lock. */
  lemma {:induction false} FreeInGroup(p: Params, F: seq<int>, s: nat, a: nat, b: nat)
    requires p.Valid() && s <= a <= b <= |F| && forall k :: a <= k < b ==> StartAt(p, F, k) == s
    ensures FreeIn(p, F, a, b) <= if s + p.maxFailures - 1 > a then s + p.maxFailures - 1 - a else 0
    decreases b - a
  {
    if a < b {
      FreeInGroup(p, F, s, a + 1, b);
      assert StartAt(p, F, a) == s;
      assert LocksAt(p, F, a) <==> a + 1 - s >= p.maxFailures;
    }
  }

  /** At most this many failures of one window do not lock. */
  function FreeBound(maxFailures: int): int {
    if maxFailures <= 1 then 0 else 2 * maxFailures - 3
  }

  /** The group before one that starts within the window of failure `a` started before `a`. */
  lemma OlderGroup(p: Params, F: seq<int>, a: nat, s: nat)
    requires p.Valid() && Sorted(F) && a < s < |F| && StartAt(p, F, s) == s && F[s] - F[a] <= p.window
    ensures FreeIn(p, F, a, s) <= if p.maxFailures <= 1 then 0 else p.maxFailures - 2
  {
    var q := StartAt(p, F, s - 1);
    StartNext(p, F, s);
    assert q < a by {
      assert F[q] < F[a];
    }
    forall k | a <= k < s
      ensures StartAt(p, F, k) == q
    {
      GroupIsRun(p, F, s - 1, k);
    }
    FreeInGroup(p, F, q, a, s);
  }

  /** One window meets at most two groups, and of the older one not the first failure. */
  lemma FewFree(p: Params, F: seq<int>, a: nat, b: nat)
    requires p.Valid() && Sorted(F) && a < b <= |F| && F[b - 1] - F[a] <= p.window
    ensures FreeIn(p, F, a, b) <= FreeBound(p.maxFailures)
  {
    var s := StartAt(p, F, b - 1);
    GroupIsRun(p, F, b - 1, b - 1);
    var m := if s <= a then a else s;
    forall k | m <= k < b
      ensures StartAt(p, F, k) == s
    {
      GroupIsRun(p, F, b - 1, k);
    }
    FreeInGroup(p, F, s, m, b);
    if s > a {
      assert F[s] <= F[b - 1];
      OlderGroup(p, F, a, s);
      FreeSplit(p, F, a, s, b);
    }
  }

  /** The largest number of failures of one window, with `c` logins at a time. */
  function Limit(p: Params, c: nat): int
    requires p.lockout > 0 && p.window > 0
  {
    FreeBound(p.maxFailures) + Times(p.window / p.lockout + 1, c)
  }

  /** One login at a time, and a lockout longer than the window: at most this many. */
  function Bound(maxFailures: int): int {
    if maxFailures <= 1 then 1 else 2 * maxFailures - 2
  }

  /** Every further login at a time, and every lockout that fits into the window, adds to it. */
  lemma LimitInWords(p: Params, c: nat)
    requires p.Valid() && c > 0
    ensures Limit(p, c) == Bound(p.maxFailures) + (c - 1) + (p.window / p.lockout) * c
  {
    TimesIsProduct(p.window / p.lockout, c);
  }

  lemma WindowTurns(p: Params)
    requires p.Valid()
    ensures p.window < Times(p.window / p.lockout + 1, p.lockout)
  {
    TimesIsProduct(p.window / p.lockout + 1, p.lockout);
  }

  lemma FewInWindow(p: Params, c: nat, F: seq<int>, a: nat, b: nat)
    requires p.Valid() && c > 0 && Sorted(F) && Spaced(p, c, F)
    requires a <= b < |F| && F[b] - F[a] <= p.window
    ensures b - a + 1 <= Limit(p, c)
  {
    var turns := p.window / p.lockout;
    WindowTurns(p);
    FewFree(p, F, a, b + 1);
    FewLock(p, c, F, a, b + 1, p.window, turns);
  }

  lemma FewInAnyWindow(p: Params, c: nat, F: seq<int>, limit: int)
    requires p.Valid() && c > 0 && Sorted(F) && Spaced(p, c, F) && limit == Limit(p, c)
    ensures forall a, b :: 0 <= a <= b < |F| && F[b] - F[a] <= p.window ==> b - a + 1 <= limit
  {
    forall a, b | 0 <= a <= b < |F| && F[b] - F[a] <= p.window
      ensures b - a + 1 <= limit
    {
      FewInWindow(p, c, F, a, b);
    }
  }

  lemma {:induction false} CountInAtMost(F: seq<int>, lo: int, hi: int, a: nat)
    requires a <= |F| && forall i :: 0 <= i < a ==> F[i] < lo
    ensures CountIn(F, lo, hi) <= |F| - a
  {
    if |F| > a {
      CountInAtMost(F[..|F| - 1], lo, hi, a);
    } else if F != [] {
      CountInAtMost(F[..|F| - 1], lo, hi, a - 1);
    }
  }

  lemma {:induction false} CountIsBounded(F: seq<int>, w: int, bound: nat, lo: int)
    requires Sorted(F)
    requires forall a, b :: 0 <= a <= b < |F| && F[b] - F[a] <= w ==> b - a + 1 <= bound
    ensures CountIn(F, lo, lo + w) <= bound
  {
    if F != [] {
      var n := |F|;
      if lo <= F[n - 1] <= lo + w {
        var a := 0;
        while F[a] < lo
          invariant 0 <= a < n && forall i :: 0 <= i < a ==> F[i] < lo
          decreases n - a
        {
          a := a + 1;
        }
        CountInAtMost(F, lo, lo + w, a);
      } else {
        CountIsBounded(F[..n - 1], w, bound, lo);
      }
    }
  }

  lemma SpacedIsBounded(p: Params, c: nat, F: seq<int>, lo: int)
    requires p.Valid() && c > 0 && Sorted(F) && Spaced(p, c, F)
    ensures CountIn(F, lo, lo + p.window) <= Limit(p, c)
  {
    var limit := Limit(p, c);
    FewInAnyWindow(p, c, F, limit);
    CountIsBounded(F, p.window, limit, lo);
  }

  /** The rate bound, for every setting and every number of concurrent logins: whatever the other
      addresses do, no interval as long as the window holds more recorded failures of an address. */
  lemma RateBound(p: Params, c: nat, ip: string, ops: seq<Op>, start: int, lo: int)
    requires p.Valid() && c > 0 && ip != "" && Guarded(p, c, ip, ops, start)
    ensures CountIn(Run(p, c, ip, ops, start).failures, lo, lo + p.window) <= Limit(p, c)
  {
    InvRun(p, c, ip, ops, start);
    SpacedIsBounded(p, c, Run(p, c, ip, ops, start).failures, lo);
  }

  // ----- runs that reach the limit -----

  function Repeat(t: int, n: nat): seq<int> {
    if n == 0 then [] else Repeat(t, n - 1) + [t]
  }

  lemma RepeatSnoc(F: seq<int>, t: int, n: nat)
    requires n > 0
    ensures F + Repeat(t, n) == (F + Repeat(t, n - 1)) + [t]
  {
  }

  /** A guarded run after which no login is pending. */
  predicate Rests(p: Params, c: nat, ip: string, ops: seq<Op>, F: seq<int>, clock: int) {
    Guarded(p, c, ip, ops, -1) &&
    var b := Run(p, c, ip, ops, -1); b.pending == 0 && b.failures == F && b.clock == clock
  }

  lemma RunSnoc(p: Params, c: nat, ip: string, ops: seq<Op>, op: Op)
    ensures Run(p, c, ip, ops + [op], -1) == Advance(p, c, ip, Run(p, c, ip, ops, -1), op)
    ensures Guarded(p, c, ip, ops + [op], -1)
       <==> Guarded(p, c, ip, ops, -1) && Permitted(ip, Run(p, c, ip, ops, -1), op)
  {
    assert (ops + [op])[..|ops|] == ops;
  }

  lemma NoLockAllows(p: Params, c: nat, ip: string, b: Book, t: int)
    requires p.Valid() && Inv(p, c, ip, b) && b.clock <= t && !LockEnd(p, b.failures).After(t)
    ensures Allowed(Get(b.table, ip), t).allowed
  {
    VisibleLater(p, Get(b.table, ip), b.failures, b.clock, t);
  }

  /** `n` logins begin at `t`. */
  lemma {:induction false} Asks(p: Params, c: nat, ip: string, ops: seq<Op>, t: int, n: nat) returns (more: seq<Op>)
    requires p.Valid() && ip != "" && n <= c && Guarded(p, c, ip, ops, -1)
    requires var b := Run(p, c, ip, ops, -1); b.pending == 0 && b.clock <= t && !LockEnd(p, b.failures).After(t)
    ensures Guarded(p, c, ip, more, -1)
    ensures var b, r := Run(p, c, ip, ops, -1), Run(p, c, ip, more, -1);
            r.pending == n && r.failures == b.failures && r.clock == if n == 0 then b.clock else t
  {
    if n == 0 {
      more := ops;
    } else {
      var before := Asks(p, c, ip, ops, t, n - 1);
      InvRun(p, c, ip, before, -1);
      NoLockAllows(p, c, ip, Run(p, c, ip, before, -1), t);
      RunSnoc(p, c, ip, before, Ask(ip, t));
      more := before + [Ask(ip, t)];
    }
  }

  /** `n` pending logins fail at `t`. */
  lemma {:induction false} Fails(p: Params, c: nat, ip: string, ops: seq<Op>, t: int, n: nat) returns (more: seq<Op>)
    requires Guarded(p, c, ip, ops, -1)
    requires var b := Run(p, c, ip, ops, -1); n <= b.pending && b.clock <= t
    ensures Guarded(p, c, ip, more, -1)
    ensures var b, r := Run(p, c, ip, ops, -1), Run(p, c, ip, more, -1);
            r.pending == b.pending - n && r.failures == b.failures + Repeat(t, n) &&
            r.clock == if n == 0 then b.clock else t
  {
    var F := Run(p, c, ip, ops, -1).failures;
    if n == 0 {
      more := ops;
      assert F + [] == F;
    } else {
      var before := Fails(p, c, ip, ops, t, n - 1);
      RunSnoc(p, c, ip, before, Fail(ip, t));
      RepeatSnoc(F, t, n);
      more := before + [Fail(ip, t)];
    }
  }

  /** `n` logins at a time: all begin before the first one fails. */
  lemma Volley(p: Params, c: nat, ip: string, ops: seq<Op>, F: seq<int>, clock: int, t: int, n: nat)
    returns (more: seq<Op>)
    requires p.Valid() && ip != "" && 0 < n <= c && Rests(p, c, ip, ops, F, clock) && clock <= t
    requires !LockEnd(p, F).After(t)
    ensures Rests(p, c, ip, more, F + Repeat(t, n), t)
  {
    var asked := Asks(p, c, ip, ops, t, n);
    more := Fails(p, c, ip, asked, t, n);
  }

  /** `n` logins one after the other. */
  lemma {:induction false} Singles(p: Params, c: nat, ip: string, ops: seq<Op>, F: seq<int>, clock: int, t: int, n: nat)
    returns (more: seq<Op>)
    requires p.Valid() && ip != "" && c > 0 && Rests(p, c, ip, ops, F, clock) && clock <= t
    requires forall k {:trigger Repeat(t, k)} :: 0 <= k < n ==> !LockEnd(p, F + Repeat(t, k)).After(t)
    ensures Rests(p, c, ip, more, F + Repeat(t, n), if n == 0 then clock else t)
  {
    if n == 0 {
      more := ops;
      assert F + [] == F;
    } else {
      var before := Singles(p, c, ip, ops, F, clock, t, n - 1);
      assert !LockEnd(p, F + Repeat(t, n - 1)).After(t);
      more := Volley(p, c, ip, before, F + Repeat(t, n - 1), if n == 1 then clock else t, t, 1);
      RepeatSnoc(F, t, n);
      assert Repeat(t, 1) == [t];
    }
  }

  /** One more failure at the time of the last one. */
  lemma SameTimeSnoc(p: Params, G: seq<int>, t: int, s: nat, before: Time)
    requires p.Valid() && G != [] && Start(p, G) == s && t - G[s] <= p.window
    requires LockEnd(p, G) == if |G| - s >= p.maxFailures then At(t + p.lockout) else before
    ensures Start(p, G + [t]) == s
    ensures LockEnd(p, G + [t]) == if |G| + 1 - s >= p.maxFailures then At(t + p.lockout) else before
  {
    StartSnoc(p, G, t);
  }

  /** The start of the group that a failure at `t` belongs to. */
  function GroupAt(p: Params, F: seq<int>, t: int): nat {
    if F == [] || t - F[Start(p, F)] > p.window then |F| else Start(p, F)
  }

  lemma RepeatAt(p: Params, F: seq<int>, t: int, n: nat)
    requires p.Valid() && n > 0
    ensures var G, s := F + Repeat(t, n), GroupAt(p, F, t); |G| == |F| + n && t - G[s] <= p.window
  {
    RepeatsOnly(t, n);
    var G, s := F + Repeat(t, n), GroupAt(p, F, t);
    assert G[s] == if s < |F| then F[s] else Repeat(t, n)[0];
  }

  /** The group and the lock after `n` failures at `t`. */
  lemma {:induction false} RepeatStart(p: Params, F: seq<int>, t: int, n: nat)
    requires p.Valid() && n > 0
    ensures Start(p, F + Repeat(t, n)) == GroupAt(p, F, t)
    ensures LockEnd(p, F + Repeat(t, n))
         == if |F| + n - GroupAt(p, F, t) >= p.maxFailures then At(t + p.lockout) else LockEnd(p, F)
  {
    RepeatSnoc(F, t, n);
    if n == 1 {
      assert F + Repeat(t, 0) == F;
      StartSnoc(p, F, t);
    } else {
      RepeatStart(p, F, t, n - 1);
      RepeatAt(p, F, t, n - 1);
      SameTimeSnoc(p, F + Repeat(t, n - 1), t, GroupAt(p, F, t), LockEnd(p, F));
    }
  }

  lemma {:induction false} RepeatsOnly(t: int, n: nat)
    ensures |Repeat(t, n)| == n && forall i :: 0 <= i < n ==> Repeat(t, n)[i] == t
  {
    if n > 0 {
      RepeatsOnly(t, n - 1);
    }
  }

  lemma {:induction false} CountRepeat(F: seq<int>, t: int, n: nat, lo: int, hi: int)
    requires lo <= t <= hi
    ensures CountIn(F + Repeat(t, n), lo, hi) == CountIn(F, lo, hi) + n
  {
    if n == 0 {
      assert F + [] == F;
    } else {
      CountRepeat(F, t, n - 1, lo, hi);
      RepeatSnoc(F, t, n);
      assert ((F + Repeat(t, n - 1)) + [t])[..|F + Repeat(t, n - 1)|] == F + Repeat(t, n - 1);
    }
  }

  /** All but one of the failures that the first group can take without a lock. */
  function First(p: Params): seq<int> {
    if p.maxFailures <= 1 then [] else Repeat(-1, 1) + Repeat(0, p.maxFailures - 2)
  }

  /** `k` volleys of `c` locking failures, each when the lock before it ends. */
  function Waves(p: Params, c: nat, k: nat): seq<int>
    requires p.lockout > 0
  {
    if k == 0 then First(p) else Waves(p, c, k - 1) + Repeat(Times(k - 1, p.lockout), c)
  }

  lemma FirstFacts(p: Params)
    requires p.Valid()
    ensures var F := First(p);
            |F| == (if p.maxFailures <= 1 then 0 else p.maxFailures - 1) && LockEnd(p, F) == Never &&
            CountIn(F, 0, p.window) == (if p.maxFailures <= 1 then 0 else p.maxFailures - 2) &&
            (F != [] ==> Start(p, F) == 0 && F[0] == -1)
  {
    if p.maxFailures > 1 {
      var one := Repeat(-1, 1);
      assert one == [-1];
      RepeatsOnly(0, p.maxFailures - 2);
      CountRepeat(one, 0, p.maxFailures - 2, 0, p.window);
      if p.maxFailures > 2 {
        RepeatStart(p, one, 0, p.maxFailures - 2);
      } else {
        assert one + Repeat(0, 0) == one;
      }
    }
  }

  /** The last of `k` volleys is still in the group of the first failure, and locks. */
  lemma {:induction false} WavesFacts(p: Params, c: nat, k: nat)
    requires p.Valid() && c > 0 && Times(k, p.lockout) <= p.window
    ensures var F := Waves(p, c, k);
            |F| == |First(p)| + Times(k, c) &&
            CountIn(F, 0, p.window) == CountIn(First(p), 0, p.window) + Times(k, c) &&
            (F != [] ==> Start(p, F) == 0 && F[0] == if p.maxFailures <= 1 then 0 else -1) &&
            LockEnd(p, F) == if k == 0 then Never else At(Times(k, p.lockout))
  {
    FirstFacts(p);
    if k > 0 {
      var F, t := Waves(p, c, k - 1), Times(k - 1, p.lockout);
      WavesFacts(p, c, k - 1);
      RepeatStart(p, F, t, c);
      RepeatsOnly(t, c);
      CountRepeat(F, t, c, 0, p.window);
    }
  }

  /** A first failure, before the window. */
  lemma OneFailure(p: Params, c: nat, ip: string) returns (ops: seq<Op>)
    requires p.Valid() && c > 0 && ip != ""
    ensures Rests(p, c, ip, ops, Repeat(-1, 1), -1)
  {
    assert Rests(p, c, ip, [], [], -1);
    assert [] + Repeat(-1, 1) == Repeat(-1, 1);
    ops := Volley(p, c, ip, [], [], -1, -1, 1);
  }

  /** The group of that failure has room for some more without a lock. */
  lemma NoLockYet(p: Params, k: nat)
    requires p.Valid() && k + 1 < p.maxFailures
    ensures !LockEnd(p, Repeat(-1, 1) + Repeat(0, k)).After(0)
  {
    var one := Repeat(-1, 1);
    assert one == [-1];
    if k == 0 {
      assert one + Repeat(0, 0) == one;
    } else {
      RepeatStart(p, one, 0, k);
    }
  }

  lemma FirstRun(p: Params, c: nat, ip: string) returns (ops: seq<Op>, clock: int)
    requires p.Valid() && c > 0 && ip != ""
    ensures clock <= 0 && Rests(p, c, ip, ops, First(p), clock)
  {
    if p.maxFailures <= 1 {
      ops, clock := [], -1;
    } else {
      forall k {:trigger Repeat(0, k)} | 0 <= k < p.maxFailures - 2
        ensures !LockEnd(p, Repeat(-1, 1) + Repeat(0, k)).After(0)
      {
        NoLockYet(p, k);
      }
      ops := OneFailure(p, c, ip);
      ops := Singles(p, c, ip, ops, Repeat(-1, 1), -1, 0, p.maxFailures - 2);
      clock := if p.maxFailures == 2 then -1 else 0;
    }
  }

  lemma NextWave(p: Params, c: nat, ip: string, k: nat, ops: seq<Op>, clock: int) returns (more: seq<Op>)
    requires p.Valid() && c > 0 && ip != "" && Times(k, p.lockout) <= p.window && clock <= Times(k, p.lockout)
    requires Rests(p, c, ip, ops, Waves(p, c, k), clock)
    ensures Rests(p, c, ip, more, Waves(p, c, k + 1), Times(k, p.lockout))
  {
    WavesFacts(p, c, k);
    more := Volley(p, c, ip, ops, Waves(p, c, k), clock, Times(k, p.lockout), c);
  }

  lemma {:induction false} WavesRun(p: Params, c: nat, ip: string, k: nat) returns (ops: seq<Op>, clock: int)
    requires p.Valid() && c > 0 && ip != "" && Times(k, p.lockout) <= p.window
    ensures clock <= (if k == 0 then 0 else Times(k - 1, p.lockout)) && Rests(p, c, ip, ops, Waves(p, c, k), clock)
  {
    if k == 0 {
      ops, clock := FirstRun(p, c, ip);
    } else {
      ops, clock := WavesRun(p, c, ip, k - 1);
      ops := NextWave(p, c, ip, k - 1, ops, clock);
      clock := Times(k - 1, p.lockout);
    }
  }

  /** After the waves, at the end of the window, a new group: `maxFailures - 1` more failures, one
      after the other, and then `c` at once. */
  lemma LastGroup(p: Params, F: seq<int>, k: nat)
    requires p.Valid() && !LockEnd(p, F).After(p.window)
    requires F != [] ==> Start(p, F) == 0 && (p.maxFailures > 1 ==> F[0] == -1)
    requires k < p.maxFailures
    ensures !LockEnd(p, F + Repeat(p.window, k)).After(p.window)
  {
    if k == 0 {
      assert F + Repeat(p.window, 0) == F;
    } else {
      RepeatStart(p, F, p.window, k);
    }
  }

  lemma WindowHolds(p: Params)
    requires p.Valid()
    ensures Times(p.window / p.lockout, p.lockout) <= p.window
  {
    TimesIsProduct(p.window / p.lockout, p.lockout);
  }

  /** The bound is reached, for every setting and every number of concurrent logins. */
  lemma LimitIsReached(p: Params, c: nat, ip: string) returns (ops: seq<Op>)
    requires p.Valid() && c > 0 && ip != ""
    ensures Guarded(p, c, ip, ops, -1)
    ensures CountIn(Run(p, c, ip, ops, -1).failures, 0, p.window) == Limit(p, c)
  {
    var w, q, rest := p.window, p.window / p.lockout, p.maxFailures - 1;
    var clock;
    WindowHolds(p);
    ops, clock := WavesRun(p, c, ip, q);
    var F := Waves(p, c, q);
    WavesFacts(p, c, q);
    FirstFacts(p);
    TimesMonotone(if q == 0 then 0 else q - 1, q, p.lockout);
    forall k {:trigger Repeat(w, k)} | 0 <= k <= rest
      ensures !LockEnd(p, F + Repeat(w, k)).After(w)
    {
      LastGroup(p, F, k);
    }
    ops := Singles(p, c, ip, ops, F, clock, w, rest);
    assert !LockEnd(p, F + Repeat(w, rest)).After(w);
    ops := Volley(p, c, ip, ops, F + Repeat(w, rest), if rest == 0 then clock else w, w, c);
    CountRepeat(F, w, rest, 0, w);
    CountRepeat(F + Repeat(w, rest), w, c, 0, w);
  }

  /** The failures of a run in the window that begins at `lo`. */
  function InWindow(p: Params, c: nat, ip: string, ops: seq<Op>, start: int, lo: int): nat {
    CountIn(Run(p, c, ip, ops, start).failures, lo, lo + p.window)
  }

  /** No run has more than `most` failures in any window. */
  ghost predicate NeverMore(p: Params, c: nat, ip: string, most: int) {
    forall ops, start, lo :: Guarded(p, c, ip, ops, start) ==> InWindow(p, c, ip, ops, start, lo) <= most
  }

  /** A bound holds on all runs exactly if it is at least the limit. */
  lemma BoundHoldsIff(p: Params, c: nat, ip: string, most: int)
    requires p.Valid() && c > 0 && ip != ""
    ensures NeverMore(p, c, ip, most) <==> Limit(p, c) <= most
  {
    if Limit(p, c) <= most {
      forall ops, start, lo | Guarded(p, c, ip, ops, start)
        ensures InWindow(p, c, ip, ops, start, lo) <= most
      {
        RateBound(p, c, ip, ops, start, lo);
      }
    } else {
      var ops := LimitIsReached(p, c, ip);
      assert InWindow(p, c, ip, ops, -1, 0) > most;
    }
  }

  /** At most `2 * maxFailures - 2` failures per window (one, if a single failure locks): this holds
      exactly if the lockout is longer than the window and logins come one at a time. */
  lemma SharpBoundIff(p: Params, c: nat, ip: string)
    requires p.Valid() && c > 0 && ip != ""
    ensures NeverMore(p, c, ip, Bound(p.maxFailures)) <==> p.lockout > p.window && c == 1
  {
    BoundHoldsIff(p, c, ip, Bound(p.maxFailures));
    LimitInWords(p, c);
    TurnsAreZeroIff(p, c);
  }

  lemma TurnsAreZeroIff(p: Params, c: nat)
    requires p.Valid() && c > 0
    ensures p.window / p.lockout == 0 <==> p.lockout > p.window
    ensures (c - 1) + (p.window / p.lockout) * c <= 0 <==> p.lockout > p.window && c == 1
  {
    var q := p.window / p.lockout;
    WindowTurns(p);
    WindowHolds(p);
    TimesIsProduct(q, c);
    if q > 0 {
      TimesMonotone(1, q, p.lockout);
      TimesMonotone(1, q, c);
    }
  }

  /** At most `2 * maxFailures - 1`, with one login at a time: this holds exactly if two lockouts are
      longer than the window, or one, if a single failure locks. */
  lemma LooseBoundIff(p: Params, ip: string)
    requires p.Valid() && ip != ""
    ensures NeverMore(p, 1, ip, 2 * p.maxFailures - 1)
       <==> (if p.maxFailures == 1 then p.lockout else 2 * p.lockout) > p.window
  {
    var q := p.window / p.lockout;
    BoundHoldsIff(p, 1, ip, 2 * p.maxFailures - 1);
    LimitInWords(p, 1);
    WindowTurns(p);
    WindowHolds(p);
    if q > 1 {
      TimesMonotone(2, q, p.lockout);
    } else {
      TimesMonotone(q + 1, 2, p.lockout);
    }
  }
}
