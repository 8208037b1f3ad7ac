/** The login limiter (internal/admin/login_limiter.go): failures are counted per client
    address, and too many of them within a window lock the address out for a while.

    Clock readings are integers (nanoseconds) and never go back.  `Never` is Go's zero
    time, which lies before every clock reading. */
module LoginLimiter {
  import opened Wrappers

  datatype Time = Never | At(t: int) {
    predicate After(now: int) { At? && t > now }
    predicate Before(now: int) { At? ==> t < now }
  }

  datatype Attempt = Attempt(failures: nat, firstFail: Time, lockedTill: Time)

  datatype Params = Params(maxFailures: int, window: int, lockout: int) {
    ghost predicate Valid() { maxFailures > 0 && window > 0 && lockout > 0 }
  }

  datatype Answer = Answer(allowed: bool, retryAfter: int)

  const SECOND := 1_000_000_000

  // ----- one address -----

  predicate WindowOver(p: Params, a: Attempt, now: int) {
    a.firstFail.At? && now - a.firstFail.t > p.window
  }

  function Allowed(e: Option<Attempt>, now: int): Answer {
    if e.Some? && e.value.lockedTill.After(now) then Answer(false, e.value.lockedTill.t - now)
    else Answer(true, 0)
  }

  /** The entry after `allow`: a window that is over is forgotten. */
  function AfterAllow(p: Params, e: Option<Attempt>, now: int): Option<Attempt> {
    if e.Some? && !e.value.lockedTill.After(now) && WindowOver(p, e.value, now)
    then Some(e.value.(failures := 0, firstFail := Never))
    else e
  }

  /** The entry after `recordFailure`, before the cleanup. */
  function AfterFailure(p: Params, e: Option<Attempt>, now: int): Attempt {
    var a := if e.None? then Attempt(0, Never, Never) else e.value;
    var b := if a.firstFail.Never? || WindowOver(p, a, now)
             then a.(failures := 0, firstFail := At(now)) else a;
    var c := b.(failures := b.failures + 1);
    if c.failures >= p.maxFailures then c.(lockedTill := At(now + p.lockout)) else c
  }

  /** The cleanup's condition for deleting an entry. */
  predicate Stale(p: Params, a: Attempt, now: int) {
    a.lockedTill.Before(now - p.lockout) && a.firstFail.Before(now - p.window)
  }

  // ----- the table of all addresses -----

  type Table = map<string, Attempt>

  function Get(m: Table, ip: string): Option<Attempt> {
    if ip in m then Some(m[ip]) else None
  }

  function TableAfterAllow(p: Params, m: Table, ip: string, now: int): Table {
    if ip != "" && ip in m then m[ip := AfterAllow(p, Some(m[ip]), now).value] else m
  }

  function Cleaned(p: Params, m: Table, now: int): Table {
    map k | k in m && !Stale(p, m[k], now) :: m[k]
  }

  /** The table after `recordFailure`; `cleanup` says whether the deletion loop runs. */
  function TableAfterFailure(p: Params, m: Table, ip: string, now: int, cleanup: bool): Table {
    if ip == "" then m
    else
      var m' := m[ip := AfterFailure(p, Get(m, ip), now)];
      if cleanup then Cleaned(p, m', now) else m'
  }

  class Limiter {
    const p: Params
    var entries: Table

    constructor (maxFailures: int, window: int, lockout: int)
      ensures p.Valid() && entries == map[]
      ensures p.maxFailures == (if maxFailures <= 0 then 5 else maxFailures)
      ensures p.window == (if window <= 0 then 60 * SECOND else window)
      ensures p.lockout == (if lockout <= 0 then 300 * SECOND else lockout)
    {
      p := Params(if maxFailures <= 0 then 5 else maxFailures,
                  if window <= 0 then 60 * SECOND else window,
                  if lockout <= 0 then 300 * SECOND else lockout);
      entries := map[];
    }

    method Allow(ip: string, now: int) returns (answer: Answer)
      modifies this
      ensures answer == if ip == "" then Answer(true, 0) else Allowed(Get(old(entries), ip), now)
      ensures entries == TableAfterAllow(p, old(entries), ip, now)
      ensures entries.Keys == old(entries).Keys && forall k :: k in entries && k != ip ==> entries[k] == old(entries)[k]
      ensures ip in entries && ip != "" ==>
                var a := old(entries)[ip];
                var over := a.firstFail.At? && a.firstFail.t + p.window < now &&
                            (a.lockedTill.At? ==> a.lockedTill.t <= now);
                entries[ip] == if over then Attempt(0, Never, a.lockedTill) else a
    {
      if ip == "" || ip !in entries {
        return Answer(true, 0);
      }
      var entry := entries[ip];
      if entry.lockedTill.After(now) {
        assert entries == entries[ip := entry];
        return Answer(false, entry.lockedTill.t - now);
      }
      if !entry.firstFail.Never? && now - entry.firstFail.t > p.window {
        entry := entry.(failures := 0, firstFail := Never);
      }
      entries := entries[ip := entry];
      return Answer(true, 0);
    }

    method RecordFailure(ip: string, now: int)
      requires p.Valid()
      modifies this
      ensures entries == TableAfterFailure(p, old(entries), ip, now, true)
      ensures ip != "" ==> ip in entries
      ensures forall k :: k in old(entries) && old(entries)[k].lockedTill.After(now) ==> k in entries
      ensures forall k :: k in old(entries) && k != ip && ip != "" ==>
                var a := old(entries)[k];
                (k in entries <==> (a.lockedTill.At? && a.lockedTill.t >= now - p.lockout) ||
                                   (a.firstFail.At? && a.firstFail.t >= now - p.window))
    {
      if ip == "" {
        return;
      }
      var entry := if ip in entries then entries[ip] else Attempt(0, Never, Never);
      if entry.firstFail.Never? || now - entry.firstFail.t > p.window {
        entry := entry.(firstFail := At(now), failures := 0);
      }
      entry := entry.(failures := entry.failures + 1);
      if entry.failures >= p.maxFailures {
        entry := entry.(lockedTill := At(now + p.lockout));
      }
      entries := entries[ip := entry];
      ghost var full := entries;
      var keys := entries.Keys;
      while keys != {}
        invariant keys <= entries.Keys <= full.Keys
        invariant forall k :: k in entries ==> entries[k] == full[k]
        invariant forall k :: k in full && k !in keys ==> (k in entries <==> !Stale(p, full[k], now))
        decreases keys
      {
        var key :| key in keys;
        keys := keys - {key};
        if entries[key].lockedTill.Before(now - p.lockout) && entries[key].firstFail.Before(now - p.window) {
          entries := entries - {key};
        }
      }
    }

    method RecordSuccess(ip: string)
      modifies this
      ensures entries == if ip == "" then old(entries) else old(entries) - {ip}
    {
      if ip == "" {
        return;
      }
      entries := entries - {ip};
    }
  }

  // ----- how long an address waits -----

  /** An address that is refused is allowed again after exactly the time it is told to wait. */
  lemma WaitIsExact(e: Option<Attempt>, now: int, later: int)
    requires !Allowed(e, now).allowed && now <= later
    ensures Allowed(e, now).retryAfter > 0
    ensures Allowed(e, later).allowed <==> later - now >= Allowed(e, now).retryAfter
  {
  }

  /** A failure that makes the count full refuses the address for the whole lockout, whatever is asked
      meanwhile. */
  lemma LockoutIsFull(p: Params, e: Option<Attempt>, now: int, later: int)
    requires p.Valid() && now <= later && AfterFailure(p, e, now).failures >= p.maxFailures
    ensures Allowed(Some(AfterFailure(p, e, now)), later) ==
            if later < now + p.lockout then Answer(false, now + p.lockout - later) else Answer(true, 0)
  {
  }

  // ----- runs -----

  datatype Op = Ask(ip: string, now: int) | Fail(ip: string, now: int) | Succeed(ip: string, now: int)

  function Step(p: Params, m: Table, op: Op, cleanup: bool): Table {
    match op
    case Ask(ip, now) => TableAfterAllow(p, m, ip, now)
    case Fail(ip, now) => TableAfterFailure(p, m, ip, now, cleanup)
    case Succeed(ip, _) => if ip == "" then m else m - {ip}
  }

  function Reply(m: Table, op: Op): Answer {
    if op.Ask? && op.ip != "" then Allowed(Get(m, op.ip), op.now) else Answer(true, 0)
  }

  /** The answers that a run of operations shows to its callers. */
  function Replies(p: Params, m: Table, ops: seq<Op>, cleanup: bool): seq<Answer>
    decreases |ops|
  {
    if ops == [] then []
    else [Reply(m, ops[0])] + Replies(p, Step(p, m, ops[0], cleanup), ops[1..], cleanup)
  }

  /** The clock does not go back, from `now` on. */
  ghost predicate Monotone(ops: seq<Op>, now: int) {
    ops == [] || (now <= ops[0].now && Monotone(ops[1..], ops[0].now))
  }

  // ----- the cleanup is invisible -----

  datatype View = View(lockedTill: Option<int>, group: Option<(nat, int)>)

  /** What an entry still means at `now`: its lock if not over, its count if the window is not over. */
  function Visible(p: Params, e: Option<Attempt>, now: int): View {
    if e.None? then View(None, None)
    else
      var a := e.value;
      View(if a.lockedTill.After(now) then Some(a.lockedTill.t) else None,
           if a.firstFail.Never? || WindowOver(p, a, now) then None else Some((a.failures, a.firstFail.t)))
  }

  ghost predicate SameView(p: Params, m: Table, m': Table, now: int) {
    forall ip :: Visible(p, Get(m, ip), now) == Visible(p, Get(m', ip), now)
  }

  lemma SameViewLater(p: Params, m: Table, m': Table, now: int, later: int)
    requires SameView(p, m, m', now) && now <= later
    ensures SameView(p, m, m', later)
  {
    forall ip
      ensures Visible(p, Get(m, ip), later) == Visible(p, Get(m', ip), later)
    {
      assert Visible(p, Get(m, ip), now) == Visible(p, Get(m', ip), now);
    }
  }

  /** A deleted entry meant nothing any more; in particular it was not locked. */
  lemma StaleIsInvisible(p: Params, a: Attempt, now: int)
    requires p.Valid() && Stale(p, a, now)
    ensures Visible(p, Some(a), now) == Visible(p, None, now)
  {
  }

  /** Equal views stay equal under every operation, whether or not one side cleans up. */
  lemma StepKeepsView(p: Params, m: Table, m': Table, op: Op)
    requires p.Valid() && SameView(p, m, m', op.now)
    ensures Reply(m, op) == Reply(m', op)
    ensures SameView(p, Step(p, m, op, true), Step(p, m', op, false), op.now)
  {
    assert Visible(p, Get(m, op.ip), op.now) == Visible(p, Get(m', op.ip), op.now);
    forall ip
      ensures Visible(p, Get(Step(p, m, op, true), ip), op.now)
           == Visible(p, Get(Step(p, m', op, false), ip), op.now)
    {
      assert Visible(p, Get(m, ip), op.now) == Visible(p, Get(m', ip), op.now);
    }
  }

  lemma {:induction false} CleanupInvisibleFrom(p: Params, m: Table, m': Table, ops: seq<Op>, now: int)
    requires p.Valid() && Monotone(ops, now) && SameView(p, m, m', now)
    ensures Replies(p, m, ops, true) == Replies(p, m', ops, false)
    decreases |ops|
  {
    if ops != [] {
      var op := ops[0];
      SameViewLater(p, m, m', now, op.now);
      StepKeepsView(p, m, m', op);
      CleanupInvisibleFrom(p, Step(p, m, op, true), Step(p, m', op, false), ops[1..], op.now);
    }
  }

  /** On every run with a monotone clock, a limiter with the deletion loop gives the same
      answers and the same waiting times as one that never deletes. */
  lemma CleanupInvisible(p: Params, ops: seq<Op>, start: int)
    requires p.Valid() && Monotone(ops, start)
    ensures Replies(p, map[], ops, true) == Replies(p, map[], ops, false)
  {
    CleanupInvisibleFrom(p, map[], map[], ops, start);
  }
}
