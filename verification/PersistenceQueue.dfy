/** The queue between the store and the trace writer (internal/traffic/persistence.go: enqueue,
    close and run), as a state machine over the atomic steps of its goroutines.

    Any number of producers each enqueue a list of traces, any number of callers call `close`, and
    one writer drains the channel.  The read-write lock gives way to a waiting writer, as Go's
    does, and sync.Once runs the body of `close` once while the other callers wait. */
module PersistenceQueue {
  import opened Traces

  /** The capacity of the channel. */
  const CAPACITY := 4096

  /** Where a producer is inside `enqueue`: outside; holding the read lock; past the closed check;
      about to release the lock. */
  datatype ProducerPc = Outside | Locked | Sending | Leaving

  datatype Producer = Producer(todo: seq<Trace>, pc: ProducerPc)

  /** How far the body of `close` has come. */
  datatype Phase = NotStarted | WaitingForLock | HoldsLock | FlagSet | ChannelClosed | WaitingForWriter | Finished

  /** A caller of `close`: before the call, inside, and after it returned. */
  datatype Caller = Before | Inside | Returned

  datatype State = State(
    producers: seq<Producer>, callers: seq<Caller>, phase: Phase,
    queue: seq<Trace>, flag: bool, channelClosed: bool, writerDone: bool, panicked: bool,
    accepted: seq<Trace>,   // sent on the channel, in order
    senders: seq<nat>,      // and who sent each of them
    written: seq<Trace>,    // handed to the writer, in order
    dropped: seq<Trace>)    // refused because the flag was set

  datatype Action = Produce(i: nat) | Call(j: nat) | CloseBody | Return(j: nat) | Write

  /** The write lock is wanted or held: no new reader gets in. */
  predicate LockTaken(phase: Phase) {
    phase == WaitingForLock || phase == HoldsLock || phase == FlagSet || phase == ChannelClosed
  }

  predicate NoReaders(s: State) {
    forall i :: 0 <= i < |s.producers| ==> s.producers[i].pc == Outside
  }

  predicate Enabled(s: State, a: Action) {
    match a
    case Produce(i) =>
      i < |s.producers| && s.producers[i].todo != [] &&
      (match s.producers[i].pc
       case Outside => !LockTaken(s.phase)
       case Sending => s.channelClosed || |s.queue| < CAPACITY
       case _ => true)
    case Call(j) => j < |s.callers| && s.callers[j] == Before
    case CloseBody =>
      (match s.phase
       case NotStarted => false
       case WaitingForLock => NoReaders(s)
       case WaitingForWriter => s.writerDone
       case Finished => false
       case _ => true)
    case Return(j) => j < |s.callers| && s.callers[j] == Inside && s.phase == Finished
    case Write => !s.writerDone && (s.queue != [] || s.channelClosed)
  }

  function Step(s: State, a: Action): State
    requires Enabled(s, a)
  {
    match a
    case Produce(i) =>
      var p := s.producers[i];
      (match p.pc
       case Outside => s.(producers := s.producers[i := p.(pc := Locked)])
       case Locked =>
         if s.flag then s.(producers := s.producers[i := p.(pc := Leaving)], dropped := s.dropped + [p.todo[0]])
         else s.(producers := s.producers[i := p.(pc := Sending)])
       case Sending =>
         var sent := s.(producers := s.producers[i := p.(pc := Leaving)]);
         if s.channelClosed then sent.(panicked := true)
         else sent.(queue := s.queue + [p.todo[0]], accepted := s.accepted + [p.todo[0]], senders := s.senders + [i])
       case Leaving => s.(producers := s.producers[i := Producer(p.todo[1..], Outside)]))
    case Call(j) =>
      s.(callers := s.callers[j := Inside], phase := if s.phase == NotStarted then WaitingForLock else s.phase)
    case CloseBody =>
      (match s.phase
       case WaitingForLock => s.(phase := HoldsLock)
       case HoldsLock => s.(phase := FlagSet, flag := true)
       case FlagSet => s.(phase := ChannelClosed, channelClosed := true, panicked := s.panicked || s.channelClosed)
       case ChannelClosed => s.(phase := WaitingForWriter)
       case WaitingForWriter => s.(phase := Finished))
    case Return(j) => s.(callers := s.callers[j := Returned])
    case Write =>
      if s.queue != [] then s.(queue := s.queue[1..], written := s.written + [s.queue[0]])
      else s.(writerDone := true)
  }

  /** Every producer has its list before it, nobody has called `close`, nothing has been sent. */
  predicate Initial(s: State) {
    (forall i :: 0 <= i < |s.producers| ==> s.producers[i].pc == Outside) &&
    (forall j :: 0 <= j < |s.callers| ==> s.callers[j] == Before) && s.phase == NotStarted &&
    s.queue == [] && !s.flag && !s.channelClosed && !s.writerDone && !s.panicked &&
    s.accepted == [] && s.senders == [] && s.written == [] && s.dropped == []
  }

  /** The traces a producer has not dealt with yet. */
  function Pending(p: Producer): seq<Trace> {
    if p.pc == Leaving && p.todo != [] then p.todo[1..] else p.todo
  }

  /** How often `x` occurs. */
  function Occurrences(s: seq<Trace>, x: Trace): nat {
    if s == [] then 0 else (if s[0] == x then 1 else 0) + Occurrences(s[1..], x)
  }

  function AllPending(ps: seq<Producer>, x: Trace): nat {
    if ps == [] then 0 else Occurrences(Pending(ps[0]), x) + AllPending(ps[1..], x)
  }

  predicate ProducerOk(p: Producer, phase: Phase) {
    (p.pc != Outside ==> p.todo != []) &&
    (phase == HoldsLock || phase == FlagSet || phase == ChannelClosed ==> p.pc == Outside) &&
    (p.pc == Sending ==> phase == NotStarted || phase == WaitingForLock)
  }

  /** The invariant of every reachable state. */
  predicate Inv(s: State) {
    (forall i :: 0 <= i < |s.producers| ==> ProducerOk(s.producers[i], s.phase)) &&
    (forall j :: 0 <= j < |s.callers| ==>
      (s.callers[j] == Inside ==> s.phase != NotStarted) && (s.callers[j] == Returned ==> s.phase == Finished)) &&
    s.flag == (s.phase == FlagSet || s.phase == ChannelClosed || s.phase == WaitingForWriter || s.phase == Finished) &&
    s.channelClosed == (s.phase == ChannelClosed || s.phase == WaitingForWriter || s.phase == Finished) &&
    (s.writerDone ==> s.channelClosed && s.queue == []) && (s.phase == Finished ==> s.writerDone) &&
    |s.queue| <= CAPACITY && !s.panicked &&
    s.accepted == s.written + s.queue && |s.senders| == |s.accepted| &&
    (s.dropped != [] ==> s.flag)
  }

  lemma InvStep(s: State, a: Action)
    requires Inv(s) && Enabled(s, a)
    ensures Inv(Step(s, a))
  {
    var t := Step(s, a);
    forall i | 0 <= i < |t.producers|
      ensures ProducerOk(t.producers[i], t.phase)
    {
      assert ProducerOk(s.producers[i], s.phase);
    }
  }

  lemma {:induction false} OccurrencesSnoc(s: seq<Trace>, c: Trace, x: Trace)
    ensures Occurrences(s + [c], x) == Occurrences(s, x) + (if c == x then 1 else 0)
  {
    if s == [] {
      assert [] + [c] == [c];
    } else {
      OccurrencesSnoc(s[1..], c, x);
      assert (s + [c])[1..] == s[1..] + [c];
    }
  }

  lemma {:induction false} AllPendingUpdate(ps: seq<Producer>, i: nat, p: Producer, x: Trace)
    requires i < |ps|
    ensures AllPending(ps[i := p], x) + Occurrences(Pending(ps[i]), x)
         == AllPending(ps, x) + Occurrences(Pending(p), x)
  {
    if i == 0 {
      assert ps[0 := p][1..] == ps[1..];
    } else {
      AllPendingUpdate(ps[1..], i - 1, p, x);
      assert ps[i := p][1..] == ps[1..][i - 1 := p];
    }
  }

  /** How often `x` is anywhere: still to be enqueued, accepted or refused. */
  function Everywhere(s: State, x: Trace): nat {
    AllPending(s.producers, x) + Occurrences(s.accepted, x) + Occurrences(s.dropped, x)
  }

  /** A producer that has one trace less before it, once that trace is accepted or refused. */
  lemma TraceMoves(s: State, t: State, i: nat, p: Producer, y: Trace, x: Trace)
    requires i < |s.producers| && t.producers == s.producers[i := p]
    requires Pending(s.producers[i]) != [] && Pending(s.producers[i])[0] == y
    requires Pending(p) == Pending(s.producers[i])[1..]
    requires (t.accepted == s.accepted + [y] && t.dropped == s.dropped) ||
             (t.accepted == s.accepted && t.dropped == s.dropped + [y])
    ensures Everywhere(t, x) == Everywhere(s, x)
  {
    AllPendingUpdate(s.producers, i, p, x);
    OccurrencesSnoc(s.accepted, y, x);
    OccurrencesSnoc(s.dropped, y, x);
  }

  /** A producer that has the same traces before it. */
  lemma TraceStays(s: State, t: State, i: nat, p: Producer, x: Trace)
    requires i < |s.producers| && t.producers == s.producers[i := p] && Pending(p) == Pending(s.producers[i])
    requires t.accepted == s.accepted && t.dropped == s.dropped
    ensures Everywhere(t, x) == Everywhere(s, x)
  {
    AllPendingUpdate(s.producers, i, p, x);
  }

  /** No step loses or copies a trace. */
  lemma StepConserves(s: State, a: Action, x: Trace)
    requires Inv(s) && Enabled(s, a)
    ensures Everywhere(Step(s, a), x) == Everywhere(s, x)
  {
    if a.Produce? {
      var p := s.producers[a.i];
      assert ProducerOk(p, s.phase);
      var t := Step(s, a);
      if p.pc == Sending || (p.pc == Locked && s.flag) {
        TraceMoves(s, t, a.i, t.producers[a.i], p.todo[0], x);
      } else {
        TraceStays(s, t, a.i, t.producers[a.i], x);
      }
    }
  }

  // ----- runs -----

  /** The state after a run, if every action of it was enabled in its turn. */
  predicate Runs(s: State, run: seq<Action>)
    decreases |run|
  {
    run == [] || (Enabled(s, run[0]) && Runs(Step(s, run[0]), run[1..]))
  }

  function After(s: State, run: seq<Action>): State
    requires Runs(s, run)
    decreases |run|
  {
    if run == [] then s else After(Step(s, run[0]), run[1..])
  }

  lemma {:induction false} RunKeeps(s: State, run: seq<Action>)
    requires Inv(s) && Runs(s, run)
    ensures Inv(After(s, run)) && forall x :: Everywhere(After(s, run), x) == Everywhere(s, x)
    decreases |run|
  {
    if run != [] {
      InvStep(s, run[0]);
      forall x
        ensures Everywhere(Step(s, run[0]), x) == Everywhere(s, x)
      {
        StepConserves(s, run[0], x);
      }
      RunKeeps(Step(s, run[0]), run[1..]);
    }
  }

  /** Safety over every interleaving: nothing is ever sent on a closed channel; the writer has
      received the accepted traces in order, without gap or repetition; a trace is refused only
      once closing has begun; and when a call of `close` has returned, the writer has received
      every accepted trace. */
  lemma QueueIsSafe(s: State, run: seq<Action>)
    requires Initial(s) && Runs(s, run)
    ensures var t := After(s, run);
            !t.panicked && t.written <= t.accepted && t.accepted == t.written + t.queue &&
            (t.dropped != [] ==> t.flag) &&
            (forall x :: Everywhere(t, x) == AllPending(s.producers, x)) &&
            (Returned in t.callers ==> t.queue == [] && t.written == t.accepted && t.writerDone)
  {
    RunKeeps(s, run);
    var t := After(s, run);
    if Returned in t.callers {
      var j :| 0 <= j < |t.callers| && t.callers[j] == Returned;
    }
  }

  // ----- the order of one producer -----

  /** The traces among `ts` that producer `i` sent, in order. */
  function SentBy(ts: seq<Trace>, senders: seq<nat>, i: nat): seq<Trace>
    requires |senders| == |ts|
  {
    if ts == [] then []
    else
      SentBy(ts[..|ts| - 1], senders[..|ts| - 1], i) + (if senders[|ts| - 1] == i then [ts[|ts| - 1]] else [])
  }

  lemma SentBySnoc(ts: seq<Trace>, senders: seq<nat>, i: nat, t: Trace, j: nat)
    requires |senders| == |ts|
    ensures SentBy(ts + [t], senders + [j], i) == SentBy(ts, senders, i) + (if j == i then [t] else [])
  {
    assert (ts + [t])[..|ts|] == ts && (senders + [j])[..|ts|] == senders;
  }

  /** `a` arises from `b` by leaving out elements. */
  predicate Subsequence(a: seq<Trace>, b: seq<Trace>) {
    a == [] || (b != [] && ((a[0] == b[0] && Subsequence(a[1..], b[1..])) || Subsequence(a, b[1..])))
  }

  lemma {:induction false} SubsequenceSelf(a: seq<Trace>)
    ensures Subsequence(a, a)
  {
    if a != [] {
      SubsequenceSelf(a[1..]);
    }
  }

  /** Leaving out one more element. */
  lemma {:induction false} LeaveOut(a: seq<Trace>, x: Trace, c: seq<Trace>, b: seq<Trace>)
    requires Subsequence(a + [x] + c, b)
    ensures Subsequence(a + c, b)
    decreases |b|
  {
    var full := a + [x] + c;
    if a + c != [] {
      if a == [] {
        assert full[1..] == c && a + c == c;
        if full[0] == b[0] && Subsequence(full[1..], b[1..]) {
          assert Subsequence(c, b[1..]);
        } else {
          LeaveOut(a, x, c, b[1..]);
        }
      } else if full[0] == b[0] && Subsequence(full[1..], b[1..]) {
        assert full[1..] == a[1..] + [x] + c && (a + c)[1..] == a[1..] + c;
        LeaveOut(a[1..], x, c, b[1..]);
      } else {
        LeaveOut(a, x, c, b[1..]);
      }
    }
  }

  /** What producer `i` had accepted, and what is still to be enqueued, come from its list in order. */
  predicate InOrder(s: State, i: nat, list: seq<Trace>)
    requires |s.senders| == |s.accepted| && i < |s.producers|
  {
    Subsequence(SentBy(s.accepted, s.senders, i) + Pending(s.producers[i]), list)
  }

  /** Steps of others send nothing in the producer's name. */
  lemma OthersKeepOrder(s: State, a: Action, i: nat)
    requires Inv(s) && Enabled(s, a) && i < |s.producers| && a != Produce(i)
    ensures var t := Step(s, a);
            |t.senders| == |t.accepted| && i < |t.producers| && t.producers[i] == s.producers[i] &&
            SentBy(t.accepted, t.senders, i) == SentBy(s.accepted, s.senders, i)
  {
    if a.Produce? && s.producers[a.i].pc == Sending {
      SentBySnoc(s.accepted, s.senders, i, s.producers[a.i].todo[0], a.i);
    }
  }

  /** The producer's own steps leave a trace where it is, accept it, or leave it out. */
  lemma OwnStep(s: State, i: nat) returns (x: Trace, rest: seq<Trace>)
    requires Inv(s) && i < |s.producers| && Enabled(s, Produce(i))
    ensures var t, sent := Step(s, Produce(i)), SentBy(s.accepted, s.senders, i);
            |t.senders| == |t.accepted| && i < |t.producers| &&
            var sent', p, p' := SentBy(t.accepted, t.senders, i), Pending(s.producers[i]), Pending(t.producers[i]);
            (sent' == sent && p' == p) || (p == [x] + rest && p' == rest && (sent' == sent + [x] || sent' == sent))
  {
    var p := s.producers[i];
    assert ProducerOk(p, s.phase);
    x, rest := p.todo[0], p.todo[1..];
    assert p.todo == [x] + rest;
    if p.pc == Sending {
      OwnSend(s, i, x);
    }
  }

  lemma OwnSend(s: State, i: nat, x: Trace)
    requires Inv(s) && i < |s.producers| && Enabled(s, Produce(i)) && s.producers[i].pc == Sending
    requires ProducerOk(s.producers[i], s.phase) && x == s.producers[i].todo[0]
    ensures var t := Step(s, Produce(i));
            |t.senders| == |t.accepted| && SentBy(t.accepted, t.senders, i) == SentBy(s.accepted, s.senders, i) + [x]
  {
    SentBySnoc(s.accepted, s.senders, i, x, i);
  }

  lemma Regroup(a: seq<Trace>, x: Trace, c: seq<Trace>)
    ensures a + ([x] + c) == a + [x] + c
  {
  }

  lemma StepKeepsOrder(s: State, a: Action, i: nat, list: seq<Trace>)
    requires Inv(s) && Enabled(s, a) && i < |s.producers| && InOrder(s, i, list)
    ensures Inv(Step(s, a)) && i < |Step(s, a).producers| && InOrder(Step(s, a), i, list)
  {
    InvStep(s, a);
    if a == Produce(i) {
      var x, rest := OwnStep(s, i);
      var sent := SentBy(s.accepted, s.senders, i);
      Regroup(sent, x, rest);
      if Pending(s.producers[i]) == [x] + rest {
        LeaveOut(sent, x, rest, list);
      }
    } else {
      OthersKeepOrder(s, a, i);
    }
  }

  lemma {:induction false} RunKeepsOrder(s: State, run: seq<Action>, i: nat, list: seq<Trace>)
    requires Inv(s) && Runs(s, run) && i < |s.producers| && InOrder(s, i, list)
    ensures Inv(After(s, run)) && i < |After(s, run).producers| && InOrder(After(s, run), i, list)
    decreases |run|
  {
    if run != [] {
      StepKeepsOrder(s, run[0], i, list);
      RunKeepsOrder(Step(s, run[0]), run[1..], i, list);
    }
  }

  /** A prefix of a subsequence is one. */
  lemma {:induction false} SubsequencePrefix(a: seq<Trace>, c: seq<Trace>, b: seq<Trace>)
    requires Subsequence(a + c, b)
    ensures Subsequence(a, b)
    decreases |b|
  {
    if a != [] {
      if (a + c)[0] == b[0] && Subsequence((a + c)[1..], b[1..]) {
        assert (a + c)[1..] == a[1..] + c;
        SubsequencePrefix(a[1..], c, b[1..]);
      } else {
        SubsequencePrefix(a, c, b[1..]);
      }
    }
  }

  lemma {:induction false} SentByPrefix(ts: seq<Trace>, senders: seq<nat>, i: nat, k: nat) returns (rest: seq<Trace>)
    requires |senders| == |ts| && k <= |ts|
    ensures SentBy(ts, senders, i) == SentBy(ts[..k], senders[..k], i) + rest
  {
    rest := [];
    if k == |ts| {
      assert ts[..k] == ts && senders[..k] == senders;
    } else {
      var n := |ts| - 1;
      rest := SentByPrefix(ts[..n], senders[..n], i, k);
      assert ts[..n][..k] == ts[..k] && senders[..n][..k] == senders[..k];
      rest := rest + (if senders[n] == i then [ts[n]] else []);
    }
  }

  /** Over every interleaving, the writer receives the traces of each producer in the order in which
      this producer enqueued them; those missing were refused. */
  lemma ProducersKeepOrder(s: State, run: seq<Action>, i: nat)
    requires Initial(s) && Runs(s, run) && i < |s.producers|
    ensures var t := After(s, run);
            t.written <= t.accepted && |t.senders| == |t.accepted| &&
            Subsequence(SentBy(t.written, t.senders[..|t.written|], i), s.producers[i].todo)
  {
    var t, list := After(s, run), s.producers[i].todo;
    SubsequenceSelf(list);
    assert [] + Pending(s.producers[i]) == list;
    RunKeepsOrder(s, run, i, list);
    SubsequencePrefix(SentBy(t.accepted, t.senders, i), Pending(t.producers[i]), list);
    var rest := SentByPrefix(t.accepted, t.senders, i, |t.written|);
    assert t.accepted[..|t.written|] == t.written;
    SubsequencePrefix(SentBy(t.written, t.senders[..|t.written|], i), rest, list);
  }

  /** Once a call of `close` has returned, nothing is accepted any more. */
  lemma {:induction false} NothingAcceptedAfterClose(s: State, run: seq<Action>)
    requires Inv(s) && Runs(s, run) && s.phase == Finished
    ensures var t := After(s, run); t.phase == Finished && t.accepted == s.accepted && t.written == s.written
    decreases |run|
  {
    if run != [] {
      InvStep(s, run[0]);
      assert forall i :: 0 <= i < |s.producers| ==> ProducerOk(s.producers[i], s.phase);
      NothingAcceptedAfterClose(Step(s, run[0]), run[1..]);
    }
  }

  // ----- progress -----

  /** Everybody is done; the writer has stopped if anybody closed the queue. */
  predicate AllDone(s: State) {
    (forall i :: 0 <= i < |s.producers| ==> s.producers[i] == Producer([], Outside)) &&
    (forall j :: 0 <= j < |s.callers| ==> s.callers[j] == Returned) &&
    s.queue == [] && (s.callers != [] ==> s.writerDone)
  }

  lemma AllReturned(s: State)
    requires Inv(s) && forall j :: 0 <= j < |s.callers| ==> s.callers[j] == Returned
    ensures s.callers != [] ==> s.writerDone
  {
    if s.callers != [] {
      assert s.callers[0] == Returned;
    }
  }

  /** No reachable state is stuck: unless everybody is done, some step can be taken, also when the
      queue is full and `close` waits for the lock. */
  lemma NoDeadlock(s: State) returns (a: Action)
    requires Inv(s) && !AllDone(s)
    ensures Enabled(s, a)
  {
    if s.queue != [] {
      return Write;
    }
    if i :| 0 <= i < |s.producers| && s.producers[i].pc != Outside {
      assert ProducerOk(s.producers[i], s.phase);
      return Produce(i);
    }
    if s.phase == WaitingForWriter && !s.writerDone {
      return Write;
    }
    if s.phase != NotStarted && s.phase != Finished {
      return CloseBody;
    }
    if i :| 0 <= i < |s.producers| && s.producers[i].todo != [] {
      return Produce(i);
    }
    if j :| 0 <= j < |s.callers| && s.callers[j] == Before {
      return Call(j);
    }
    assert forall i :: 0 <= i < |s.producers| ==> s.producers[i] == Producer([], Outside);
    if j :| 0 <= j < |s.callers| && s.callers[j] != Returned {
      return Return(j);
    }
    AllReturned(s);
    assert false;
  }

  function ProducerWork(p: Producer): int {
    5 * |p.todo| - (match p.pc case Outside => 0 case Locked => 1 case Sending => 2 case Leaving => 4)
  }

  function ProducersWork(ps: seq<Producer>): int {
    if ps == [] then 0 else ProducerWork(ps[0]) + ProducersWork(ps[1..])
  }

  function CallerWork(c: Caller): int {
    match c case Before => 2 case Inside => 1 case Returned => 0
  }

  function CallersWork(cs: seq<Caller>): int {
    if cs == [] then 0 else CallerWork(cs[0]) + CallersWork(cs[1..])
  }

  function PhaseWork(phase: Phase): int {
    match phase
    case NotStarted => 6
    case WaitingForLock => 5
    case HoldsLock => 4
    case FlagSet => 3
    case ChannelClosed => 2
    case WaitingForWriter => 1
    case Finished => 0
  }

  /** An upper bound on the number of steps still to come. */
  function Work(s: State): int {
    ProducersWork(s.producers) + CallersWork(s.callers) + PhaseWork(s.phase) +
    |s.queue| + (if s.writerDone then 0 else 1)
  }

  lemma {:induction false} ProducersWorkUpdate(ps: seq<Producer>, i: nat, p: Producer)
    requires i < |ps|
    ensures ProducersWork(ps[i := p]) == ProducersWork(ps) - ProducerWork(ps[i]) + ProducerWork(p)
  {
    if i == 0 {
      assert ps[0 := p][1..] == ps[1..];
    } else {
      ProducersWorkUpdate(ps[1..], i - 1, p);
      assert ps[i := p][1..] == ps[1..][i - 1 := p];
    }
  }

  lemma {:induction false} CallersWorkUpdate(cs: seq<Caller>, j: nat, c: Caller)
    requires j < |cs|
    ensures CallersWork(cs[j := c]) == CallersWork(cs) - CallerWork(cs[j]) + CallerWork(c)
  {
    if j == 0 {
      assert cs[0 := c][1..] == cs[1..];
    } else {
      CallersWorkUpdate(cs[1..], j - 1, c);
      assert cs[j := c][1..] == cs[1..][j - 1 := c];
    }
  }

  lemma {:induction false} WorkIsNat(ps: seq<Producer>, phase: Phase)
    requires forall i :: 0 <= i < |ps| ==> ProducerOk(ps[i], phase)
    ensures ProducersWork(ps) >= 0
  {
    if ps != [] {
      assert ProducerOk(ps[0], phase);
      WorkIsNat(ps[1..], phase);
    }
  }

  lemma {:induction false} CallersWorkIsNat(cs: seq<Caller>)
    ensures CallersWork(cs) >= 0
  {
    if cs != [] {
      CallersWorkIsNat(cs[1..]);
    }
  }

  /** Every step is progress. */
  lemma StepDecreasesWork(s: State, a: Action)
    requires Inv(s) && Enabled(s, a)
    ensures Work(Step(s, a)) < Work(s)
  {
    match a
    case Produce(i) =>
      ProducersWorkUpdate(s.producers, i, Step(s, a).producers[i]);
    case Call(j) => CallersWorkUpdate(s.callers, j, Inside);
    case Return(j) => CallersWorkUpdate(s.callers, j, Returned);
    case CloseBody =>
    case Write =>
  }

  lemma {:induction false} RunIsBounded(s: State, run: seq<Action>)
    requires Inv(s) && Runs(s, run)
    ensures |run| <= Work(s)
    decreases |run|
  {
    WorkIsNat(s.producers, s.phase);
    CallersWorkIsNat(s.callers);
    if run != [] {
      InvStep(s, run[0]);
      StepDecreasesWork(s, run[0]);
      RunIsBounded(Step(s, run[0]), run[1..]);
    }
  }

  /** Liveness over every interleaving: no run goes on for ever, and a run that cannot be continued
      has ended well: all calls of `close` returned, and every trace was either handed to the
      writer once or refused, the latter only if the queue was closed. */
  lemma EveryRunEndsWell(s: State, run: seq<Action>)
    requires Initial(s) && Runs(s, run)
    ensures |run| <= Work(s)
    ensures var t := After(s, run);
            (forall a :: !Enabled(t, a)) ==>
              AllDone(t) && t.written == t.accepted &&
              (forall x :: Occurrences(t.written, x) + Occurrences(t.dropped, x) == AllPending(s.producers, x)) &&
              (s.callers == [] ==> t.dropped == [])
  {
    RunIsBounded(s, run);
    if forall a :: !Enabled(After(s, run), a) {
      StuckMeansDone(s, run);
    }
  }

  lemma StuckIsDone(t: State)
    requires Inv(t) && forall a :: !Enabled(t, a)
    ensures AllDone(t)
  {
    if !AllDone(t) {
      var a := NoDeadlock(t);
      assert false;
    }
  }

  lemma StuckMeansDone(s: State, run: seq<Action>)
    requires Initial(s) && Runs(s, run) && forall a :: !Enabled(After(s, run), a)
    ensures var t := After(s, run);
            AllDone(t) && t.written == t.accepted &&
            (forall x :: Occurrences(t.written, x) + Occurrences(t.dropped, x) == AllPending(s.producers, x)) &&
            (s.callers == [] ==> t.dropped == [])
  {
    var t := After(s, run);
    RunKeeps(s, run);
    CallersStay(s, run);
    StuckIsDone(t);
    assert t.written + t.queue == t.written;
    assert s.callers == [] ==> !t.flag;
    forall x
      ensures Occurrences(t.written, x) + Occurrences(t.dropped, x) == AllPending(s.producers, x)
    {
      NothingPending(t.producers, x);
      assert Everywhere(t, x) == Everywhere(s, x);
    }
  }

  lemma {:induction false} NothingPending(ps: seq<Producer>, x: Trace)
    requires forall i :: 0 <= i < |ps| ==> ps[i] == Producer([], Outside)
    ensures AllPending(ps, x) == 0
  {
    if ps != [] {
      NothingPending(ps[1..], x);
    }
  }

  lemma {:induction false} CallersStay(s: State, run: seq<Action>)
    requires Runs(s, run) && (s.callers == [] ==> s.phase == NotStarted)
    ensures var t := After(s, run); |t.callers| == |s.callers| && (t.callers == [] ==> t.phase == NotStarted)
    decreases |run|
  {
    if run != [] {
      CallersStay(Step(s, run[0]), run[1..]);
    }
  }

  // ----- closing is not overtaken -----

  /** The producers that are inside `enqueue` and may still get their trace accepted. */
  function Enqueuing(ps: seq<Producer>, flag: bool): nat {
    if ps == [] then 0
    else Enqueuing(ps[1..], flag) + May(ps[0], flag)
  }

  function May(p: Producer, flag: bool): nat {
    if p.pc == Sending || (p.pc == Locked && !flag) then 1 else 0
  }

  lemma {:induction false} EnqueuingUpdate(ps: seq<Producer>, i: nat, p: Producer, flag: bool)
    requires i < |ps|
    ensures Enqueuing(ps[i := p], flag) + May(ps[i], flag) == Enqueuing(ps, flag) + May(p, flag)
  {
    if i == 0 {
      assert ps[0 := p][1..] == ps[1..];
    } else {
      EnqueuingUpdate(ps[1..], i - 1, p, flag);
      assert ps[i := p][1..] == ps[1..][i - 1 := p];
    }
  }

  lemma {:induction false} EnqueuingWithFlag(ps: seq<Producer>)
    ensures Enqueuing(ps, true) <= Enqueuing(ps, false)
  {
    if ps != [] {
      EnqueuingWithFlag(ps[1..]);
    }
  }

  /** What has been accepted, and what may still be once `close` has been called. */
  function Committed(s: State): nat {
    |s.accepted| + Enqueuing(s.producers, s.flag)
  }

  lemma ProduceCommits(s: State, i: nat)
    requires Inv(s) && Enabled(s, Produce(i)) && s.phase != NotStarted
    ensures Committed(Step(s, Produce(i))) <= Committed(s)
  {
    var t := Step(s, Produce(i));
    assert ProducerOk(s.producers[i], s.phase);
    EnqueuingUpdate(s.producers, i, t.producers[i], s.flag);
  }

  lemma StepCommits(s: State, a: Action)
    requires Inv(s) && Enabled(s, a) && s.phase != NotStarted
    ensures Committed(Step(s, a)) <= Committed(s) && Step(s, a).phase != NotStarted
  {
    if a.Produce? {
      ProduceCommits(s, a.i);
    } else if a.CloseBody? {
      EnqueuingWithFlag(s.producers);
    }
  }

  /** Once `close` has been called, at most one more trace is accepted from every producer that was inside
      `enqueue` at that moment, and none from the others: writers that keep coming do not hold it up. */
  lemma {:induction false} CloseIsNotOvertaken(s: State, run: seq<Action>)
    requires Inv(s) && Runs(s, run) && s.phase != NotStarted
    ensures |After(s, run).accepted| <= |s.accepted| + Enqueuing(s.producers, s.flag)
    decreases |run|
  {
    if run != [] {
      InvStep(s, run[0]);
      StepCommits(s, run[0]);
      CloseIsNotOvertaken(Step(s, run[0]), run[1..]);
    }
  }

  /** A producer past the check waits exactly while the channel holds 4096 traces. */
  lemma SendWaitsIff(s: State, i: nat)
    requires Inv(s) && i < |s.producers| && s.producers[i].pc == Sending
    ensures !Enabled(s, Produce(i)) <==> |s.queue| == 4096
  {
    assert ProducerOk(s.producers[i], s.phase);
  }
}
