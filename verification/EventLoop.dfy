/**
 The task queue of an event processor: producers enqueue through the ring and then signal an
 eventfd if the poll thread may be asleep; the poll thread announces that it will sleep, polls
 once more and waits in epoll.

 The eventfd is a counter together with the edge-triggered readiness epoll keeps for it. Other
 pollers of the same processor may wake the thread at any time.
 */
module EventLoop {
  import opened Ring

  /** A producer after its item is published: it loads the flag and perhaps writes the eventfd. */
  datatype Post = LoadFlag | WriteEvent

  datatype Pc =
    | Between                 // outside poll, in a round of doPoll
    | Polling(last: bool)     // inside poll; `last` for the call made by prepareSleep
    | Sleeping                // in epoll_wait
    | ClearFlag               // in wakeup, before the store
    | DrainEvent              // in wakeup, before the read of the eventfd

  datatype Loop<V> = Loop(
    ring: State<V>,
    sleeping: bool,
    counter: nat,
    ready: bool,
    post: map<nat, Post>,
    pc: Pc)

  datatype LoopStep<V> =
    | Produce(step: Step<V>)   // a step of `write`
    | CheckFlag(pos: nat)
    | Signal(pos: nat)
    | StartPoll
    | PollStep
    | PrepareSleep
    | EventWake                // epoll_wait reports the eventfd
    | OtherWake                // epoll_wait reports something else only
    | Wakeup

  function Start<V>(slots: seq<Slot<V>>): Loop<V> {
    Loop(Init(slots), false, 0, false, map[], Between)
  }

  predicate LoopEnabled<V>(s: Loop<V>, step: LoopStep<V>) {
    match step
    case Produce(r) => (r.Claim? || r.CheckFull? || r.Construct? || r.Publish?) && Enabled(s.ring, r)
    case CheckFlag(p) => p in s.post && s.post[p].LoadFlag?
    case Signal(p) => p in s.post && s.post[p].WriteEvent?
    case StartPoll => s.pc.Between?
    case PollStep => s.pc.Polling? && (s.ring.consumer.Idle? || Enabled(s.ring, Consume))
    case PrepareSleep => s.pc.Between?
    case EventWake => s.pc.Sleeping? && s.ready && s.counter > 0
    case OtherWake => s.pc.Sleeping?
    case Wakeup => s.pc.ClearFlag? || s.pc.DrainEvent?
  }

  function LoopDo<V>(s: Loop<V>, step: LoopStep<V>): Loop<V>
    requires LoopEnabled(s, step)
  {
    match step
    case Produce(r) =>
      var s' := s.(ring := Do(s.ring, r));
      if r.Publish? then s'.(post := s.post[r.pos := LoadFlag]) else s'
    case CheckFlag(p) => s.(post := if s.sleeping then s.post[p := WriteEvent] else s.post - {p})
    case Signal(p) => s.(counter := s.counter + 1, ready := true, post := s.post - {p})
    case StartPoll => s.(pc := Polling(false))
    case PollStep => DoPollStep(s)
    case PrepareSleep => s.(sleeping := true, pc := if s.sleeping then Sleeping else Polling(true))
    case EventWake => s.(ready := false, pc := ClearFlag)
    case OtherWake => s.(pc := Between)
    case Wakeup =>
      if s.pc.ClearFlag? then s.(sleeping := false, pc := DrainEvent) else s.(counter := 0, pc := Between)
  }

  /** One step of `while (mTaskQueue.read(fun))`; a read that fails ends the call of `poll`. */
  function DoPollStep<V>(s: Loop<V>): Loop<V>
    requires LoopEnabled(s, PollStep)
  {
    if s.ring.consumer.Idle? then
      s.(ring := Do(s.ring, StartRead))
    else
      var ring := Do(s.ring, Consume);
      if ring.consumer.Idle? && !s.ring.consumer.Store? then
        s.(ring := ring, pc := if s.pc.last then Sleeping else Between)
      else
        s.(ring := ring)
  }

  datatype LoopOutcome<V> = LoopStuck | LoopReached(state: Loop<V>)

  function LoopExec<V>(slots: seq<Slot<V>>, steps: seq<LoopStep<V>>): LoopOutcome<V> {
    if steps == [] then LoopReached(Start(slots))
    else
      match LoopExec(slots, steps[..|steps| - 1])
      case LoopStuck => LoopStuck
      case LoopReached(s) =>
        if LoopEnabled(s, steps[|steps| - 1]) then LoopReached(LoopDo(s, steps[|steps| - 1])) else LoopStuck
  }

  // The invariant

  /** The slot of the next position to consume is valid. */
  predicate NextIsValid<V>(r: State<V>) {
    |r.slots| > 0 && r.slots[Index(Base(r), |r.slots|)].valid
  }

  predicate MidRead<V>(r: State<V>) {
    r.consumer.Take? || r.consumer.Store?
  }

  /** The eventfd is signalled, or a producer has yet to look at the flag or to signal. */
  predicate Covered<V>(s: Loop<V>) {
    (s.ready && s.counter > 0) || s.post.Keys != {}
  }

  ghost predicate LoopInv<V>(s: Loop<V>) {
    && Inv(s.ring)
    && !s.ring.consumer.BatchCheck? && !s.ring.consumer.BatchClear? && !s.ring.consumer.BatchTake? && !s.ring.consumer.BatchStore?
    && (!s.pc.Polling? ==> s.ring.consumer.Idle?)
    && (s.pc.Sleeping? || s.pc.ClearFlag? || s.pc == Polling(true) ==> s.sleeping)
    && (s.pc.DrainEvent? ==> !s.sleeping)
    && (s.sleeping && !s.pc.ClearFlag? && s.pc != Polling(true) && (NextIsValid(s.ring) || MidRead(s.ring)) ==> Covered(s))
  }

  lemma ProduceKeepsLoopInv<V>(s: Loop<V>, r: Step<V>)
    requires LoopInv(s) && LoopEnabled(s, Produce(r))
    ensures LoopInv(LoopDo(s, Produce(r)))
  {
    StepKeepsInv(s.ring, r);
    if r.Publish? {
      assert r.pos in LoopDo(s, Produce(r)).post.Keys;
    }
  }

  lemma SignalKeepsLoopInv<V>(s: Loop<V>, step: LoopStep<V>)
    requires LoopInv(s) && LoopEnabled(s, step) && (step.CheckFlag? || step.Signal?)
    ensures LoopInv(LoopDo(s, step))
  {
    if step.CheckFlag? && s.sleeping {
      assert step.pos in LoopDo(s, step).post.Keys;
    }
  }

  lemma StartReadKeepsLoopInv<V>(s: Loop<V>)
    requires LoopInv(s) && LoopEnabled(s, PollStep) && s.ring.consumer.Idle?
    ensures LoopInv(LoopDo(s, PollStep))
  {
    StepKeepsInv(s.ring, StartRead);
  }

  /** A read fails only if the next position is not published; that is when the thread may sleep. */
  lemma FailedReadSawNothing<V>(r: State<V>)
    requires Inv(r) && Enabled(r, Consume) && (r.consumer.CheckInsert? || r.consumer.CheckValid?)
    requires Do(r, Consume).consumer.Idle?
    ensures !NextIsValid(Do(r, Consume))
  {
  }

  lemma ReadKeepsLoopInv<V>(s: Loop<V>)
    requires LoopInv(s) && LoopEnabled(s, PollStep) && !s.ring.consumer.Idle?
    ensures LoopInv(LoopDo(s, PollStep))
  {
    StepKeepsInv(s.ring, Consume);
    var r' := Do(s.ring, Consume);
    if r'.consumer.Idle? && !s.ring.consumer.Store? {
      FailedReadSawNothing(s.ring);
    }
  }

  lemma SleepKeepsLoopInv<V>(s: Loop<V>, step: LoopStep<V>)
    requires LoopInv(s) && LoopEnabled(s, step)
    requires step.StartPoll? || step.PrepareSleep? || step.EventWake? || step.OtherWake? || step.Wakeup?
    ensures LoopInv(LoopDo(s, step))
  {
  }

  lemma {:induction false} LoopExecInv<V>(slots: seq<Slot<V>>, steps: seq<LoopStep<V>>)
    requires Empty(slots) && LoopExec(slots, steps).LoopReached?
    ensures LoopInv(LoopExec(slots, steps).state)
  {
    if steps == [] {
      InitInv(slots);
    } else {
      LoopExecInv(slots, steps[..|steps| - 1]);
      var s, step := LoopExec(slots, steps[..|steps| - 1]).state, steps[|steps| - 1];
      match step
      case Produce(r) => ProduceKeepsLoopInv(s, r);
      case CheckFlag(_) => SignalKeepsLoopInv(s, step);
      case Signal(_) => SignalKeepsLoopInv(s, step);
      case PollStep => if s.ring.consumer.Idle? { StartReadKeepsLoopInv(s); } else { ReadKeepsLoopInv(s); }
      case _ => SleepKeepsLoopInv(s, step);
    }
  }

  // What holds of every run

  /**
   No lost wakeup: whenever the poll thread sleeps although the next position is published, epoll
   reports the eventfd at once, after one signal, or after one flag load and one signal, whatever
   the order in which positions were published.
   */
  lemma NoLostWakeup<V>(slots: seq<Slot<V>>, steps: seq<LoopStep<V>>)
    requires Empty(slots) && LoopExec(slots, steps).LoopReached?
    requires LoopExec(slots, steps).state.pc.Sleeping? && NextIsValid(LoopExec(slots, steps).state.ring)
    ensures var s := LoopExec(slots, steps).state;
            || LoopEnabled(s, EventWake)
            || (exists p :: LoopEnabled(s, Signal(p)) && LoopEnabled(LoopDo(s, Signal(p)), EventWake))
            || (exists p :: LoopEnabled(s, CheckFlag(p)) && LoopEnabled(LoopDo(s, CheckFlag(p)), Signal(p)) &&
                            LoopEnabled(LoopDo(LoopDo(s, CheckFlag(p)), Signal(p)), EventWake))
  {
    LoopExecInv(slots, steps);
    var s := LoopExec(slots, steps).state;
    if !LoopEnabled(s, EventWake) {
      var p :| p in s.post.Keys;
      assert LoopEnabled(s, if s.post[p].LoadFlag? then CheckFlag(p) else Signal(p));
    }
  }

  /** The tasks run are the first tasks enqueued, in the order in which their positions were claimed. */
  lemma TasksRunInOrder<V>(slots: seq<Slot<V>>, steps: seq<LoopStep<V>>)
    requires Empty(slots) && LoopExec(slots, steps).LoopReached?
    ensures LoopExec(slots, steps).state.ring.out <= LoopExec(slots, steps).state.ring.claims
  {
    LoopExecInv(slots, steps);
  }

  /** Once set, the sleeping flag stays set until the eventfd itself wakes the thread. */
  lemma {:induction false} FlagStaysSet<V>(slots: seq<Slot<V>>, steps: seq<LoopStep<V>>, i: nat)
    requires LoopExec(slots, steps).LoopReached? && i < |steps| && steps[i].PrepareSleep?
    requires forall j :: i < j < |steps| ==> !steps[j].EventWake?
    ensures var s := LoopExec(slots, steps).state; s.sleeping && !s.pc.ClearFlag? && !s.pc.DrainEvent?
  {
    if i < |steps| - 1 {
      FlagStaysSet(slots, steps[..|steps| - 1], i);
    }
  }

  /** While the poll thread has never prepared to sleep, no producer signals. */
  lemma {:induction false} AwakeMeansNoSignal<V>(slots: seq<Slot<V>>, steps: seq<LoopStep<V>>)
    requires LoopExec(slots, steps).LoopReached? && forall step :: step in steps ==> !step.PrepareSleep?
    ensures var s := LoopExec(slots, steps).state;
            !s.sleeping && s.counter == 0 && !s.ready && !s.pc.Sleeping? && s.pc != Polling(true)
            && !s.pc.ClearFlag? && !s.pc.DrainEvent? && forall p :: p in s.post ==> s.post[p].LoadFlag?
  {
    if steps != [] {
      assert steps[|steps| - 1] in steps;
      AwakeMeansNoSignal(slots, steps[..|steps| - 1]);
    }
  }
}
