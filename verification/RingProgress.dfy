/**
 Progress of the ring and of the event loop on it: which producers are let in, that a write and a read
 finish, and that a sleeping poll thread wakes up and runs the next task. The runs are continuations of
 any run of the modules Ring and EventLoop.
 */
module RingProgress {
  import opened Ring
  import opened EventLoop

  // Who is let in

  lemma GrantIff<V>(s: State<V>, p: nat)
    requires Inv(s) && p in s.pending && s.pending[p].Waiting?
    ensures Enabled(s, CheckFull(p))
    ensures p in Do(s, CheckFull(p)).pending
    ensures Do(s, CheckFull(p)).pending[p].Granted? <==> p < Base(s) + |s.slots| - 1
  {
    assert Distance(p, s.consumed) == p - Base(s) + 1;
  }

  /** While no read is under way, a waiting producer is let in exactly if its position is among the next QueueSize - 1. */
  lemma GrantedIff<V>(slots: seq<Slot<V>>, steps: seq<Step<V>>, p: nat)
    requires Empty(slots) && Exec(slots, steps).Reached? && Exec(slots, steps).state.consumer.Idle?
    requires p in Exec(slots, steps).state.pending && Exec(slots, steps).state.pending[p].Waiting?
    ensures var s := Exec(slots, steps).state;
            && Enabled(s, CheckFull(p)) && p in Do(s, CheckFull(p)).pending
            && (Do(s, CheckFull(p)).pending[p].Granted? <==> p < |s.out| + |slots| - 1)
  {
    ExecInv(slots, steps);
    GrantIff(Exec(slots, steps).state, p);
  }

  predicate OfProducer<V>(step: Step<V>) {
    step.Claim? || step.CheckFull? || step.Construct? || step.Publish?
  }

  lemma {:induction false} NothingConsumed<V>(slots: seq<Slot<V>>, steps: seq<Step<V>>)
    requires Exec(slots, steps).Reached? && forall step :: step in steps ==> OfProducer(step)
    ensures var s := Exec(slots, steps).state; s.consumer.Idle? && s.out == [] && s.consumed == WORD - 1
  {
    if steps != [] {
      assert steps[|steps| - 1] in steps;
      NothingConsumed(slots, steps[..|steps| - 1]);
    }
  }

  /** Before anything is consumed, exactly the first QueueSize - 1 positions are let in. */
  lemma FirstPositions<V>(slots: seq<Slot<V>>, steps: seq<Step<V>>, p: nat)
    requires Empty(slots) && Exec(slots, steps).Reached? && forall step :: step in steps ==> OfProducer(step)
    requires p < Exec(slots, steps).state.insert
    ensures var s := Exec(slots, steps).state;
            && (p !in s.pending || !s.pending[p].Waiting? ==> p < |slots| - 1)
            && (p in s.pending && s.pending[p].Waiting? ==>
                  Enabled(s, CheckFull(p)) && p in Do(s, CheckFull(p)).pending
                  && (Do(s, CheckFull(p)).pending[p].Granted? <==> p < |slots| - 1))
  {
    ExecInv(slots, steps);
    NothingConsumed(slots, steps);
    var s := Exec(slots, steps).state;
    if p in s.pending && s.pending[p].Waiting? {
      GrantedIff(slots, steps, p);
    }
  }

  // A write and a read finish

  lemma Extend<V>(slots: seq<Slot<V>>, steps: seq<Step<V>>, s: State<V>, step: Step<V>) returns (steps': seq<Step<V>>, s': State<V>)
    requires Exec(slots, steps) == Reached(s) && Enabled(s, step)
    ensures steps' == steps + [step] && s' == Do(s, step) && Exec(slots, steps') == Reached(s')
  {
    steps', s' := steps + [step], Do(s, step);
    assert steps'[..|steps'| - 1] == steps;
  }

  function WriteStepsLeft(phase: Phase): nat {
    match phase
    case Waiting => 3
    case Granted => 2
    case Written => 1
  }

  function WriteStep<V>(p: nat, phase: Phase): Step<V> {
    match phase
    case Waiting => CheckFull(p)
    case Granted => Construct(p)
    case Written => Publish(p)
  }

  lemma WriterStep<V>(s: State<V>, p: nat)
    requires Inv(s) && p in s.pending && p < Base(s) + |s.slots| - 1
    ensures Enabled(s, WriteStep(p, s.pending[p]))
    ensures var s' := Do(s, WriteStep(p, s.pending[p]));
            && s'.consumer == s.consumer && s'.out == s.out && s'.claims == s.claims && s'.insert == s.insert && s'.consumed == s.consumed
            && |s'.slots| == |s.slots|
            && (if s.pending[p].Written? then s'.pending == s.pending - {p}
                else p in s'.pending && WriteStepsLeft(s'.pending[p]) < WriteStepsLeft(s.pending[p]) && s'.pending == s.pending[p := s'.pending[p]])
  {
    if s.pending[p].Waiting? {
      GrantIff(s, p);
    }
  }

  /** A producer with room publishes its item by at most three steps of its own. */
  lemma {:induction false} WriterFinishes<V>(slots: seq<Slot<V>>, steps: seq<Step<V>>, s: State<V>, p: nat)
    returns (steps': seq<Step<V>>, s': State<V>)
    requires Empty(slots) && Exec(slots, steps) == Reached(s) && p in s.pending && p < Base(s) + |slots| - 1
    ensures Exec(slots, steps') == Reached(s') && |steps'| <= |steps| + WriteStepsLeft(s.pending[p])
    ensures s'.pending == s.pending - {p} && s'.claims == s.claims && s'.insert == s.insert && s'.out == s.out && s'.consumer == s.consumer
    ensures Ring.Published(s', p)
    decreases WriteStepsLeft(s.pending[p])
  {
    ExecInv(slots, steps);
    WriterStep(s, p);
    steps', s' := Extend(slots, steps, s, WriteStep(p, s.pending[p]));
    if p in s'.pending {
      var s1 := s';
      steps', s' := WriterFinishes(slots, steps', s', p);
      assert s.pending[p := s1.pending[p]] - {p} == s.pending - {p};
    }
  }

  function ReadStepsLeft(c: Consumer): nat {
    match c
    case CheckInsert(_) => 5
    case CheckValid(_) => 4
    case Clear(_) => 3
    case Take(_) => 2
    case Store(_) => 1
    case _ => 0
  }

  lemma ReaderStep<V>(s: State<V>)
    requires Inv(s) && WillSucceed(s)
    ensures Enabled(s, Consume)
    ensures var s' := Do(s, Consume);
            && s'.claims == s.claims && ReadStepsLeft(s'.consumer) < ReadStepsLeft(s.consumer)
            && s'.out == (if s.consumer.Take? then s.claims[..|s.out| + 1] else s.out)
            && |s.out| + (if s.consumer.Take? then 1 else 0) <= |s.claims|
            && (if s.consumer.Store? then s'.consumer.Idle? else WillSucceed(s'))
            && (s'.consumer.Store? <==> s.consumer.Take?)
  {
    ReadGoesOn(s);
  }

  /** A `read` that found its item published ends with that item, by at most five steps of its own. */
  lemma {:induction false} ReaderFinishes<V>(slots: seq<Slot<V>>, steps: seq<Step<V>>, s: State<V>)
    returns (steps': seq<Step<V>>, s': State<V>)
    requires Empty(slots) && Exec(slots, steps) == Reached(s) && WillSucceed(s)
    ensures Exec(slots, steps') == Reached(s') && |steps'| <= |steps| + ReadStepsLeft(s.consumer) && s'.consumer.Idle? && s'.claims == s.claims
    ensures |s'.out| == |s.out| + (if s.consumer.Store? then 0 else 1) && s'.out <= s'.claims
    decreases ReadStepsLeft(s.consumer)
  {
    ExecInv(slots, steps);
    ReaderStep(s);
    steps', s' := Extend(slots, steps, s, Consume);
    if !s.consumer.Store? {
      steps', s' := ReaderFinishes(slots, steps', s');
    }
    ExecInv(slots, steps');
  }

  predicate InBatch(c: Consumer) { c.BatchCheck? || c.BatchClear? || c.BatchTake? || c.BatchStore? }

  function Room(c: Consumer): nat {
    if c.BatchCheck? || c.BatchClear? || c.BatchTake? then c.room else 0
  }

  /** At most four steps for every item that can still be taken, and four to stop. */
  function BatchStepsLeft<V>(s: State<V>): int {
    4 * (s.insert - |s.out|) + match s.consumer case BatchCheck(_, _, _) => 4 case BatchClear(_, _, _) => 3 case BatchTake(_, _, _) => 2 case _ => 1
  }

  lemma BatchStep<V>(s: State<V>)
    requires Inv(s) && InBatch(s.consumer)
    ensures Enabled(s, Consume) && BatchStepsLeft(s) >= 1
    ensures var s' := Do(s, Consume);
            && s'.claims == s.claims && s'.insert == s.insert && s'.pending == s.pending
            && (if s.consumer.BatchStore? then s'.consumer.Idle? && s'.out == s.out
                else InBatch(s'.consumer) && BatchStepsLeft(s') < BatchStepsLeft(s))
            && |s'.out| == |s.out| + (if s.consumer.BatchTake? then 1 else 0)
            && (s.consumer.BatchTake? ==> Room(s.consumer) > 0 && Room(s'.consumer) == Room(s.consumer) - 1)
            && (s.consumer.BatchClear? ==> Room(s'.consumer) == Room(s.consumer))
            && (s.consumer.BatchCheck? && s'.consumer.BatchClear? ==> Room(s'.consumer) == Room(s.consumer))
            && (s.consumer.BatchCheck? && s'.consumer.BatchStore? ==> Room(s.consumer) == 0 || !Ring.Published(s, |s.out|))
  {
    if s.consumer.BatchCheck? {
      BatchCheckIff(s);
    }
  }

  /** A `readMultiple` that runs alone takes items until its output is full or the next position is not published. */
  lemma {:induction false} BatchFinishes<V>(slots: seq<Slot<V>>, steps: seq<Step<V>>, s: State<V>) returns (steps': seq<Step<V>>, s': State<V>)
    requires Empty(slots) && Exec(slots, steps) == Reached(s) && InBatch(s.consumer)
    ensures Exec(slots, steps') == Reached(s') && s'.consumer.Idle? && s'.claims == s.claims
    ensures |s'.out| >= |s.out|
    ensures !s.consumer.BatchStore? ==>
              |s'.out| - |s.out| == Room(s.consumer) || (|s'.out| - |s.out| < Room(s.consumer) && !Ring.Published(s', |s'.out|))
    ensures s.consumer.BatchStore? ==> s'.out == s.out && s'.pending == s.pending && s'.insert == s.insert
    decreases BatchStepsLeft(s)
  {
    ExecInv(slots, steps);
    BatchStep(s);
    steps', s' := Extend(slots, steps, s, Consume);
    if !s.consumer.BatchStore? {
      steps', s' := BatchFinishes(slots, steps', s');
    }
  }

  /** On an empty ring, a write followed by a read gives the value back. */
  lemma WriteThenRead<V>(slots: seq<Slot<V>>, steps: seq<Step<V>>, s: State<V>, v: V) returns (steps': seq<Step<V>>, s': State<V>)
    requires Empty(slots) && Exec(slots, steps) == Reached(s) && s.consumer.Idle? && s.insert == |s.out| && s.insert + 1 < WORD
    ensures Exec(slots, steps') == Reached(s') && s'.consumer.Idle? && s'.out == s.out + [v] && s'.claims == s.claims + [v]
  {
    ExecInv(slots, steps);
    steps', s' := Extend(slots, steps, s, Claim(v));
    steps', s' := WriterFinishes(slots, steps', s', s.insert);
    steps', s' := Extend(slots, steps', s', StartRead);
    steps', s' := ReaderFinishes(slots, steps', s');
    assert s'.out == s'.claims[..|s.out| + 1];
  }

  // The event loop

  lemma LoopExtend<V>(slots: seq<Slot<V>>, steps: seq<LoopStep<V>>, s: Loop<V>, step: LoopStep<V>) returns (steps': seq<LoopStep<V>>, s': Loop<V>)
    requires LoopExec(slots, steps) == LoopReached(s) && LoopEnabled(s, step)
    ensures steps' == steps + [step] && s' == LoopDo(s, step) && LoopExec(slots, steps') == LoopReached(s')
  {
    steps', s' := steps + [step], LoopDo(s, step);
    assert steps'[..|steps'| - 1] == steps;
  }

  /** Inside `poll`, a read that found its item published runs to its end. */
  lemma {:induction false} PollReads<V>(slots: seq<Slot<V>>, steps: seq<LoopStep<V>>, s: Loop<V>) returns (steps': seq<LoopStep<V>>, s': Loop<V>)
    requires Empty(slots) && LoopExec(slots, steps) == LoopReached(s) && s.pc.Polling? && WillSucceed(s.ring)
    ensures LoopExec(slots, steps') == LoopReached(s') && s'.pc == s.pc && s'.ring.consumer.Idle? && s'.ring.claims == s.ring.claims
    ensures |s'.ring.out| == |s.ring.out| + if s.ring.consumer.Store? then 0 else 1
    decreases ReadStepsLeft(s.ring.consumer)
  {
    LoopExecInv(slots, steps);
    ReaderStep(s.ring);
    steps', s' := LoopExtend(slots, steps, s, PollStep);
    if !s.ring.consumer.Store? {
      steps', s' := PollReads(slots, steps', s');
    }
  }

  /** Between two polls, a published next task is run by the next call of `poll`. */
  lemma RunsNextTask<V>(slots: seq<Slot<V>>, steps: seq<LoopStep<V>>, s: Loop<V>) returns (steps': seq<LoopStep<V>>, s': Loop<V>)
    requires Empty(slots) && LoopExec(slots, steps) == LoopReached(s) && s.pc.Between? && NextIsValid(s.ring)
    ensures LoopExec(slots, steps') == LoopReached(s') && s'.ring.claims == s.ring.claims
    ensures |s'.ring.out| == |s.ring.out| + 1 && s'.ring.out <= s'.ring.claims
  {
    LoopExecInv(slots, steps);
    NextIsValidIff(s.ring);
    steps', s' := LoopExtend(slots, steps, s, StartPoll);
    steps', s' := LoopExtend(slots, steps', s', PollStep);
    steps', s' := PollReads(slots, steps', s');
    TasksRunInOrder(slots, steps');
  }

  /** A poll thread that sleeps although a task is published is woken by the producers alone. */
  lemma WakesUp<V>(slots: seq<Slot<V>>, steps: seq<LoopStep<V>>, s: Loop<V>) returns (steps': seq<LoopStep<V>>, s': Loop<V>)
    requires Empty(slots) && LoopExec(slots, steps) == LoopReached(s) && s.pc.Sleeping? && NextIsValid(s.ring)
    ensures LoopExec(slots, steps') == LoopReached(s') && s'.pc.Between? && s'.ring == s.ring && !s'.sleeping
    ensures |steps'| <= |steps| + 5
  {
    NoLostWakeup(slots, steps);
    steps', s' := steps, s;
    if !LoopEnabled(s, EventWake) {
      if p :| LoopEnabled(s, Signal(p)) && LoopEnabled(LoopDo(s, Signal(p)), EventWake) {
        steps', s' := LoopExtend(slots, steps', s', Signal(p));
      } else {
        var p :| LoopEnabled(s, CheckFlag(p)) && LoopEnabled(LoopDo(s, CheckFlag(p)), Signal(p)) &&
                 LoopEnabled(LoopDo(LoopDo(s, CheckFlag(p)), Signal(p)), EventWake);
        steps', s' := LoopExtend(slots, steps', s', CheckFlag(p));
        steps', s' := LoopExtend(slots, steps', s', Signal(p));
      }
    }
    steps', s' := LoopExtend(slots, steps', s', EventWake);
    steps', s' := LoopExtend(slots, steps', s', Wakeup);
    steps', s' := LoopExtend(slots, steps', s', Wakeup);
  }

  /** From sleep to the task: a published task is run after the wakeup. */
  lemma WakesAndRuns<V>(slots: seq<Slot<V>>, steps: seq<LoopStep<V>>, s: Loop<V>) returns (steps': seq<LoopStep<V>>, s': Loop<V>)
    requires Empty(slots) && LoopExec(slots, steps) == LoopReached(s) && s.pc.Sleeping? && NextIsValid(s.ring)
    ensures LoopExec(slots, steps') == LoopReached(s') && s'.ring.claims == s.ring.claims
    ensures |s'.ring.out| == |s.ring.out| + 1 && s'.ring.out <= s'.ring.claims
  {
    steps', s' := WakesUp(slots, steps, s);
    steps', s' := RunsNextTask(slots, steps', s');
  }

  /** With nothing published, the poll thread falls asleep, with its flag set. */
  lemma FallsAsleep<V>(slots: seq<Slot<V>>, steps: seq<LoopStep<V>>, s: Loop<V>) returns (steps': seq<LoopStep<V>>, s': Loop<V>)
    requires Empty(slots) && LoopExec(slots, steps) == LoopReached(s) && s.pc.Between? && !NextIsValid(s.ring)
    ensures LoopExec(slots, steps') == LoopReached(s') && s'.pc.Sleeping? && s'.sleeping && s'.ring.out == s.ring.out
    ensures |steps'| <= |steps| + 4
  {
    LoopExecInv(slots, steps);
    steps', s' := LoopExtend(slots, steps, s, PrepareSleep);
    if s'.pc.Polling? {
      steps', s' := LoopExtend(slots, steps', s', PollStep);
      steps', s' := LoopExtend(slots, steps', s', PollStep);
      if s'.pc.Polling? {
        steps', s' := LoopExtend(slots, steps', s', PollStep);
      }
    }
  }
}
