/**
 The lock striping of the hash map: an operation holds one of 2^c locks, chosen by its hash;
 `reserve` and `for_each` take all locks in ascending order, and only then may the table grow.

 Tables have 2^bits buckets, with bits >= c at the start. Taking or releasing a lock is one step; the
 locks of the whole table are released from the last to the first. Work under locks is one step.
 */
module StripedLocks {
  import opened Bits

  /** `reserve` looks at the bound without a lock, and decides under the first lock whether and how far to grow. */
  datatype Job = Undecided(count: nat) | Grow(count: nat, bits: nat) | Iterate

  datatype Thread =
    | Operating(hash: nat)                // holds the lock of its hash, works on the bucket of its hash
    | Locking(next: nat, job: Job)        // holds the locks below `next`
    | Working(job: Job)                   // holds all locks
    | Unlocking(left: nat)                // still holds the locks below `left`

  datatype Owner = Free | Taken(thread: nat)

  datatype State = State(bits: nat, loadFactor: nat, locks: seq<Owner>, threads: map<nat, Thread>)

  datatype Step =
    | Begin(t: nat, hash: nat)
    | End(t: nat)
    | BeginAll(t: nat, job: Job)
    | LockNext(t: nat)
    | Decide(t: nat, bits: nat)
    | GiveUp(t: nat)
    | Finish(t: nat)
    | Unlock(t: nat)

  /** `hash % ConcurrencyLevel`; see LockIsRemainder. */
  function LockOf(hash: nat, c: nat): nat { LowBits(hash, c) }

  /** The number made of the lowest c bits is the remainder modulo 2^c. */
  lemma LockIsRemainder(hash: nat, c: nat)
    ensures LockOf(hash, c) == hash % Pow2(c)
  {
    LowBitsIsRemainder(hash, c);
  }

  /** `hash & bucket_flag`. */
  function BucketOf(hash: nat, bits: nat): nat { And(hash, Pow2(bits) - 1) }

  /** `_upper_bound`: as many entries as the table takes before it grows. */
  function Bound(bits: nat, loadFactor: nat): nat { Pow2(bits) * loadFactor / 100 }

  function Init(c: nat, bits: nat, loadFactor: nat): State {
    State(bits, loadFactor, seq(Pow2(c), _ => Free), map[])
  }

  predicate Enabled(s: State, c: nat, step: Step) {
    match step
    case Begin(t, h) => t !in s.threads && LockOf(h, c) < |s.locks| && s.locks[LockOf(h, c)] == Free
    case End(t) => t in s.threads && s.threads[t].Operating? && LockOf(s.threads[t].hash, c) < |s.locks|
    case BeginAll(t, job) => t !in s.threads && !job.Grow? && (job.Undecided? ==> job.count >= Bound(s.bits, s.loadFactor))
    case LockNext(t) =>
      && t in s.threads && s.threads[t].Locking? && (s.threads[t].job.Undecided? ==> s.threads[t].next == 0)
      && (s.threads[t].next < |s.locks| ==> s.locks[s.threads[t].next] == Free)
    case Decide(t, b) =>
      && t in s.threads && s.threads[t].Locking? && s.threads[t].next == 1 && s.threads[t].job.Undecided?
      && s.threads[t].job.count >= Bound(s.bits, s.loadFactor) && b > s.bits
    case GiveUp(t) =>
      && t in s.threads && s.threads[t].Locking? && s.threads[t].next == 1 && s.threads[t].job.Undecided?
      && s.threads[t].job.count < Bound(s.bits, s.loadFactor)
    case Finish(t) => t in s.threads && s.threads[t].Working?
    case Unlock(t) => t in s.threads && s.threads[t].Unlocking? && 0 < s.threads[t].left <= |s.locks|
  }

  function Do(s: State, c: nat, step: Step): State
    requires Enabled(s, c, step)
  {
    match step
    case Begin(t, h) => s.(locks := s.locks[LockOf(h, c) := Taken(t)], threads := s.threads[t := Operating(h)])
    case End(t) => s.(locks := s.locks[LockOf(s.threads[t].hash, c) := Free], threads := s.threads - {t})
    case BeginAll(t, job) => s.(threads := s.threads[t := Locking(0, job)])
    case LockNext(t) =>
      var Locking(n, job) := s.threads[t];
      if n < |s.locks| then s.(locks := s.locks[n := Taken(t)], threads := s.threads[t := Locking(n + 1, job)])
      else s.(threads := s.threads[t := Working(job)])
    case Decide(t, b) => s.(threads := s.threads[t := Locking(1, Grow(s.threads[t].job.count, b))])
    case GiveUp(t) => s.(threads := s.threads[t := Unlocking(1)])
    case Finish(t) =>
      s.(bits := match s.threads[t].job case Grow(_, b) => b case _ => s.bits, threads := s.threads[t := Unlocking(|s.locks|)])
    case Unlock(t) =>
      var n := s.threads[t].left - 1;
      s.(locks := s.locks[n := Free], threads := if n == 0 then s.threads - {t} else s.threads[t := Unlocking(n)])
  }

  datatype Outcome = Stuck | Reached(state: State)

  function Exec(c: nat, bits: nat, lf: nat, steps: seq<Step>): Outcome {
    if steps == [] then Reached(Init(c, bits, lf))
    else
      match Exec(c, bits, lf, steps[..|steps| - 1])
      case Stuck => Stuck
      case Reached(s) => if Enabled(s, c, steps[|steps| - 1]) then Reached(Do(s, c, steps[|steps| - 1])) else Stuck
  }

  predicate HoldsLock(th: Thread, c: nat, i: nat) {
    match th
    case Operating(h) => LockOf(h, c) == i
    case Locking(n, _) => i < n
    case Working(_) => true
    case Unlocking(n) => i < n
  }

  ghost predicate Inv(s: State, c: nat) {
    && s.bits >= c
    && |s.locks| == Pow2(c)
    && (forall t :: t in s.threads && s.threads[t].Locking? ==>
          s.threads[t].next <= |s.locks| && (s.threads[t].job.Undecided? ==> s.threads[t].next <= 1))
    && (forall t :: t in s.threads && (s.threads[t].Locking? || s.threads[t].Working?) && s.threads[t].job.Grow? ==>
          && s.threads[t].job.bits > s.bits && s.threads[t].job.count >= Bound(s.bits, s.loadFactor)
          && HoldsLock(s.threads[t], c, 0))
    && (forall t :: t in s.threads && s.threads[t].Unlocking? ==> 1 <= s.threads[t].left <= |s.locks|)
    && (forall i :: 0 <= i < |s.locks| && s.locks[i].Taken? ==>
          s.locks[i].thread in s.threads && HoldsLock(s.threads[s.locks[i].thread], c, i))
    && (forall i, t :: 0 <= i < |s.locks| && t in s.threads && HoldsLock(s.threads[t], c, i) ==> s.locks[i] == Taken(t))
  }

  lemma FinishKeepsInv(s: State, c: nat, t: nat)
    requires Inv(s, c) && Enabled(s, c, Finish(t))
    ensures Inv(Do(s, c, Finish(t)), c)
  {
    forall i | 0 <= i < |s.locks| ensures s.locks[i] == Taken(t) {
      assert HoldsLock(s.threads[t], c, i);
    }
    forall u, i | u in s.threads && u != t && 0 <= i < |s.locks| ensures !HoldsLock(s.threads[u], c, i) {
      assert s.locks[i] == Taken(t);
    }
  }

  lemma OperationKeepsInv(s: State, c: nat, step: Step)
    requires Inv(s, c) && Enabled(s, c, step) && (step.Begin? || step.End?)
    ensures Inv(Do(s, c, step), c)
  {
    var s' := Do(s, c, step);
    if step.End? {
      var j := LockOf(s.threads[step.t].hash, c);
      assert HoldsLock(s.threads[step.t], c, j) && s.locks[j] == Taken(step.t);
    }
    forall i, t | 0 <= i < |s'.locks| && t in s'.threads && HoldsLock(s'.threads[t], c, i)
      ensures s'.locks[i] == Taken(t)
    {
      if t != step.t { assert HoldsLock(s.threads[t], c, i) && s.locks[i] == Taken(t); }
    }
  }

  lemma LockingKeepsInv(s: State, c: nat, step: Step)
    requires Inv(s, c) && Enabled(s, c, step) && (step.BeginAll? || step.LockNext? || step.Decide? || step.GiveUp?)
    ensures Inv(Do(s, c, step), c)
  {
    var s' := Do(s, c, step);
    forall i, t | 0 <= i < |s'.locks| && t in s'.threads && HoldsLock(s'.threads[t], c, i)
      ensures s'.locks[i] == Taken(t)
    {
      if t in s.threads && HoldsLock(s.threads[t], c, i) { assert s.locks[i] == Taken(t); }
    }
  }

  lemma UnlockKeepsInv(s: State, c: nat, t: nat)
    requires Inv(s, c) && Enabled(s, c, Unlock(t))
    ensures Inv(Do(s, c, Unlock(t)), c)
  {
    var s', n := Do(s, c, Unlock(t)), s.threads[t].left - 1;
    assert HoldsLock(s.threads[t], c, n) && s.locks[n] == Taken(t);
    forall i, u | 0 <= i < |s'.locks| && u in s'.threads && HoldsLock(s'.threads[u], c, i)
      ensures s'.locks[i] == Taken(u)
    {
      assert HoldsLock(s.threads[u], c, i) && s.locks[i] == Taken(u);
    }
  }

  lemma StepKeepsInv(s: State, c: nat, step: Step)
    requires Inv(s, c) && Enabled(s, c, step)
    ensures Inv(Do(s, c, step), c)
  {
    if step.Finish? {
      FinishKeepsInv(s, c, step.t);
    } else if step.Unlock? {
      UnlockKeepsInv(s, c, step.t);
    } else if step.Begin? || step.End? {
      OperationKeepsInv(s, c, step);
    } else {
      LockingKeepsInv(s, c, step);
    }
  }

  lemma {:induction false} ExecInv(c: nat, bits: nat, lf: nat, steps: seq<Step>)
    requires bits >= c && Exec(c, bits, lf, steps).Reached?
    ensures Inv(Exec(c, bits, lf, steps).state, c)
  {
    if steps != [] {
      ExecInv(c, bits, lf, steps[..|steps| - 1]);
      StepKeepsInv(Exec(c, bits, lf, steps[..|steps| - 1]).state, c, steps[|steps| - 1]);
    }
  }

  /** Two hashes that select the same bucket select the same lock. */
  lemma SameBucketSameLock(h1: nat, h2: nat, c: nat, bits: nat)
    requires c <= bits && BucketOf(h1, bits) == BucketOf(h2, bits)
    ensures LockOf(h1, c) == LockOf(h2, c)
  {
    AndLowMask(h1, bits);
    AndLowMask(h2, bits);
    LowBitsOfLowBits(h1, c, bits);
    LowBitsOfLowBits(h2, c, bits);
  }

  /** With fewer buckets than locks, a bucket has more than one lock. */
  lemma {:induction false} FewBucketsManyLocks(c: nat, bits: nat)
    requires bits < c
    ensures BucketOf(0, bits) == BucketOf(Pow2(bits), bits) && LockOf(0, c) != LockOf(Pow2(bits), c)
  {
    AndLowMask(0, bits);
    AndLowMask(Pow2(bits), bits);
    PowerHasNoLowBits(bits);
    LowBitsOfSmall(0, bits);
    LowBitsOfSmall(0, c);
    Pow2Grows(bits + 1, c);
    LowBitsOfSmall(Pow2(bits), c);
  }

  lemma {:induction false} PowerHasNoLowBits(k: nat)
    ensures LowBits(Pow2(k), k) == 0
  {
    if k > 0 {
      PowerHasNoLowBits(k - 1);
    }
  }

  /** Buckets have one lock each exactly if there are at least as many buckets as locks. */
  lemma OneLockPerBucketIff(c: nat, bits: nat)
    ensures OneLockPerBucket(c, bits) <==> c <= bits
  {
    if c <= bits {
      forall h1, h2 | BucketOf(h1, bits) == BucketOf(h2, bits) ensures LockOf(h1, c) == LockOf(h2, c) {
        SameBucketSameLock(h1, h2, c, bits);
      }
    } else {
      FewBucketsManyLocks(c, bits);
    }
  }

  ghost predicate OneLockPerBucket(c: nat, bits: nat) {
    forall h1: nat, h2: nat :: BucketOf(h1, bits) == BucketOf(h2, bits) ==> LockOf(h1, c) == LockOf(h2, c)
  }

  // What holds of every run

  /** No two threads work on the same bucket of the table. */
  lemma OneWriterPerBucket(c: nat, bits: nat, lf: nat, steps: seq<Step>, t: nat, u: nat)
    requires bits >= c && Exec(c, bits, lf, steps).Reached? && t != u
    requires t in Exec(c, bits, lf, steps).state.threads && Exec(c, bits, lf, steps).state.threads[t].Operating?
    requires u in Exec(c, bits, lf, steps).state.threads && Exec(c, bits, lf, steps).state.threads[u].Operating?
    ensures var s := Exec(c, bits, lf, steps).state;
            BucketOf(s.threads[t].hash, s.bits) != BucketOf(s.threads[u].hash, s.bits)
  {
    ExecInv(c, bits, lf, steps);
    var s := Exec(c, bits, lf, steps).state;
    var h, g := s.threads[t].hash, s.threads[u].hash;
    assert s.locks[LockOf(h, c)] == Taken(t) && s.locks[LockOf(g, c)] == Taken(u);
    if BucketOf(h, s.bits) == BucketOf(g, s.bits) {
      SameBucketSameLock(h, g, c, s.bits);
    }
  }

  /** While one thread works on the whole table, no other thread is inside an operation. */
  lemma WorkerIsAlone(c: nat, bits: nat, lf: nat, steps: seq<Step>, t: nat, u: nat)
    requires bits >= c && Exec(c, bits, lf, steps).Reached? && t != u
    requires t in Exec(c, bits, lf, steps).state.threads && Exec(c, bits, lf, steps).state.threads[t].Working?
    requires u in Exec(c, bits, lf, steps).state.threads
    ensures Exec(c, bits, lf, steps).state.threads[u].Locking? && Exec(c, bits, lf, steps).state.threads[u].next == 0
  {
    ExecInv(c, bits, lf, steps);
    var s := Exec(c, bits, lf, steps).state;
    forall i | 0 <= i < |s.locks| ensures s.locks[i] == Taken(t) && !HoldsLock(s.threads[u], c, i) {
      assert HoldsLock(s.threads[t], c, i);
    }
    assert !HoldsLock(s.threads[u], c, 0);
    assert s.threads[u].Operating? ==> !HoldsLock(s.threads[u], c, LockOf(s.threads[u].hash, c));
  }

  predicate CanMove(s: State, c: nat, t: nat) {
    || Enabled(s, c, End(t)) || Enabled(s, c, LockNext(t)) || Enabled(s, c, GiveUp(t)) || Enabled(s, c, Decide(t, s.bits + 1))
    || Enabled(s, c, Finish(t)) || Enabled(s, c, Unlock(t))
  }

  lemma SomebodyCanMove(s: State, c: nat)
    requires Inv(s, c) && s.threads != map[]
    ensures exists t :: t in s.threads && CanMove(s, c, t)
  {
    if s.locks[0] == Free {
      // nobody holds lock 0, so an active thread is operating or about to take lock 0
      var t :| t in s.threads;
      assert !HoldsLock(s.threads[t], c, 0);
      assert CanMove(s, c, t);
    } else {
      var u := s.locks[0].thread;
      if s.threads[u].Locking? && !s.threads[u].job.Undecided? && s.threads[u].next < |s.locks| && s.locks[s.threads[u].next] != Free {
        // the holder of the next lock is operating: anybody else would hold lock 0 too
        var v := s.locks[s.threads[u].next].thread;
        assert !HoldsLock(s.threads[v], c, 0);
        assert CanMove(s, c, v);
      } else {
        assert CanMove(s, c, u);
      }
    }
  }

  /** The ascending order rules out deadlock: whoever is active, somebody active can take a step. */
  lemma NoDeadlock(c: nat, bits: nat, lf: nat, steps: seq<Step>)
    requires bits >= c && Exec(c, bits, lf, steps).Reached? && Exec(c, bits, lf, steps).state.threads != map[]
    ensures exists t :: t in Exec(c, bits, lf, steps).state.threads && CanMove(Exec(c, bits, lf, steps).state, c, t)
  {
    ExecInv(c, bits, lf, steps);
    SomebodyCanMove(Exec(c, bits, lf, steps).state, c);
  }

  /** Under lock 0 a `reserve` gives up exactly if the table, as it is then, has room for what it asked for; otherwise it grows it. */
  lemma ReserveDecides(c: nat, bits: nat, lf: nat, steps: seq<Step>, t: nat)
    requires bits >= c && Exec(c, bits, lf, steps).Reached? && t in Exec(c, bits, lf, steps).state.threads
    requires var th := Exec(c, bits, lf, steps).state.threads[t]; th.Locking? && th.next == 1 && th.job.Undecided?
    ensures var s := Exec(c, bits, lf, steps).state; var count := s.threads[t].job.count;
            && (Enabled(s, c, GiveUp(t)) <==> count < Pow2(s.bits) * lf / 100)
            && (Enabled(s, c, Decide(t, s.bits + 1)) <==> !Enabled(s, c, GiveUp(t)))
  {
    LoadFactorIsFixed(c, bits, lf, steps);
  }

  lemma {:induction false} LoadFactorIsFixed(c: nat, bits: nat, lf: nat, steps: seq<Step>)
    requires Exec(c, bits, lf, steps).Reached?
    ensures Exec(c, bits, lf, steps).state.loadFactor == lf
  {
    if steps != [] {
      LoadFactorIsFixed(c, bits, lf, steps[..|steps| - 1]);
    }
  }

  /**
   A table only grows, and the test under lock 0 means that it grows only when the entries asked for
   have reached its bound, whatever other threads did since the first test. A finished resize leaves
   the table at the size that was decided.
   */
  lemma TablesGrow(c: nat, bits: nat, lf: nat, steps: seq<Step>, step: Step)
    requires bits >= c && Exec(c, bits, lf, steps).Reached? && Enabled(Exec(c, bits, lf, steps).state, c, step)
    ensures var s := Exec(c, bits, lf, steps).state; var s' := Do(s, c, step);
            && s'.bits >= s.bits
            && (step.Finish? && s.threads[step.t].job.Grow? ==> s'.bits == s.threads[step.t].job.bits > s.bits)
            && (s'.bits > s.bits ==>
                  step.Finish? && s.threads[step.t].job.Grow? && s.threads[step.t].job.count >= Bound(s.bits, s.loadFactor))
  {
    ExecInv(c, bits, lf, steps);
  }
}
