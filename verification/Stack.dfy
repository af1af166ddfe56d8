/**
 The lock-free bounded stack: a pair of heads swapped as one 64-bit word, slots reserved by
 advancing the write head and published in order by advancing the read head.

 Calls are numbered and a number is never used again; each load, store and compare-and-swap is
 one step. The capacity fits the 32-bit heads.
 */
module Stack {

  datatype Head = Head(r: nat, w: nat)

  datatype Call<T> =
    | PushStart(elem: T)
    | PushReserve(elem: T, head: Head)
    | PushStore(elem: T, slot: nat, head: Head)
    | PushWait(elem: T, slot: nat, head: Head)
    | PushPublish(elem: T, slot: nat, head: Head)
    | PushDone(ok: bool)
    | PopStart
    | PopRead(head: Head, since: nat)
    | PopSwap(head: Head, value: T, since: nat)
    | PopDone(result: T)
    | PopEmpty

  /**
   The rest is history: `inflight` lists the calls between reservation and publication in
   reservation order, `content` is the abstract stack, `pushes` and `pops` count its changes. A
   pop remembers in `since` how many pops were committed when it loaded the head.
   */
  datatype State<T> = State(
    vec: seq<T>,
    head: Head,
    calls: map<nat, Call<T>>,
    inflight: seq<nat>,
    content: seq<T>,
    pushes: nat,
    pops: nat)

  datatype Step<T> = Push(call: nat, elem: T) | Pop(call: nat) | Run(call: nat)

  function Init<T>(vec: seq<T>): State<T> {
    State(vec, Head(0, 0), map[], [], [], 0, 0)
  }

  predicate Finished<T>(c: Call<T>) { c.PushDone? || c.PopDone? || c.PopEmpty? }

  predicate Enabled<T>(s: State<T>, step: Step<T>) {
    match step
    case Push(c, _) => c !in s.calls
    case Pop(c) => c !in s.calls
    case Run(c) =>
      && c in s.calls && !Finished(s.calls[c])
      && (s.calls[c].PushStore? ==> s.calls[c].slot < |s.vec|)
      && (s.calls[c].PopRead? ==> 0 < s.calls[c].head.r <= |s.vec|)
  }

  function Do<T>(s: State<T>, step: Step<T>): State<T>
    requires Enabled(s, step)
  {
    match step
    case Push(c, x) => s.(calls := s.calls[c := PushStart(x)])
    case Pop(c) => s.(calls := s.calls[c := PopStart])
    case Run(c) => if IsPush(s.calls[c]) then DoPush(s, c) else DoPop(s, c)
  }

  predicate IsPush<T>(c: Call<T>) {
    c.PushStart? || c.PushReserve? || c.PushStore? || c.PushWait? || c.PushPublish?
  }

  function DoPush<T>(s: State<T>, c: nat): State<T>
    requires Enabled(s, Run(c))
  {
    match s.calls[c]
    case PushStart(x) => s.(calls := s.calls[c := PushReserve(x, s.head)])
    case PushReserve(x, h) =>
      if h.w == |s.vec| then s.(calls := s.calls[c := PushDone(false)])
      else if s.head == h then
        s.(head := Head(h.r, h.w + 1), calls := s.calls[c := PushStore(x, h.w, h)], inflight := s.inflight + [c])
      else s.(calls := s.calls[c := PushReserve(x, s.head)])
    case PushStore(x, w, h) => s.(vec := s.vec[w := x], calls := s.calls[c := PushWait(x, w, h)])
    case PushWait(x, w, h) =>
      s.(calls := s.calls[c := if h.r != w then PushWait(x, w, s.head) else PushPublish(x, w, h)])
    case PushPublish(x, w, h) =>
      if s.head == h then
        s.(head := Head(w + 1, h.w), calls := s.calls[c := PushDone(true)],
           inflight := if s.inflight != [] then s.inflight[1..] else [],
           content := s.content + [x], pushes := s.pushes + 1)
      else s.(calls := s.calls[c := PushPublish(x, w, s.head)])
    case _ => s
  }

  function DoPop<T>(s: State<T>, c: nat): State<T>
    requires Enabled(s, Run(c))
  {
    match s.calls[c]
    case PopStart =>
      if s.head.w != s.head.r then s
      else s.(calls := s.calls[c := if s.head.r == 0 then PopEmpty else PopRead(s.head, s.pops)])
    case PopRead(h, since) => s.(calls := s.calls[c := PopSwap(h, s.vec[h.r - 1], since)])
    case PopSwap(h, v, _) =>
      if s.head == h && h.r > 0 && h.w > 0 then
        s.(head := Head(h.r - 1, h.w - 1), calls := s.calls[c := PopDone(v)],
           content := if s.content != [] then s.content[..|s.content| - 1] else [], pops := s.pops + 1)
      else s.(calls := s.calls[c := PopStart])
    case _ => s
  }

  datatype Outcome<T> = Stuck | Reached(state: State<T>)

  function Exec<T>(vec: seq<T>, steps: seq<Step<T>>): Outcome<T> {
    if steps == [] then Reached(Init(vec))
    else
      match Exec(vec, steps[..|steps| - 1])
      case Stuck => Stuck
      case Reached(s) => if Enabled(s, steps[|steps| - 1]) then Reached(Do(s, steps[|steps| - 1])) else Stuck
  }

  // The invariant

  predicate InFlight<T>(c: Call<T>) { c.PushStore? || c.PushWait? || c.PushPublish? }

  ghost predicate CallOk<T>(s: State<T>, c: nat)
    requires c in s.calls
  {
    var call := s.calls[c];
    && (InFlight(call) ==>
          && s.head.r <= call.slot < s.head.w
          && call.slot - s.head.r < |s.inflight|
          && s.inflight[call.slot - s.head.r] == c
          && (call.head.r == call.slot ==> s.head.r == call.slot))
    && (call.PushWait? || call.PushPublish? ==> call.slot < |s.vec| && s.vec[call.slot] == call.elem)
    && (call.PushPublish? ==> call.head.r == call.slot)
    && (call.PushReserve? ==> call.head.w <= |s.vec|)
    && (call.PopRead? || call.PopSwap? ==> PopOk(s, call))
  }

  /** While no other pop was committed, the value a pop has read is the one below its head. */
  ghost predicate PopOk<T>(s: State<T>, call: Call<T>)
    requires call.PopRead? || call.PopSwap?
  {
    var r := call.head.r;
    && 0 < r == call.head.w <= |s.vec|
    && call.since <= s.pops
    && (call.since == s.pops ==> r <= s.head.r && (call.PopSwap? ==> s.vec[r - 1] == call.value))
  }

  ghost predicate CallsOk<T>(s: State<T>) {
    forall c :: c in s.calls ==> CallOk(s, c)
  }

  ghost predicate ShapeOk<T>(s: State<T>) {
    && s.head.r <= s.head.w <= |s.vec|
    && |s.inflight| == s.head.w - s.head.r
    && (forall i :: 0 <= i < |s.inflight| ==>
          s.inflight[i] in s.calls && InFlight(s.calls[s.inflight[i]]) && s.calls[s.inflight[i]].slot == s.head.r + i)
    && s.content == s.vec[..s.head.r]
    && s.pushes == s.head.r + s.pops
  }

  ghost predicate Inv<T>(s: State<T>) {
    ShapeOk(s) && CallsOk(s)
  }

  /** A call that only moves on: nothing shared changes, and it neither starts nor ends being in flight. */
  lemma MoveKeepsInv<T>(s: State<T>, c: nat, call: Call<T>)
    requires Inv(s)
    requires InFlight(call) ==> c in s.calls && InFlight(s.calls[c]) && call.slot == s.calls[c].slot
    requires c in s.calls && InFlight(s.calls[c]) ==> InFlight(call)
    requires CallOk(s.(calls := s.calls[c := call]), c)
    ensures Inv(s.(calls := s.calls[c := call]))
  {
    var s' := s.(calls := s.calls[c := call]);
    forall d | d in s'.calls && d != c ensures CallOk(s', d) { assert CallOk(s, d); }
  }

  predicate Commits<T>(s: State<T>, c: nat)
    requires Enabled(s, Run(c))
  {
    match s.calls[c]
    case PushReserve(_, h) => h.w != |s.vec| && s.head == h
    case PushStore(_, _, _) => true
    case PushPublish(_, _, h) => s.head == h
    case PopSwap(h, _, _) => s.head == h && h.r > 0 && h.w > 0
    case _ => false
  }

  lemma QuietPushKeepsInv<T>(s: State<T>, c: nat)
    requires Inv(s) && Enabled(s, Run(c)) && !Commits(s, c) && IsPush(s.calls[c])
    ensures Inv(Do(s, Run(c)))
  {
    assert CallOk(s, c);
    MoveKeepsInv(s, c, DoPush(s, c).calls[c]);
  }

  lemma QuietPopKeepsInv<T>(s: State<T>, c: nat)
    requires Inv(s) && Enabled(s, Run(c)) && !Commits(s, c) && !IsPush(s.calls[c])
    ensures Inv(Do(s, Run(c)))
  {
    assert CallOk(s, c);
    MoveKeepsInv(s, c, DoPop(s, c).calls[c]);
  }

  lemma ReserveKeepsInv<T>(s: State<T>, c: nat)
    requires Inv(s) && Enabled(s, Run(c)) && s.calls[c].PushReserve? && Commits(s, c)
    ensures ShapeOk(Do(s, Run(c)))
    ensures CallsOk(Do(s, Run(c)))
  {
    var s' := Do(s, Run(c));
    assert CallOk(s, c);
    forall d | d in s'.calls ensures CallOk(s', d) { assert CallOk(s, d); }
  }

  lemma StoreKeepsShape<T>(s: State<T>, c: nat)
    requires Inv(s) && Enabled(s, Run(c)) && s.calls[c].PushStore?
    ensures ShapeOk(Do(s, Run(c)))
  {
    assert CallOk(s, c);
  }

  lemma StoreKeepsCalls<T>(s: State<T>, c: nat)
    requires Inv(s) && Enabled(s, Run(c)) && s.calls[c].PushStore?
    ensures CallsOk(Do(s, Run(c)))
  {
    var s' := Do(s, Run(c));
    assert CallOk(s, c);
    forall d | d in s'.calls ensures CallOk(s', d) { assert CallOk(s, d); }
  }

  /** The call that publishes is the one that reserved first. */
  lemma PublisherIsFirst<T>(s: State<T>, c: nat)
    requires Inv(s) && c in s.calls && s.calls[c].PushPublish?
    ensures s.calls[c].slot == s.head.r && s.inflight != [] && s.inflight[0] == c
  {
    assert CallOk(s, c);
  }

  lemma PublishKeepsCalls<T>(s: State<T>, c: nat)
    requires Inv(s) && Enabled(s, Run(c)) && s.calls[c].PushPublish? && Commits(s, c)
    ensures CallsOk(Do(s, Run(c)))
  {
    PublisherIsFirst(s, c);
    var s' := Do(s, Run(c));
    forall d | d in s'.calls ensures CallOk(s', d) { assert CallOk(s, d); }
  }

  lemma PublishKeepsShape<T>(s: State<T>, c: nat)
    requires Inv(s) && Enabled(s, Run(c)) && s.calls[c].PushPublish? && Commits(s, c)
    ensures ShapeOk(Do(s, Run(c)))
  {
    PublisherIsFirst(s, c);
    assert CallOk(s, c);
    var w := s.head.r;
    assert s.vec[..w + 1] == s.vec[..w] + [s.vec[w]];
    forall i | 0 <= i < |s.inflight| - 1 ensures s.inflight[1..][i] == s.inflight[i + 1] {}
  }

  lemma CommitKeepsInv<T>(s: State<T>, c: nat)
    requires Inv(s) && Enabled(s, Run(c)) && s.calls[c].PopSwap? && Commits(s, c)
    ensures Inv(Do(s, Run(c)))
  {
    var s' := Do(s, Run(c));
    assert CallOk(s, c);
    forall d | d in s'.calls ensures CallOk(s', d) { assert CallOk(s, d); }
  }

  lemma StepKeepsInv<T>(s: State<T>, step: Step<T>)
    requires Inv(s) && Enabled(s, step)
    ensures Inv(Do(s, step))
  {
    match step
    case Push(c, x) => MoveKeepsInv(s, c, PushStart(x));
    case Pop(c) => MoveKeepsInv(s, c, PopStart);
    case Run(c) =>
      if !Commits(s, c) && IsPush(s.calls[c]) { QuietPushKeepsInv(s, c); }
      else if !Commits(s, c) { QuietPopKeepsInv(s, c); }
      else if s.calls[c].PushReserve? { ReserveKeepsInv(s, c); }
      else if s.calls[c].PushStore? { StoreKeepsShape(s, c); StoreKeepsCalls(s, c); }
      else if s.calls[c].PushPublish? { PublishKeepsCalls(s, c); PublishKeepsShape(s, c); }
      else { CommitKeepsInv(s, c); }
  }

  lemma {:induction false} ExecInv<T>(vec: seq<T>, steps: seq<Step<T>>)
    requires Exec(vec, steps).Reached?
    ensures Inv(Exec(vec, steps).state) && |Exec(vec, steps).state.vec| == |vec|
  {
    if steps != [] {
      ExecInv(vec, steps[..|steps| - 1]);
      StepKeepsInv(Exec(vec, steps[..|steps| - 1]).state, steps[|steps| - 1]);
    }
  }

  // What holds of every run

  /** The slots between the heads belong to the pushes in flight, one each, in reservation order. */
  ghost predicate SlotsOwned<T>(s: State<T>) {
    && s.head.r <= s.head.w <= |s.vec|
    && |s.inflight| == s.head.w - s.head.r
    && (forall c :: c in s.calls && InFlight(s.calls[c]) ==>
          s.head.r <= s.calls[c].slot < s.head.w && s.inflight[s.calls[c].slot - s.head.r] == c)
    && (forall i :: 0 <= i < |s.inflight| ==>
          s.inflight[i] in s.calls && InFlight(s.calls[s.inflight[i]]) && s.calls[s.inflight[i]].slot == s.head.r + i)
  }

  lemma InvOwnsSlots<T>(s: State<T>)
    requires Inv(s)
    ensures SlotsOwned(s) && s.head.r + s.pops == s.pushes
  {
    forall c | c in s.calls && InFlight(s.calls[c])
      ensures s.head.r <= s.calls[c].slot < s.head.w && s.inflight[s.calls[c].slot - s.head.r] == c
    {
      assert CallOk(s, c);
    }
  }

  /**
   The heads stay in order and below the capacity, the slots between them have one owner each, and
   `size` counts published pushes minus successful pops.
   */
  lemma HeadsAndSlots<T>(vec: seq<T>, steps: seq<Step<T>>)
    requires Exec(vec, steps).Reached?
    ensures var s := Exec(vec, steps).state;
            SlotsOwned(s) && s.head.w <= |vec| && s.head.r + s.pops == s.pushes
  {
    ExecInv(vec, steps);
    InvOwnsSlots(Exec(vec, steps).state);
  }

  predicate Publication<T>(s: State<T>, step: Step<T>)
    requires Enabled(s, step)
  {
    step.Run? && s.calls[step.call].PushPublish? && Do(s, step).calls[step.call].PushDone?
  }

  predicate Removal<T>(s: State<T>, step: Step<T>)
    requires Enabled(s, step)
  {
    step.Run? && Do(s, step).calls[step.call].PopDone?
  }

  ghost predicate StackOperation<T>(s: State<T>, step: Step<T>, s': State<T>)
    requires Enabled(s, step) && s' == Do(s, step)
  {
    var c := step.call;
    && s'.head.r <= |s'.vec| && s'.content == s'.vec[..s'.head.r]
    && (Publication(s, step) ==> s'.content == s.content + [s.calls[c].elem] && s.inflight == [c] + s'.inflight)
    && (Removal(s, step) ==>
          && s.inflight == [] == s'.inflight
          && s.content != [] && s'.content == s.content[..|s.content| - 1])
    && (!Publication(s, step) && !Removal(s, step) ==> s'.content == s.content)
    && (step.Run? && s'.calls[c].PopEmpty? ==> s.content == [])
  }

  lemma PushStepIsStackOperation<T>(s: State<T>, c: nat)
    requires Inv(s) && Enabled(s, Run(c)) && IsPush(s.calls[c]) && Inv(Do(s, Run(c)))
    ensures StackOperation(s, Run(c), Do(s, Run(c)))
  {
    assert CallOk(s, c);
    match s.calls[c]
    case PushPublish(_, _, _) => PublisherIsFirst(s, c);
    case PushStore(_, w, _) => assert s.vec[w := s.calls[c].elem][..s.head.r] == s.vec[..s.head.r];
    case _ =>
  }

  lemma PopStepIsStackOperation<T>(s: State<T>, c: nat)
    requires Inv(s) && Enabled(s, Run(c)) && !IsPush(s.calls[c]) && Inv(Do(s, Run(c)))
    ensures StackOperation(s, Run(c), Do(s, Run(c)))
  {
    assert CallOk(s, c);
  }

  lemma StepIsStackOperation<T>(s: State<T>, step: Step<T>)
    requires Inv(s) && Enabled(s, step)
    ensures StackOperation(s, step, Do(s, step))
  {
    StepKeepsInv(s, step);
    match step
    case Run(c) => if IsPush(s.calls[c]) { PushStepIsStackOperation(s, c); } else { PopStepIsStackOperation(s, c); }
    case _ =>
  }

  /**
   Every step of every run changes the abstract stack as its call says: a publication pushes the
   element of the call that reserved first, a committed pop drops the top while no push is in
   flight, a pop that reports empty saw the stack empty, and no other step changes anything.
   */
  lemma StepsAreStackOperations<T>(vec: seq<T>, steps: seq<Step<T>>, step: Step<T>)
    requires Exec(vec, steps).Reached? && Enabled(Exec(vec, steps).state, step)
    ensures StackOperation(Exec(vec, steps).state, step, Do(Exec(vec, steps).state, step))
  {
    ExecInv(vec, steps);
    StepIsStackOperation(Exec(vec, steps).state, step);
  }

  /** The head that a push holds for its reservation was the head at some point of the run, while the push was under way. */
  ghost predicate WasLoaded<T>(vec: seq<T>, steps: seq<Step<T>>, c: nat, h: Head) {
    exists i :: 0 <= i <= |steps| && HeadAt(vec, steps, i, c, h)
  }

  ghost predicate HeadAt<T>(vec: seq<T>, steps: seq<Step<T>>, i: nat, c: nat, h: Head)
    requires i <= |steps|
  {
    var o := Exec(vec, steps[..i]);
    o.Reached? && o.state.head == h && c in o.state.calls && IsPush(o.state.calls[c])
  }

  lemma LoadedBefore<T>(vec: seq<T>, steps: seq<Step<T>>, c: nat, h: Head)
    requires steps != [] && WasLoaded(vec, steps[..|steps| - 1], c, h)
    ensures WasLoaded(vec, steps, c, h)
  {
    var before := steps[..|steps| - 1];
    var i :| 0 <= i <= |before| && HeadAt(vec, before, i, c, h);
    assert before[..i] == steps[..i];
    assert HeadAt(vec, steps, i, c, h);
  }

  lemma {:induction false} ReservationHeadWasLoaded<T>(vec: seq<T>, steps: seq<Step<T>>, c: nat)
    requires Exec(vec, steps).Reached? && c in Exec(vec, steps).state.calls && Exec(vec, steps).state.calls[c].PushReserve?
    ensures WasLoaded(vec, steps, c, Exec(vec, steps).state.calls[c].head)
  {
    var before, step := steps[..|steps| - 1], steps[|steps| - 1];
    var s, s' := Exec(vec, before).state, Exec(vec, steps).state;
    if c in s.calls && s.calls[c] == s'.calls[c] {
      ReservationHeadWasLoaded(vec, before, c);
      LoadedBefore(vec, steps, c, s.calls[c].head);
    } else {
      assert steps[..|steps|] == steps;
      assert HeadAt(vec, steps, |steps|, c, s'.head);
    }
  }

  lemma FailureIsOfReservation<T>(s: State<T>, step: Step<T>, c: nat)
    requires Enabled(s, step) && c in Do(s, step).calls && Do(s, step).calls[c] == PushDone(false)
    requires c in s.calls ==> s.calls[c] != PushDone(false)
    ensures c in s.calls && s.calls[c].PushReserve? && s.calls[c].head.w == |s.vec|
  {
  }

  /** A push that reports failure found the stack fully reserved: the write head was at the capacity while it was under way. */
  lemma {:induction false} FailedPushSawFull<T>(vec: seq<T>, steps: seq<Step<T>>, c: nat)
    requires Exec(vec, steps).Reached? && c in Exec(vec, steps).state.calls && Exec(vec, steps).state.calls[c] == PushDone(false)
    ensures exists h: Head :: h.w == |vec| && WasLoaded(vec, steps, c, h)
  {
    var before := steps[..|steps| - 1];
    var s := Exec(vec, before).state;
    if c in s.calls && s.calls[c] == PushDone(false) {
      FailedPushSawFull(vec, before, c);
      var h: Head :| h.w == |vec| && WasLoaded(vec, before, c, h);
      LoadedBefore(vec, steps, c, h);
    } else {
      ExecInv(vec, before);
      FailureIsOfReservation(s, steps[|steps| - 1], c);
      ReservationHeadWasLoaded(vec, before, c);
      LoadedBefore(vec, steps, c, s.calls[c].head);
    }
  }

  /** A push gives up exactly if the head it loaded was at the capacity. */
  lemma PushFailsIff<T>(vec: seq<T>, steps: seq<Step<T>>, c: nat)
    requires Exec(vec, steps).Reached? && Enabled(Exec(vec, steps).state, Run(c)) && IsPush(Exec(vec, steps).state.calls[c])
    ensures var s := Exec(vec, steps).state;
            Do(s, Run(c)).calls[c] == PushDone(false) <==> s.calls[c].PushReserve? && s.calls[c].head.w == |vec|
  {
    ExecInv(vec, steps);
  }

  /** A pop returns the top of the stack unless another pop was committed since it loaded the head. */
  lemma PopReturnsTop<T>(vec: seq<T>, steps: seq<Step<T>>, c: nat)
    requires Exec(vec, steps).Reached? && Enabled(Exec(vec, steps).state, Run(c))
    requires Removal(Exec(vec, steps).state, Run(c))
    requires Exec(vec, steps).state.calls[c].PopSwap? && Exec(vec, steps).state.calls[c].since == Exec(vec, steps).state.pops
    ensures var s := Exec(vec, steps).state;
            s.content != [] && Do(s, Run(c)).calls[c].result == s.content[|s.content| - 1]
  {
    ExecInv(vec, steps);
    assert CallOk(Exec(vec, steps).state, c);
  }

  predicate Popping<T>(c: Call<T>) { c.PopStart? || c.PopRead? || c.PopSwap? }

  ghost predicate AtMostOnePop<T>(s: State<T>) {
    forall c, d :: c in s.calls && d in s.calls && Popping(s.calls[c]) && Popping(s.calls[d]) ==> c == d
  }

  /** Throughout the run at most one pop is under way. */
  ghost predicate OnePopper<T>(vec: seq<T>, steps: seq<Step<T>>) {
    forall i :: 0 <= i <= |steps| && Exec(vec, steps[..i]).Reached? ==> AtMostOnePop(Exec(vec, steps[..i]).state)
  }

  ghost predicate Reading<T>(s: State<T>, c: nat) {
    c in s.calls && (s.calls[c].PopRead? || s.calls[c].PopSwap?)
  }

  /** A step commits no pop behind the back of the only pop. */
  lemma OnlyPopCommits<T>(s: State<T>, step: Step<T>, c: nat)
    requires Enabled(s, step) && AtMostOnePop(s) && Reading(Do(s, step), c)
    requires Reading(s, c) ==> s.calls[c].since == s.pops
    ensures Do(s, step).calls[c].since == Do(s, step).pops
  {
  }

  lemma {:induction false} OnePopperSeesNoOther<T>(vec: seq<T>, steps: seq<Step<T>>, c: nat)
    requires OnePopper(vec, steps) && Exec(vec, steps).Reached? && Reading(Exec(vec, steps).state, c)
    ensures Exec(vec, steps).state.calls[c].since == Exec(vec, steps).state.pops
  {
    var before, step := steps[..|steps| - 1], steps[|steps| - 1];
    var s := Exec(vec, before).state;
    assert OnePopper(vec, before) by {
      forall i | 0 <= i <= |before| ensures before[..i] == steps[..i] {}
    }
    assert before == before[..|before|];
    assert AtMostOnePop(s);
    if Reading(s, c) {
      OnePopperSeesNoOther(vec, before, c);
    }
    OnlyPopCommits(s, step, c);
  }

  /** With a single popping thread every successful pop returns the newest published element. */
  lemma SinglePopperIsLifo<T>(vec: seq<T>, steps: seq<Step<T>>, c: nat)
    requires OnePopper(vec, steps) && Exec(vec, steps).Reached? && Enabled(Exec(vec, steps).state, Run(c))
    requires Removal(Exec(vec, steps).state, Run(c))
    ensures var s := Exec(vec, steps).state;
            s.content != [] && Do(s, Run(c)).calls[c].result == s.content[|s.content| - 1]
  {
    OnePopperSeesNoOther(vec, steps, c);
    PopReturnsTop(vec, steps, c);
  }

  lemma Extend<T>(vec: seq<T>, steps: seq<Step<T>>, s: State<T>, step: Step<T>) returns (steps': seq<Step<T>>, s': State<T>)
    requires Exec(vec, steps) == Reached(s) && Enabled(s, step)
    ensures steps' == steps + [step] && s' == Do(s, step) && Exec(vec, steps') == Reached(s')
  {
    steps', s' := steps + [step], Do(s, step);
    assert steps'[..|steps'| - 1] == steps;
  }

  /** An undisturbed push reserves its slot and stores its element. */
  lemma SoloStore<T>(vec: seq<T>, steps: seq<Step<T>>, s: State<T>, c: nat, x: T) returns (steps': seq<Step<T>>, s': State<T>)
    requires Exec(vec, steps) == Reached(s) && s.head.r == s.head.w < |s.vec| && c !in s.calls
    ensures Exec(vec, steps') == Reached(s')
    ensures s' == s.(vec := s.vec[s.head.r := x], head := Head(s.head.r, s.head.r + 1),
                     calls := s.calls[c := PushWait(x, s.head.r, s.head)], inflight := s.inflight + [c])
  {
    steps', s' := Extend(vec, steps, s, Push(c, x));
    steps', s' := Extend(vec, steps', s', Run(c));
    steps', s' := Extend(vec, steps', s', Run(c));
    steps', s' := Extend(vec, steps', s', Run(c));
  }

  /** Then it publishes the slot. */
  lemma SoloPush<T>(vec: seq<T>, steps: seq<Step<T>>, s: State<T>, c: nat, x: T) returns (steps': seq<Step<T>>, s': State<T>)
    requires Exec(vec, steps) == Reached(s) && s.head.r == s.head.w < |s.vec| && c !in s.calls
    ensures Exec(vec, steps') == Reached(s')
    ensures s'.head == Head(s.head.r + 1, s.head.r + 1) && s'.vec == s.vec[s.head.r := x]
    ensures s'.calls == s.calls[c := PushDone(true)] && s'.content == s.content + [x] && s'.pops == s.pops
  {
    steps', s' := SoloStore(vec, steps, s, c, x);
    steps', s' := Extend(vec, steps', s', Run(c));
    steps', s' := Extend(vec, steps', s', Run(c));
    steps', s' := Extend(vec, steps', s', Run(c));
  }

  /** The load and the read of a pop. */
  lemma HalfPop<T>(vec: seq<T>, steps: seq<Step<T>>, s: State<T>, c: nat) returns (steps': seq<Step<T>>, s': State<T>)
    requires Exec(vec, steps) == Reached(s) && 0 < s.head.r == s.head.w <= |s.vec| && c !in s.calls
    ensures Exec(vec, steps') == Reached(s')
    ensures s' == s.(calls := s.calls[c := PopSwap(s.head, s.vec[s.head.r - 1], s.pops)])
  {
    steps', s' := Extend(vec, steps, s, Pop(c));
    steps', s' := Extend(vec, steps', s', Run(c));
    steps', s' := Extend(vec, steps', s', Run(c));
  }

  /** With two popping threads a pop can return an element that was popped before, and lose the top. */
  lemma TwoPoppersCanRepeat(first: int, second: int)
    requires first != second
    ensures exists vec: seq<int>, steps: seq<Step<int>>, c: nat ::
              && Exec(vec, steps).Reached? && Enabled(Exec(vec, steps).state, Run(c))
              && Removal(Exec(vec, steps).state, Run(c))
              && Exec(vec, steps).state.content == [second]
              && Do(Exec(vec, steps).state, Run(c)).calls[c].result == first
  {
    var vec := [0];
    var steps, s := SoloPush(vec, [], Init(vec), 0, first);
    steps, s := HalfPop(vec, steps, s, 1);
    steps, s := HalfPop(vec, steps, s, 2);
    steps, s := Extend(vec, steps, s, Run(2));
    assert s.content == [];
    steps, s := SoloPush(vec, steps, s, 3, second);
    assert Do(s, Run(1)).calls[1].result == first;
  }
}
