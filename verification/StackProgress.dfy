/**
 Progress of the lock-free stack: pushes in flight can finish in the order of their reservations, and
 then a pop gets the newest element. The runs are continuations of any run of the module Stack.
 */
module StackProgress {
  import opened Stack

  /** How many steps of its own the first push in flight needs. */
  function StepsLeft<T>(call: Call<T>, head: Head): nat
    requires InFlight(call)
  {
    match call
    case PushStore(_, _, _) => 5
    case PushWait(_, w, h) => if h.r != w then 4 else 3
    case PushPublish(_, _, h) => if h != head then 2 else 1
  }

  /** Only the call itself changed, and the element it stores. */
  ghost predicate OnlyCall<T>(s: State<T>, s': State<T>, c: nat) {
    && c in s.calls && c in s'.calls && s'.calls == s.calls[c := s'.calls[c]]
    && s'.head == s.head && s'.inflight == s.inflight && s'.content == s.content && s'.pops == s.pops && |s'.vec| == |s.vec|
  }

  /** The call is done: its element is on top, and the others are as they were. */
  ghost predicate Published<T>(s: State<T>, s': State<T>, c: nat, x: T) {
    && s.inflight != [] && s'.inflight == s.inflight[1..] && s'.calls == s.calls[c := PushDone(true)]
    && s'.content == s.content + [x] && s'.head == Head(s.head.r + 1, s.head.w) && s'.pops == s.pops && |s'.vec| == |s.vec|
  }

  lemma FirstStep<T>(s: State<T>)
    requires Inv(s) && s.inflight != []
    ensures var c := s.inflight[0];
            && c in s.calls && InFlight(s.calls[c]) && Enabled(s, Run(c))
            && var s' := Do(s, Run(c)); var n := StepsLeft(s.calls[c], s.head);
            if n == 1 then Published(s, s', c, s.calls[c].elem)
            else OnlyCall(s, s', c) && InFlight(s'.calls[c]) && s'.calls[c].elem == s.calls[c].elem && StepsLeft(s'.calls[c], s'.head) < n
  {
    var c := s.inflight[0];
    assert s.calls[c].slot == s.head.r;
    assert CallOk(s, c);
  }

  /** The push that reserved first finishes by at most five steps of its own, whatever the others wait for. */
  lemma {:induction false} FirstFinishes<T>(vec: seq<T>, steps: seq<Step<T>>, s: State<T>) returns (steps': seq<Step<T>>, s': State<T>)
    requires Exec(vec, steps) == Reached(s) && s.inflight != []
    ensures s.inflight[0] in s.calls && InFlight(s.calls[s.inflight[0]])
    ensures Exec(vec, steps') == Reached(s') && |steps'| <= |steps| + StepsLeft(s.calls[s.inflight[0]], s.head)
    ensures Published(s, s', s.inflight[0], s.calls[s.inflight[0]].elem)
    decreases if s.inflight[0] in s.calls && InFlight(s.calls[s.inflight[0]]) then StepsLeft(s.calls[s.inflight[0]], s.head) else 0
  {
    ExecInv(vec, steps);
    FirstStep(s);
    var c := s.inflight[0];
    steps', s' := Extend(vec, steps, s, Run(c));
    if StepsLeft(s.calls[c], s.head) > 1 {
      var s1 := s';
      steps', s' := FirstFinishes(vec, steps', s');
      assert s.calls[c := s1.calls[c]][c := PushDone(true)] == s.calls[c := PushDone(true)];
    }
  }

  /** The elements of the pushes in flight, in the order of their reservations. */
  ghost predicate Appended<T>(s: State<T>, content: seq<T>) {
    && |content| == |s.content| + |s.inflight| && s.content <= content
    && forall i :: 0 <= i < |s.inflight| ==>
         s.inflight[i] in s.calls && InFlight(s.calls[s.inflight[i]]) && content[|s.content| + i] == s.calls[s.inflight[i]].elem
  }

  lemma AppendedFirst<T>(s: State<T>, s1: State<T>, content: seq<T>)
    requires Inv(s) && s.inflight != [] && s.inflight[0] in s.calls && InFlight(s.calls[s.inflight[0]])
    requires Published(s, s1, s.inflight[0], s.calls[s.inflight[0]].elem) && Appended(s1, content)
    ensures Appended(s, content)
  {
    forall i | 0 <= i < |s.inflight|
      ensures s.inflight[i] in s.calls && InFlight(s.calls[s.inflight[i]]) && content[|s.content| + i] == s.calls[s.inflight[i]].elem
    {
      if i > 0 {
        assert s1.inflight[i - 1] == s.inflight[i];
        assert s.calls[s.inflight[i]].slot != s.calls[s.inflight[0]].slot;
      }
    }
  }

  /** All pushes in flight can finish, each on top of those that reserved before it. */
  lemma {:induction false} AllFinish<T>(vec: seq<T>, steps: seq<Step<T>>, s: State<T>) returns (steps': seq<Step<T>>, s': State<T>)
    requires Exec(vec, steps) == Reached(s)
    ensures Exec(vec, steps') == Reached(s') && |steps'| <= |steps| + 5 * |s.inflight|
    ensures s'.inflight == [] && Appended(s, s'.content)
    ensures forall c :: c in s.calls && c !in s.inflight ==> c in s'.calls && s'.calls[c] == s.calls[c]
    ensures forall c :: c in s.inflight ==> c in s'.calls && s'.calls[c] == PushDone(true)
    ensures s'.calls.Keys == s.calls.Keys
    decreases |s.inflight|
  {
    ExecInv(vec, steps);
    if s.inflight == [] {
      return steps, s;
    }
    var s1;
    steps', s1 := FirstFinishes(vec, steps, s);
    assert s.inflight == [s.inflight[0]] + s1.inflight;
    NotInFlightTwice(s);
    steps', s' := AllFinish(vec, steps', s1);
    AppendedFirst(s, s1, s'.content);
  }

  lemma NotInFlightTwice<T>(s: State<T>)
    requires Inv(s) && s.inflight != []
    ensures s.inflight[0] !in s.inflight[1..]
  {
    forall i | 0 <= i < |s.inflight| - 1 ensures s.inflight[1..][i] != s.inflight[0] {
      assert s.calls[s.inflight[i + 1]].slot != s.calls[s.inflight[0]].slot;
    }
  }

  /** A pop that runs alone while no push is in flight returns the top, or finds the stack empty. */
  lemma SoloPop<T>(vec: seq<T>, steps: seq<Step<T>>, s: State<T>, c: nat) returns (steps': seq<Step<T>>, s': State<T>)
    requires Exec(vec, steps) == Reached(s) && s.inflight == [] && c !in s.calls
    ensures Exec(vec, steps') == Reached(s') && c in s'.calls && s'.inflight == []
    ensures s.content == [] ==> s'.calls[c] == PopEmpty && s'.content == []
    ensures s.content != [] ==>
              s'.calls[c] == PopDone(s.content[|s.content| - 1]) && s'.content == s.content[..|s.content| - 1]
  {
    ExecInv(vec, steps);
    if s.content == [] {
      steps', s' := Extend(vec, steps, s, Pop(c));
      steps', s' := Extend(vec, steps', s', Run(c));
    } else {
      steps', s' := HalfPop(vec, steps, s, c);
      steps', s' := Extend(vec, steps', s', Run(c));
    }
  }

  /** A push that has loaded a head with room reserves the next slot by at most two steps of its own. */
  lemma ReservesAlone<T>(vec: seq<T>, steps: seq<Step<T>>, s: State<T>, c: nat) returns (steps': seq<Step<T>>, s': State<T>)
    requires Exec(vec, steps) == Reached(s) && s.head.w < |vec| && c in s.calls && s.calls[c].PushReserve? && s.calls[c].head.w < |vec|
    ensures Exec(vec, steps') == Reached(s') && |steps'| <= |steps| + 2
    ensures s'.inflight == s.inflight + [c] && s'.head == Head(s.head.r, s.head.w + 1) && s'.content == s.content
    ensures c in s'.calls && s'.calls[c].PushStore? && s'.calls[c].slot == s.head.w && s'.calls[c].elem == s.calls[c].elem
  {
    ExecInv(vec, steps);
    steps', s' := Extend(vec, steps, s, Run(c));
    if s.calls[c].head != s.head {
      steps', s' := Extend(vec, steps', s', Run(c));
    }
  }

  /** How many steps of its own a pop needs while no push is in flight. */
  function PopStepsLeft<T>(call: Call<T>, head: Head): nat
    requires Popping(call)
  {
    match call
    case PopStart => 3
    case PopRead(h, _) => if h != head then 5 else 2
    case PopSwap(h, _, _) => if h != head then 4 else 1
  }

  lemma PopStep<T>(s: State<T>, c: nat)
    requires Inv(s) && s.inflight == [] && c in s.calls && Popping(s.calls[c])
    ensures Enabled(s, Run(c))
    ensures var s' := Do(s, Run(c)); var n := PopStepsLeft(s.calls[c], s.head);
            || (s'.calls[c] == PopEmpty && s.content == [] == s'.content)
            || (s'.calls[c].PopDone? && s.content != [] && s'.content == s.content[..|s.content| - 1])
            || (OnlyCall(s, s', c) && Popping(s'.calls[c]) && PopStepsLeft(s'.calls[c], s'.head) < n)
  {
    assert CallOk(s, c);
  }

  /** A pop, wherever it is, takes the top element away by at most five steps of its own, or finds the stack empty. */
  lemma {:induction false} PopFinishes<T>(vec: seq<T>, steps: seq<Step<T>>, s: State<T>, c: nat) returns (steps': seq<Step<T>>, s': State<T>)
    requires Exec(vec, steps) == Reached(s) && s.inflight == [] && c in s.calls && Popping(s.calls[c])
    ensures Exec(vec, steps') == Reached(s') && |steps'| <= |steps| + PopStepsLeft(s.calls[c], s.head) && c in s'.calls
    ensures s.content == [] ==> s'.calls[c] == PopEmpty && s'.content == []
    ensures s.content != [] ==> s'.calls[c].PopDone? && s'.content == s.content[..|s.content| - 1]
    decreases PopStepsLeft(s.calls[c], s.head)
  {
    ExecInv(vec, steps);
    PopStep(s, c);
    steps', s' := Extend(vec, steps, s, Run(c));
    if Popping(s'.calls[c]) {
      steps', s' := PopFinishes(vec, steps', s', c);
    }
  }
}
