/**
 Progress of the epoch allocator: when a leaving guard rotates, and that memory is given back. The
 runs are built step by step, as continuations of any run of the module Epoch.
 */
module Reclaim {
  import opened Epoch

  lemma Extend(steps: seq<Step>, s: State, step: Step) returns (steps': seq<Step>, s': State)
    requires Exec(steps) == Reached(s) && Enabled(s, step)
    ensures steps' == steps + [step] && s' == Do(s, step) && Exec(steps') == Reached(s')
  {
    steps', s' := steps + [step], Do(s, step);
    assert steps'[..|steps'| - 1] == steps;
  }

  lemma NobodyHoldsOldest(s: State)
    requires ControlInv(s)
    ensures Holders(s.guards, s.hist.oldest) == {}
  {
    forall g | g in s.guards ensures !(s.guards[g].Inside? && s.guards[g].cnt == s.hist.oldest) {
      assert GuardOk(s.guards[g], g, s.hist, s.ptrs.nextList);
    }
  }

  lemma Parity(n: nat)
    ensures (2 * n + 1) % 2 == 1 && (2 * n) % 2 == 0
  {
  }

  lemma LeavingRotatesIff(s: State, g: Guard)
    requires ControlInv(s) && Enabled(s, TryClose(g))
    ensures Do(s, TryClose(g)).guards[g].Rotating? <==> s.hist.rotator.Nobody? && Holders(s.guards, s.hist.prev) == {}
  {
    var c := s.ptrs.activeCnt;
    assert c == s.hist.prev || c == s.hist.active;
    Parity(|Holders(s.guards, c)|);
    NobodyHoldsOldest(s);
  }

  /** A leaving guard starts a rotation exactly if nobody rotates and nobody is left from the epoch before. */
  lemma RotatesIff(steps: seq<Step>, g: Guard)
    requires Exec(steps).Reached? && Enabled(Exec(steps).state, TryClose(g))
    ensures var s := Exec(steps).state;
            Do(s, TryClose(g)).guards[g].Rotating? <==> s.hist.rotator.Nobody? && Holders(s.guards, s.hist.prev) == {}
  {
    ExecInv(steps);
    LeavingRotatesIff(Exec(steps).state, g);
  }

  /** No guard is alive, rotating or deleting. */
  ghost predicate Quiet(s: State) {
    forall g :: g in s.guards ==> !s.guards[g].Inside? && !s.guards[g].Rotating? && !s.guards[g].Deleting?
  }

  lemma SetTwice(guards: map<Guard, GuardState>, g: Guard, a: GuardState, b: GuardState)
    ensures guards[g := a][g := b] == guards[g := b]
  {
  }

  /** The steps of a guard that enters at its first attempt. */
  lemma EnteringSteps(s: State, g: Guard)
    requires Inv(s) && s.hist.rotator.Nobody? && g !in s.guards
    ensures var c := s.hist.active;
            && Enabled(s, LoadPtr(g)) && Do(s, LoadPtr(g)) == Set(s, g, LoadedPtr(c))
            && Enabled(Set(s, g, LoadedPtr(c)), LoadCount(g))
            && Do(Set(s, g, LoadedPtr(c)), LoadCount(g)) == Set(s, g, LoadedCount(c, s.cnt[c]))
            && Enabled(Set(s, g, LoadedCount(c, s.cnt[c])), TryEnter(g))
            && Do(Set(s, g, LoadedCount(c, s.cnt[c])), TryEnter(g))
               == Set(s, g, Inside(c, NoFree)).(cnt := s.cnt[c := s.cnt[c] + 2])
  {
    var c := s.hist.active;
    Parity(|Holders(s.guards, c)|);
    SetTwice(s.guards, g, LoadedPtr(c), LoadedCount(c, s.cnt[c]));
    SetTwice(s.guards, g, LoadedCount(c, s.cnt[c]), Inside(c, NoFree));
  }

  /** A guard that is not disturbed enters at its first attempt. */
  lemma EnterAlone(steps: seq<Step>, s: State, g: Guard) returns (steps': seq<Step>, s': State)
    requires Exec(steps) == Reached(s) && s.hist.rotator.Nobody? && g !in s.guards
    ensures Exec(steps') == Reached(s') && s'.hist == s.hist && s'.heap == s.heap && s'.ptrs == s.ptrs
    ensures s'.guards == s.guards[g := Inside(s.hist.active, NoFree)]
  {
    ExecInv(steps);
    EnteringSteps(s, g);
    steps', s' := Extend(steps, s, LoadPtr(g));
    steps', s' := Extend(steps', s', LoadCount(g));
    steps', s' := Extend(steps', s', TryEnter(g));
  }

  lemma LeavingStep(s: State, g: Guard)
    requires Inv(s) && IsAlive(s.guards, g) && s.guards[g].op.NoFree?
    ensures Enabled(s, Leave(g))
    ensures var s' := Do(s, Leave(g));
            s'.guards == s.guards[g := Leaving] && s'.hist == s.hist && s'.heap == s.heap && s'.ptrs == s.ptrs && Enabled(s', TryClose(g))
  {
    assert GuardOk(s.guards[g], g, s.hist, s.ptrs.nextList);
  }

  /** If it was the only guard alive, it rotates when it leaves. */
  lemma LeaveAlone(steps: seq<Step>, s: State, g: Guard) returns (steps': seq<Step>, s': State)
    requires Exec(steps) == Reached(s) && s.hist.rotator.Nobody? && IsAlive(s.guards, g) && s.guards[g].op.NoFree?
    requires forall h :: IsAlive(s.guards, h) ==> h == g
    ensures Exec(steps') == Reached(s') && s'.heap == s.heap && s'.hist.epoch == s.hist.epoch + 1 && s'.hist.rotator == Somebody(g)
    ensures s'.guards == s.guards[g := Rotating(1, 0, 0, 0)]
  {
    ExecInv(steps);
    LeavingStep(s, g);
    steps', s' := Extend(steps, s, Leave(g));
    forall h | h in s'.guards ensures !s'.guards[h].Inside? {
      assert h != g ==> !IsAlive(s.guards, h);
    }
    ExecInv(steps');
    ClosingStep(s', g);
    SetTwice(s.guards, g, Leaving, Rotating(1, 0, 0, 0));
    steps', s' := Extend(steps', s', TryClose(g));
  }

  lemma ClosingStep(s: State, g: Guard)
    requires Inv(s) && s.hist.rotator.Nobody? && Enabled(s, TryClose(g)) && forall h :: h in s.guards ==> !s.guards[h].Inside?
    ensures var s' := Do(s, TryClose(g));
            && s'.guards == s.guards[g := Rotating(1, 0, 0, 0)] && s'.heap == s.heap
            && s'.hist.epoch == s.hist.epoch + 1 && s'.hist.rotator == Somebody(g)
  {
    assert Holders(s.guards, s.hist.prev) == {};
    LeavingRotatesIff(s, g);
  }

  lemma RotatingStep(s: State, g: Guard)
    requires Inv(s) && g in s.guards && s.guards[g].Rotating?
    ensures Enabled(s, Rotate(g))
    ensures var s' := Do(s, Rotate(g)); var gs := s'.guards[g];
            && s'.guards == s.guards[g := gs] && s'.heap.freed == s.heap.freed && s'.heap.owned == s.heap.owned
            && (s.guards[g].pc < 14 ==> s'.hist == s.hist && gs.Rotating? && gs.pc == s.guards[g].pc + 1)
            && (s.guards[g].pc == 14 ==> s'.hist == s.hist.(rotator := Nobody) && gs.Deleting?)
  {
    assert GuardOk(s.guards[g], g, s.hist, s.ptrs.nextList);
    PointersFollow(s.ptrs, s.hist, s.guards[g]);
  }

  /** A rotation runs to its end, whatever other guards are in the middle of. */
  lemma {:induction false} RotateAlone(steps: seq<Step>, s: State, g: Guard) returns (steps': seq<Step>, s': State)
    requires Exec(steps) == Reached(s) && g in s.guards && s.guards[g].Rotating?
    ensures Exec(steps') == Reached(s') && s'.heap.freed == s.heap.freed && s'.heap.owned == s.heap.owned
    ensures s'.hist == s.hist.(rotator := Nobody)
    ensures g in s'.guards && s'.guards[g].Deleting? && s'.guards == s.guards[g := s'.guards[g]]
    decreases 15 - s.guards[g].pc
  {
    ExecInv(steps);
    RotatingStep(s, g);
    steps', s' := Extend(steps, s, Rotate(g));
    if s.guards[g].pc < 14 {
      ghost var gs := s'.guards[g];
      steps', s' := RotateAlone(steps', s', g);
      SetTwice(s.guards, g, gs, s'.guards[g]);
    }
  }

  /** One guard that enters and leaves alone moves the epoch on, and leaves the state quiet. */
  lemma OneRound(steps: seq<Step>, s: State, g: Guard) returns (steps': seq<Step>, s': State)
    requires Exec(steps) == Reached(s) && Quiet(s) && g !in s.guards
    ensures Exec(steps') == Reached(s') && Quiet(s') && s'.guards == s.guards[g := Done]
    ensures s'.hist.epoch == s.hist.epoch + 1 && s'.heap.freed == s.heap.freed && s'.heap.owned == s.heap.owned
  {
    QuietHasNoRotator(steps, s);
    var inside := Inside(s.hist.active, NoFree);
    steps', s' := EnterAlone(steps, s, g);
    forall h | IsAlive(s'.guards, h) ensures h == g {}
    steps', s' := LeaveAlone(steps', s', g);
    SetTwice(s.guards, g, inside, Rotating(1, 0, 0, 0));
    steps', s' := RotateAlone(steps', s', g);
    var deleting := s'.guards[g];
    SetTwice(s.guards, g, Rotating(1, 0, 0, 0), deleting);
    steps', s' := DeleteAlone(steps', s', g);
    SetTwice(s.guards, g, deleting, Done);
  }

  lemma QuietHasNoRotator(steps: seq<Step>, s: State)
    requires Exec(steps) == Reached(s) && Quiet(s)
    ensures s.hist.rotator.Nobody?
  {
    ExecInv(steps);
  }

  lemma DeleteAlone(steps: seq<Step>, s: State, g: Guard) returns (steps': seq<Step>, s': State)
    requires Exec(steps) == Reached(s) && g in s.guards && s.guards[g].Deleting?
    ensures Exec(steps') == Reached(s') && s'.guards == s.guards[g := Done] && s'.hist == s.hist
    ensures s'.heap.freed == s.heap.freed && s'.heap.owned == s.heap.owned
  {
    steps', s' := Extend(steps, s, Delete(g));
  }

  /**
   Memory is reclaimed: from any state in which no guard is at work, three guards that enter and
   leave one after the other have every block destroyed that a call of `free` has taken before.
   */
  lemma ThreeGuardsReclaim(steps: seq<Step>, s: State, g1: Guard, g2: Guard, g3: Guard)
    returns (steps': seq<Step>, s': State)
    requires Exec(steps) == Reached(s) && Quiet(s)
    requires g1 !in s.guards && g2 !in s.guards && g3 !in s.guards && g1 != g2 && g1 != g3 && g2 != g3
    ensures Exec(steps') == Reached(s') && s'.guards == s.guards[g1 := Done][g2 := Done][g3 := Done]
    ensures forall b :: b in s.heap.owned ==> s'.heap.destroyed[b] == 1
  {
    steps', s' := OneRound(steps, s, g1);
    steps', s' := OneRound(steps', s', g2);
    steps', s' := OneRound(steps', s', g3);
    forall b | b in s.heap.owned ensures s'.heap.destroyed[b] == 1 {
      OldBlocksAreDestroyed(steps, s, steps', s', b);
    }
  }

  /** With no guard at work, the only lists are those of the rotation, and every block taken is on a list or destroyed. */
  lemma QuietState(s: State)
    requires Inv(s) && Kept(s) && Quiet(s)
    ensures s.ptrs.nextList == s.hist.epoch + 3
    ensures forall k :: k in s.heap.lists ==> s.hist.epoch <= k < s.hist.epoch + 3
    ensures forall b :: b in s.heap.owned ==> b in s.heap.freed && s.heap.freed[b].list < s.hist.epoch + 3
  {
    forall k ensures !HasDeleter(s.guards, k) {}
    forall b ensures !OwnedBySome(s.guards, b) {}
    forall b | b in s.heap.owned ensures b in s.heap.freed && s.heap.freed[b].list < s.hist.epoch + 3 {
      assert b in s.heap.freed;
      assert b in s.heap.destroyed || OnList(s.heap, s.heap.freed[b].list, b);
    }
  }

  lemma OldBlocksAreDestroyed(steps: seq<Step>, s: State, steps': seq<Step>, s': State, b: Block)
    requires Exec(steps) == Reached(s) && Quiet(s) && b in s.heap.owned
    requires Exec(steps') == Reached(s') && Quiet(s') && s'.hist.epoch == s.hist.epoch + 3 && s'.heap.freed == s.heap.freed
    ensures s'.heap.destroyed[b] == 1
  {
    ExecInv(steps);
    ExecKept(steps);
    QuietState(s);
    ExecInv(steps');
    ExecKept(steps');
    QuietState(s');
    assert !OnList(s'.heap, s'.heap.freed[b].list, b);
  }

  /** The steps of a call of `free` for a block that nobody has taken. */
  lemma FreeingSteps(s: State, g: Guard, b: Block)
    requires Inv(s) && IsAlive(s.guards, g) && s.guards[g].op.NoFree? && b !in s.heap.owned
    ensures var c := s.guards[g].cnt; var l := s.ptrs.activeList;
            var s1 := Set(s, g, Inside(c, Called(b))); var s2 := Set(s, g, Inside(c, Loaded(b, l)));
            var s3 := Set(s, g, Inside(c, Owned(b, l))).(heap := s.heap.(owned := s.heap.owned + {b}));
            && Enabled(s, CallFree(g, b)) && Do(s, CallFree(g, b)) == s1
            && Enabled(s1, LoadList(g)) && Do(s1, LoadList(g)) == s2
            && Enabled(s2, Own(g)) && Do(s2, Own(g)) == s3
            && Enabled(s3, Append(g))
  {
    var c, l := s.guards[g].cnt, s.ptrs.activeList;
    SetTwice(s.guards, g, Inside(c, Called(b)), Inside(c, Loaded(b, l)));
    SetTwice(s.guards, g, Inside(c, Loaded(b, l)), Inside(c, Owned(b, l)));
  }

  /** A call of `free` for a block that nobody has taken puts it on the active list, if it is not disturbed. */
  lemma FreeAlone(steps: seq<Step>, s: State, g: Guard, b: Block) returns (steps': seq<Step>, s': State)
    requires Exec(steps) == Reached(s) && IsAlive(s.guards, g) && s.guards[g].op.NoFree? && b !in s.heap.owned
    ensures Exec(steps') == Reached(s') && s'.guards == s.guards && s'.hist == s.hist
    ensures b in s'.heap.freed && s'.heap.freed[b].list == s.ptrs.activeList && OnList(s'.heap, s.ptrs.activeList, b)
  {
    ExecInv(steps);
    FreeingSteps(s, g, b);
    steps', s' := Extend(steps, s, CallFree(g, b));
    steps', s' := Extend(steps', s', LoadList(g));
    steps', s' := Extend(steps', s', Own(g));
    steps', s' := Extend(steps', s', Append(g));
    assert s.guards[g := s.guards[g]] == s.guards;
  }
}
