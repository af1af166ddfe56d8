/**
 Epoch based reclamation: three guard counters and three lists of freed blocks rotate through the
 roles active, old and oldest.

 Every atomic access of guard entry, guard exit and rotation is one step, with one exception: the
 three counter loads of a leaving guard and its closing compare-and-swap are a single step. Owning a
 node and pushing it are one step each here, the one in which their compare-and-swap succeeds; the
 module FreeList takes them apart. Guards are numbered, one number per guard
 object, and a number is never used again. A guard carries at most one call of `free` at a time.
 */
module Epoch {

  type Guard = nat
  type Block = nat

  /** A call of `free` or `free_in_order` made under a guard. */
  datatype Free =
    | NoFree
    | Called(block: Block)
    | Loaded(block: Block, list: nat)
    | Owned(block: Block, list: nat)

  datatype GuardState =
    | Retry
    | LoadedPtr(cnt: nat)
    | LoadedCount(cnt: nat, value: nat)
    | Inside(cnt: nat, op: Free)
    | Leaving
    | Rotating(pc: nat, t: nat, u: nat, d: nat)
    | Deleting(list: nat)
    | Done

  /** The six shared pointers. Counters are numbered 0 to 2, lists in the order they are created. */
  datatype Pointers = Pointers(
    activeCnt: nat, oldCnt: nat, oldestCnt: nat,
    activeList: nat, oldList: nat, oldestList: nat,
    nextList: nat)

  /** History of a freed block: the list it went to and the guards alive when it got there. */
  datatype Record = Record(list: nat, blockers: set<Guard>)

  /** Lists and blocks. `freed` is history. */
  datatype Heap = Heap(
    lists: map<nat, set<Block>>,
    owned: set<Block>,
    destroyed: multiset<Block>,
    freed: map<Block, Record>)

  datatype Rotator = Nobody | Somebody(guard: Guard)

  /** History: the number of rotations begun, who rotates, and the role of each counter. */
  datatype History = History(epoch: nat, rotator: Rotator, active: nat, prev: nat, oldest: nat)

  datatype State = State(
    cnt: seq<nat>, ptrs: Pointers, heap: Heap, guards: map<Guard, GuardState>, hist: History)

  datatype Step =
    | LoadPtr(g: Guard)
    | LoadCount(g: Guard)
    | TryEnter(g: Guard)
    | CallFree(g: Guard, block: Block)
    | LoadList(g: Guard)
    | Own(g: Guard)
    | Append(g: Guard)
    | Leave(g: Guard)
    | TryClose(g: Guard)
    | Rotate(g: Guard)
    | Delete(g: Guard)

  /** Counters are 64 bits wide; the invariant shows that they never wrap below zero. */
  const WORD := 0x1_0000_0000_0000_0000

  function Init(): State {
    State([1, 0, 0], Pointers(0, 2, 1, 2, 1, 0, 3),
          Heap(map[0 := {}, 1 := {}, 2 := {}], {}, multiset{}, map[]),
          map[], History(0, Nobody, 0, 2, 1))
  }

  predicate IsAlive(guards: map<Guard, GuardState>, g: Guard) {
    g in guards && guards[g].Inside?
  }

  function Alive(guards: map<Guard, GuardState>): set<Guard> {
    set g | g in guards && guards[g].Inside?
  }

  function Set(s: State, g: Guard, gs: GuardState): State {
    s.(guards := s.guards[g := gs])
  }

  predicate Enabled(s: State, step: Step) {
    match step
    case LoadPtr(g) => g !in s.guards || s.guards[g].Retry?
    case LoadCount(g) => g in s.guards && s.guards[g].LoadedPtr? && s.guards[g].cnt < |s.cnt|
    case TryEnter(g) => g in s.guards && s.guards[g].LoadedCount? && s.guards[g].cnt < |s.cnt|
    // a block may be freed again, by guards that were alive when it was freed
    case CallFree(g, b) =>
      && IsAlive(s.guards, g) && s.guards[g].op.NoFree?
      && (b in s.heap.freed ==> g in s.heap.freed[b].blockers)
    case LoadList(g) => IsAlive(s.guards, g) && s.guards[g].op.Called?
    case Own(g) => IsAlive(s.guards, g) && s.guards[g].op.Loaded?
    case Append(g) => IsAlive(s.guards, g) && s.guards[g].op.Owned?
    case Leave(g) => IsAlive(s.guards, g) && s.guards[g].op.NoFree? && s.guards[g].cnt < |s.cnt|
    case TryClose(g) =>
      && g in s.guards && s.guards[g].Leaving?
      && s.ptrs.oldestCnt < |s.cnt| && s.ptrs.oldCnt < |s.cnt| && s.ptrs.activeCnt < |s.cnt|
    case Rotate(g) =>
      && g in s.guards && s.guards[g].Rotating? && 1 <= s.guards[g].pc <= 14
      && (s.guards[g].pc == 14 ==> s.guards[g].u < |s.cnt|)
    case Delete(g) => g in s.guards && s.guards[g].Deleting?
  }

  function Do(s: State, step: Step): State
    requires Enabled(s, step)
  {
    match step
    case LoadPtr(g) => Set(s, g, LoadedPtr(s.ptrs.activeCnt))
    case LoadCount(g) => Set(s, g, LoadedCount(s.guards[g].cnt, s.cnt[s.guards[g].cnt]))
    case TryEnter(g) => DoTryEnter(s, g)
    case CallFree(g, b) => Set(s, g, Inside(s.guards[g].cnt, Called(b)))
    case LoadList(g) =>
      Set(s, g, Inside(s.guards[g].cnt, Loaded(s.guards[g].op.block, s.ptrs.activeList)))
    case Own(g) => DoOwn(s, g)
    case Append(g) => DoAppend(s, g)
    case Leave(g) =>
      var c := s.guards[g].cnt;
      Set(s, g, Leaving).(cnt := s.cnt[c := if s.cnt[c] >= 2 then s.cnt[c] - 2 else s.cnt[c] + WORD - 2])
    case TryClose(g) => DoTryClose(s, g)
    case Rotate(g) => DoRotate(s, g)
    case Delete(g) => DoDelete(s, g)
  }

  /** The compare-and-swap of the constructor; when it fails the guard starts over. */
  function DoTryEnter(s: State, g: Guard): State
    requires Enabled(s, TryEnter(g))
  {
    var LoadedCount(c, v) := s.guards[g];
    if v % 2 == 1 && s.cnt[c] == v then
      Set(s, g, Inside(c, NoFree)).(cnt := s.cnt[c := v + 2])
    else
      Set(s, g, Retry)
  }

  /** `node::own`: only the first caller gets past it. */
  function DoOwn(s: State, g: Guard): State
    requires Enabled(s, Own(g))
  {
    var Inside(c, Loaded(b, l)) := s.guards[g];
    if b in s.heap.owned then
      Set(s, g, Inside(c, NoFree))
    else
      Set(s, g, Inside(c, Owned(b, l))).(heap := s.heap.(owned := s.heap.owned + {b}))
  }

  /** The successful head swap of `list::append`. */
  function DoAppend(s: State, g: Guard): State
    requires Enabled(s, Append(g))
  {
    var Inside(c, Owned(b, l)) := s.guards[g];
    var entries := if l in s.heap.lists then s.heap.lists[l] else {};
    Set(s, g, Inside(c, NoFree)).(
      heap := s.heap.(
        lists := s.heap.lists[l := entries + {b}],
        freed := s.heap.freed[b := Record(l, Alive(s.guards))]))
  }

  /** The snapshot of the destructor together with its closing compare-and-swap. */
  function DoTryClose(s: State, g: Guard): State
    requires Enabled(s, TryClose(g))
  {
    var oac := s.cnt[s.ptrs.activeCnt];
    if s.cnt[s.ptrs.oldestCnt] == 0 && s.cnt[s.ptrs.oldCnt] == 0 && oac % 2 == 1 then
      Set(s, g, Rotating(1, 0, 0, 0)).(
        cnt := s.cnt[s.ptrs.activeCnt := oac - 1],
        hist := History(s.hist.epoch + 1, Somebody(g), s.hist.oldest, s.hist.active, s.hist.prev))
    else
      Set(s, g, Done)
  }

  /** The loads and stores between the closing of one active counter and the opening of the next. */
  function RotateGuard(p: Pointers, r: GuardState): GuardState
    requires r.Rotating? && 1 <= r.pc <= 14
  {
    match r.pc
    case 1 => r.(pc := 2, t := p.activeCnt)
    case 2 => r.(pc := 3, u := p.oldestCnt)
    case 4 => r.(pc := 5, u := p.oldCnt)
    case 7 => r.(pc := 8, d := p.oldestList)
    case 8 => r.(pc := 9, u := p.oldList)
    case 10 => r.(pc := 11, u := p.activeList)
    case 13 => r.(pc := 14, u := p.activeCnt)
    case 14 => Deleting(r.d)
    case _ => r.(pc := r.pc + 1)
  }

  function RotatePointers(p: Pointers, r: GuardState): Pointers
    requires r.Rotating? && 1 <= r.pc <= 14
  {
    match r.pc
    case 3 => p.(activeCnt := r.u)
    case 5 => p.(oldestCnt := r.u)
    case 6 => p.(oldCnt := r.t)
    case 9 => p.(oldestList := r.u)
    case 11 => p.(oldList := r.u)
    case 12 => p.(activeList := p.nextList, nextList := p.nextList + 1)
    case _ => p
  }

  function DoRotate(s: State, g: Guard): State
    requires Enabled(s, Rotate(g))
  {
    var r := s.guards[g];
    var s' := Set(s, g, RotateGuard(s.ptrs, r)).(ptrs := RotatePointers(s.ptrs, r));
    if r.pc == 12 then
      s'.(heap := s.heap.(lists := s.heap.lists[s.ptrs.nextList := {}]))
    else if r.pc == 14 then
      s'.(cnt := s.cnt[r.u := s.cnt[r.u] + 1], hist := s.hist.(rotator := Nobody))
    else
      s'
  }

  /** `delete todelete`: runs the destructor of every block on the list. */
  function DoDelete(s: State, g: Guard): State
    requires Enabled(s, Delete(g))
  {
    var k := s.guards[g].list;
    var dead := if k in s.heap.lists then s.heap.lists[k] else {};
    Set(s, g, Done).(
      heap := s.heap.(lists := s.heap.lists - {k}, destroyed := s.heap.destroyed + multiset(dead)))
  }

  /** The state after a run, for the runs in which every step was enabled when it was taken. */
  datatype Outcome = Stuck | Reached(state: State)

  function Exec(steps: seq<Step>): Outcome {
    if steps == [] then Reached(Init())
    else
      match Exec(steps[..|steps| - 1])
      case Stuck => Stuck
      case Reached(s) => if Enabled(s, steps[|steps| - 1]) then Reached(Do(s, steps[|steps| - 1])) else Stuck
  }

  // The invariant

  ghost predicate RolesOk(h: History) {
    && h.active < 3 && h.prev < 3 && h.oldest < 3
    && h.active != h.prev && h.active != h.oldest && h.prev != h.oldest
  }

  /** The pointers when `p` is the next instruction of the rotation; 15 after it. */
  ghost predicate PointersAt(m: Pointers, h: History, p: nat) {
    var e := h.epoch;
    && m.activeCnt == (if p <= 3 then h.prev else h.active)
    && m.oldestCnt == (if p <= 5 then h.active else h.oldest)
    && m.oldCnt == (if p <= 6 then h.oldest else h.prev)
    && m.oldestList == (if p <= 9 then e - 1 else e)
    && m.oldList == (if p <= 11 then e else e + 1)
    && m.activeList == (if p <= 12 then e + 1 else e + 2)
    && m.nextList == m.activeList + 1
  }

  ghost predicate Registers(h: History, r: GuardState)
    requires r.Rotating?
  {
    && 1 <= r.pc <= 14
    && (r.pc >= 2 ==> r.t == h.prev)
    && (r.pc == 3 ==> r.u == h.active)
    && (r.pc == 5 ==> r.u == h.oldest)
    && (r.pc >= 8 ==> r.d == h.epoch - 1)
    && (r.pc == 9 ==> r.u == h.epoch)
    && (r.pc == 11 ==> r.u == h.epoch + 1)
    && (r.pc == 14 ==> r.u == h.active)
  }

  ghost predicate RotationOk(s: State) {
    && RolesOk(s.hist)
    && (s.hist.rotator.Nobody? ==> PointersAt(s.ptrs, s.hist, 15))
    && (s.hist.rotator.Somebody? ==>
          var g := s.hist.rotator.guard;
          && s.hist.epoch >= 1
          && g in s.guards && s.guards[g].Rotating?
          && Registers(s.hist, s.guards[g])
          && PointersAt(s.ptrs, s.hist, s.guards[g].pc))
  }

  ghost function Holders(guards: map<Guard, GuardState>, c: nat): set<Guard> {
    set g | g in guards && guards[g].Inside? && guards[g].cnt == c
  }

  function OpenBit(h: History, c: nat): nat {
    if h.rotator.Nobody? && c == h.active then 1 else 0
  }

  /** Each counter is twice its number of holders, plus one if it is open. */
  ghost predicate CountersOk(cnt: seq<nat>, guards: map<Guard, GuardState>, h: History) {
    && |cnt| == 3
    && forall c :: 0 <= c < 3 ==> cnt[c] == 2 * |Holders(guards, c)| + OpenBit(h, c)
  }

  /**
   One guard. Nobody holds the oldest counter, and nobody holds the next active one while it is
   closed; a free in progress works on a list at least two rotations away from deletion; a list
   about to be deleted has left the rotation.
   */
  ghost predicate GuardOk(gs: GuardState, g: Guard, h: History, nextList: nat) {
    match gs
    case LoadedPtr(c) => c < 3
    case LoadedCount(c, _) => c < 3
    case Inside(c, op) =>
      && (c == h.prev || (c == h.active && h.rotator.Nobody?))
      && (op.Loaded? || op.Owned? ==> op.list < nextList && h.epoch + (if c == h.active then 2 else 1) <= op.list)
    case Rotating(_, _, _, _) => h.rotator == Somebody(g)
    case Deleting(l) => l + (if h.rotator.Somebody? then 1 else 0) < h.epoch
    case _ => true
  }

  ghost predicate GuardsOk(guards: map<Guard, GuardState>, h: History, nextList: nat) {
    forall g :: g in guards ==> GuardOk(guards[g], g, h, nextList)
  }

  ghost predicate DeletersOk(guards: map<Guard, GuardState>, lists: map<nat, set<Block>>) {
    && (forall g :: g in guards && guards[g].Deleting? ==> guards[g].list in lists)
    && (forall g, h :: g in guards && h in guards && guards[g].Deleting? && guards[h].Deleting? && g != h ==>
          guards[g].list != guards[h].list)
  }

  ghost predicate ListsExist(lists: map<nat, set<Block>>, h: History, nextList: nat) {
    && (forall k :: k in lists ==> k < nextList)
    && (forall k :: h.epoch <= k < nextList ==> k in lists)
    && (h.rotator.Somebody? && h.epoch >= 1 ==> h.epoch - 1 in lists)
  }

  /** Of the blockers of a block on list `k`, those alive: none below the oldest list, old ones on it. */
  ghost predicate Behind(k: nat, blockers: set<Guard>, guards: map<Guard, GuardState>, h: History) {
    forall g :: g in blockers && IsAlive(guards, g) ==> k == h.epoch && guards[g].cnt == h.prev
  }

  ghost predicate BlockersBehind(heap: Heap, guards: map<Guard, GuardState>, h: History) {
    && (forall b :: b in heap.freed && heap.freed[b].list <= h.epoch ==>
          Behind(heap.freed[b].list, heap.freed[b].blockers, guards, h))
    && (forall b :: b in heap.destroyed && b in heap.freed ==> heap.freed[b].list < h.epoch)
  }

  /** A listed block was freed to that list and is not destroyed; a destroyed one was destroyed once. */
  ghost predicate BlocksOk(heap: Heap) {
    && (forall k, b :: k in heap.lists && b in heap.lists[k] ==>
          b in heap.freed && heap.freed[b].list == k && b !in heap.destroyed)
    && (forall b :: b in heap.freed ==> b in heap.owned)
    && (forall b :: b in heap.destroyed ==> b in heap.freed && heap.destroyed[b] == 1)
  }

  /** A free in progress: its block is not destroyed, and freed by another call only if this guard blocks it. */
  ghost predicate FreeOk(op: Free, g: Guard, heap: Heap) {
    match op
    case NoFree => true
    case Owned(b, _) => b in heap.owned && b !in heap.freed
    case _ => op.block !in heap.destroyed && (op.block in heap.freed ==> g in heap.freed[op.block].blockers)
  }

  ghost predicate FreesOk(guards: map<Guard, GuardState>, heap: Heap) {
    && (forall g :: IsAlive(guards, g) ==> FreeOk(guards[g].op, g, heap))
    && (forall g, h :: IsAlive(guards, g) && IsAlive(guards, h) && guards[g].op.Owned? && guards[h].op.Owned? && g != h ==>
          guards[g].op.block != guards[h].op.block)
  }

  predicate Entered(guards: map<Guard, GuardState>, g: Guard) {
    g in guards && !guards[g].Retry? && !guards[g].LoadedPtr? && !guards[g].LoadedCount?
  }

  ghost predicate AllEntered(guards: map<Guard, GuardState>, gs: set<Guard>) {
    forall g :: g in gs ==> Entered(guards, g)
  }

  /** Only guards that did enter are recorded in the history. */
  ghost predicate SeenOk(guards: map<Guard, GuardState>, heap: Heap) {
    forall b :: b in heap.freed ==> AllEntered(guards, heap.freed[b].blockers)
  }

  ghost predicate ControlInv(s: State) {
    && RotationOk(s)
    && CountersOk(s.cnt, s.guards, s.hist)
    && GuardsOk(s.guards, s.hist, s.ptrs.nextList)
    && DeletersOk(s.guards, s.heap.lists)
    && ListsExist(s.heap.lists, s.hist, s.ptrs.nextList)
  }

  ghost predicate BlockInv(heap: Heap, guards: map<Guard, GuardState>, h: History) {
    && BlockersBehind(heap, guards, h)
    && BlocksOk(heap)
    && FreesOk(guards, heap)
    && SeenOk(guards, heap)
  }

  ghost predicate Inv(s: State) {
    ControlInv(s) && BlockInv(s.heap, s.guards, s.hist)
  }

  lemma InitInv()
    ensures Inv(Init())
  {
    assert forall c :: Holders(Init().guards, c) == {};
  }

  // Counting holders

  /** A guard that is alive neither before nor after, or keeps its counter, leaves the holders alone. */
  lemma HoldersKept(guards: map<Guard, GuardState>, g: Guard, gs: GuardState)
    requires IsAlive(guards, g) == gs.Inside?
    requires gs.Inside? ==> gs.cnt == guards[g].cnt
    ensures forall c :: Holders(guards[g := gs], c) == Holders(guards, c)
  {
  }

  lemma CountersAfterEntry(cnt: seq<nat>, guards: map<Guard, GuardState>, h: History, g: Guard, c0: nat)
    requires CountersOk(cnt, guards, h) && !IsAlive(guards, g) && c0 < 3
    ensures CountersOk(cnt[c0 := cnt[c0] + 2], guards[g := Inside(c0, NoFree)], h)
  {
    var guards' := guards[g := Inside(c0, NoFree)];
    forall c ensures Holders(guards', c) == if c == c0 then Holders(guards, c) + {g} else Holders(guards, c) {}
  }

  lemma CountersAfterExit(cnt: seq<nat>, guards: map<Guard, GuardState>, h: History, g: Guard)
    requires CountersOk(cnt, guards, h) && IsAlive(guards, g) && guards[g].cnt < 3
    ensures cnt[guards[g].cnt] >= 2
    ensures CountersOk(cnt[guards[g].cnt := cnt[guards[g].cnt] - 2], guards[g := Leaving], h)
  {
    forall c ensures Holders(guards[g := Leaving], c) == Holders(guards, c) - {g} {}
    assert g in Holders(guards, guards[g].cnt);
  }

  lemma CountersAfterOpening(cnt: seq<nat>, guards: map<Guard, GuardState>, h: History)
    requires CountersOk(cnt, guards, h) && h.rotator.Somebody? && h.active < 3
    ensures CountersOk(cnt[h.active := cnt[h.active] + 1], guards, h.(rotator := Nobody))
  {
  }

  /** When the old counter is at zero, everybody alive holds the active one. */
  lemma AllHoldActive(s: State)
    requires ControlInv(s) && s.cnt[s.hist.prev] == 0
    ensures forall g :: IsAlive(s.guards, g) ==> s.guards[g].cnt == s.hist.active
  {
    forall g | IsAlive(s.guards, g) ensures g in Holders(s.guards, s.guards[g].cnt) {}
    assert Holders(s.guards, s.hist.prev) == {};
  }

  // The rotation

  lemma PointersFollow(m: Pointers, h: History, r: GuardState)
    requires RolesOk(h) && r.Rotating? && h.epoch >= 1 && Registers(h, r) && PointersAt(m, h, r.pc)
    ensures PointersAt(RotatePointers(m, r), h, r.pc + 1)
    ensures r.pc < 14 ==> RotateGuard(m, r).Rotating? && RotateGuard(m, r).pc == r.pc + 1 && Registers(h, RotateGuard(m, r))
    ensures r.pc == 14 ==> RotateGuard(m, r) == Deleting((h.epoch - 1) as nat)
  {
  }

  // The blocks

  /** What one guard may change about itself without touching the lists. */
  lemma GuardChange(heap: Heap, guards: map<Guard, GuardState>, h: History, g: Guard, gs: GuardState)
    requires BlockInv(heap, guards, h)
    requires Entered(guards, g) ==> Entered(guards[g := gs], g)
    requires IsAlive(guards, g) && gs.Inside? ==> gs.cnt == guards[g].cnt
    requires !IsAlive(guards, g) && gs.Inside? ==> !Entered(guards, g)
    requires gs.Inside? ==> gs.op.NoFree?
    ensures BlockInv(heap, guards[g := gs], h)
  {
  }

  lemma CallKeepsBlocks(heap: Heap, guards: map<Guard, GuardState>, h: History, g: Guard, op: Free)
    requires BlockInv(heap, guards, h) && IsAlive(guards, g)
    requires (op.Called? || op.Loaded?) && FreeOk(op, g, heap)
    ensures BlockInv(heap, guards[g := Inside(guards[g].cnt, op)], h)
  {
  }

  lemma OwnKeepsBlocks(heap: Heap, guards: map<Guard, GuardState>, h: History, g: Guard, op: Free)
    requires BlockInv(heap, guards, h) && IsAlive(guards, g)
    requires op.Owned? && op.block !in heap.owned
    ensures BlockInv(heap.(owned := heap.owned + {op.block}), guards[g := Inside(guards[g].cnt, op)], h)
  {
  }

  lemma AppendKeepsBlocks(heap: Heap, guards: map<Guard, GuardState>, h: History, g: Guard)
    requires BlockInv(heap, guards, h) && IsAlive(guards, g)
    requires guards[g].op.Owned? && guards[g].op.list in heap.lists && guards[g].op.list > h.epoch
    ensures var Inside(c, Owned(b, l)) := guards[g];
            BlockInv(heap.(lists := heap.lists[l := heap.lists[l] + {b}],
                           freed := heap.freed[b := Record(l, Alive(guards))]),
                     guards[g := Inside(c, NoFree)], h)
  {
  }

  /** A new rotation: the blockers of the oldest list are gone, those of the next are all old. */
  lemma CloseKeepsBlocks(heap: Heap, guards: map<Guard, GuardState>, h: History, h': History)
    requires BlockInv(heap, guards, h) && h'.epoch == h.epoch + 1 && h'.prev == h.active && h.active != h.prev
    requires forall g :: IsAlive(guards, g) ==> guards[g].cnt == h.active
    ensures BlockInv(heap, guards, h')
  {
  }

  lemma NewListKeepsBlocks(heap: Heap, guards: map<Guard, GuardState>, h: History, k: nat)
    requires BlockInv(heap, guards, h) && k !in heap.lists && k > h.epoch
    ensures BlockInv(heap.(lists := heap.lists[k := {}]), guards, h)
  {
  }

  lemma OpenKeepsBlocks(heap: Heap, guards: map<Guard, GuardState>, h: History)
    requires BlockInv(heap, guards, h)
    ensures BlockInv(heap, guards, h.(rotator := Nobody))
  {
    forall b | b in heap.freed && heap.freed[b].list <= h.epoch
      ensures Behind(heap.freed[b].list, heap.freed[b].blockers, guards, h.(rotator := Nobody))
    {
      assert Behind(heap.freed[b].list, heap.freed[b].blockers, guards, h);
    }
  }

  lemma DeleteKeepsBlocks(heap: Heap, guards: map<Guard, GuardState>, h: History, k: nat)
    requires BlockInv(heap, guards, h) && k in heap.lists && k < h.epoch
    ensures BlockInv(heap.(lists := heap.lists - {k}, destroyed := heap.destroyed + multiset(heap.lists[k])), guards, h)
  {
  }

  // The steps

  lemma LoadKeepsInv(s: State, step: Step)
    requires Inv(s) && Enabled(s, step) && (step.LoadPtr? || step.LoadCount?)
    ensures Inv(Do(s, step))
  {
    var gs := Do(s, step).guards[step.g];
    HoldersKept(s.guards, step.g, gs);
    GuardChange(s.heap, s.guards, s.hist, step.g, gs);
  }

  predicate Enters(s: State, g: Guard)
    requires Enabled(s, TryEnter(g))
  {
    s.guards[g].value % 2 == 1 && s.cnt[s.guards[g].cnt] == s.guards[g].value
  }

  lemma RetryKeepsInv(s: State, g: Guard)
    requires Inv(s) && Enabled(s, TryEnter(g)) && !Enters(s, g)
    ensures Inv(Do(s, TryEnter(g)))
  {
    var gs := Retry;
    HoldersKept(s.guards, g, gs);
    GuardChange(s.heap, s.guards, s.hist, g, gs);
  }

  lemma EnterKeepsInv(s: State, g: Guard)
    requires Inv(s) && Enabled(s, TryEnter(g)) && Enters(s, g)
    ensures Inv(Do(s, TryEnter(g)))
  {
    var c := s.guards[g].cnt;
    assert GuardOk(s.guards[g], g, s.hist, s.ptrs.nextList);
    assert OpenBit(s.hist, c) == 1;
    GuardChange(s.heap, s.guards, s.hist, g, Inside(c, NoFree));
    CountersAfterEntry(s.cnt, s.guards, s.hist, g, c);
  }

  lemma CallKeepsInv(s: State, step: Step)
    requires Inv(s) && Enabled(s, step) && (step.CallFree? || step.LoadList?)
    ensures Inv(Do(s, step))
  {
    var gs := Do(s, step).guards[step.g];
    HoldersKept(s.guards, step.g, gs);
    CallKeepsBlocks(s.heap, s.guards, s.hist, step.g, gs.op);
  }

  lemma OwnKeepsControl(s: State, g: Guard)
    requires ControlInv(s) && Enabled(s, Own(g))
    ensures ControlInv(Do(s, Own(g)))
  {
    HoldersKept(s.guards, g, Do(s, Own(g)).guards[g]);
  }

  lemma OwnKeepsInv(s: State, g: Guard)
    requires Inv(s) && Enabled(s, Own(g))
    ensures Inv(Do(s, Own(g)))
  {
    var gs := Do(s, Own(g)).guards[g];
    OwnKeepsControl(s, g);
    if gs.op.NoFree? {
      GuardChange(s.heap, s.guards, s.hist, g, gs);
    } else {
      OwnKeepsBlocks(s.heap, s.guards, s.hist, g, gs.op);
    }
  }

  lemma AppendKeepsControl(s: State, g: Guard)
    requires ControlInv(s) && Enabled(s, Append(g))
    ensures ControlInv(Do(s, Append(g)))
  {
    HoldersKept(s.guards, g, Do(s, Append(g)).guards[g]);
  }

  lemma AppendKeepsInv(s: State, g: Guard)
    requires Inv(s) && Enabled(s, Append(g))
    ensures Inv(Do(s, Append(g)))
  {
    AppendKeepsControl(s, g);
    assert GuardOk(s.guards[g], g, s.hist, s.ptrs.nextList);
    AppendKeepsBlocks(s.heap, s.guards, s.hist, g);
  }

  lemma LeaveKeepsInv(s: State, g: Guard)
    requires Inv(s) && Enabled(s, Leave(g))
    ensures Inv(Do(s, Leave(g)))
  {
    CountersAfterExit(s.cnt, s.guards, s.hist, g);
    GuardChange(s.heap, s.guards, s.hist, g, Leaving);
  }

  predicate Closes(s: State, g: Guard)
    requires Enabled(s, TryClose(g))
  {
    s.cnt[s.ptrs.oldestCnt] == 0 && s.cnt[s.ptrs.oldCnt] == 0 && s.cnt[s.ptrs.activeCnt] % 2 == 1
  }

  lemma GiveUpKeepsInv(s: State, g: Guard)
    requires Inv(s) && Enabled(s, TryClose(g)) && !Closes(s, g)
    ensures Inv(Do(s, TryClose(g)))
  {
    HoldersKept(s.guards, g, Done);
    GuardChange(s.heap, s.guards, s.hist, g, Done);
  }

  lemma CloseKeepsControl(s: State, g: Guard)
    requires ControlInv(s) && Enabled(s, TryClose(g)) && Closes(s, g)
    ensures ControlInv(Do(s, TryClose(g)))
    ensures s.cnt[s.hist.prev] == 0
  {
    assert OpenBit(s.hist, s.ptrs.activeCnt) == 1;
    HoldersKept(s.guards, g, Rotating(1, 0, 0, 0));
    AllHoldActive(s);
  }

  lemma CloseKeepsInv(s: State, g: Guard)
    requires Inv(s) && Enabled(s, TryClose(g)) && Closes(s, g)
    ensures Inv(Do(s, TryClose(g)))
  {
    var s' := Do(s, TryClose(g));
    CloseKeepsControl(s, g);
    GuardChange(s.heap, s.guards, s.hist, g, s'.guards[g]);
    AllHoldActive(s);
    CloseKeepsBlocks(s.heap, s'.guards, s.hist, s'.hist);
  }

  lemma MoveKeepsInv(s: State, g: Guard)
    requires Inv(s) && Enabled(s, Rotate(g)) && s.guards[g].pc !in {12, 14}
    ensures Inv(Do(s, Rotate(g)))
  {
    var gs := RotateGuard(s.ptrs, s.guards[g]);
    assert GuardOk(s.guards[g], g, s.hist, s.ptrs.nextList);
    PointersFollow(s.ptrs, s.hist, s.guards[g]);
    HoldersKept(s.guards, g, gs);
    GuardChange(s.heap, s.guards, s.hist, g, gs);
  }

  lemma NewListKeepsControl(s: State, g: Guard)
    requires ControlInv(s) && Enabled(s, Rotate(g)) && s.guards[g].pc == 12
    ensures ControlInv(Do(s, Rotate(g)))
  {
    assert GuardOk(s.guards[g], g, s.hist, s.ptrs.nextList);
    PointersFollow(s.ptrs, s.hist, s.guards[g]);
    HoldersKept(s.guards, g, RotateGuard(s.ptrs, s.guards[g]));
  }

  lemma NewListKeepsInv(s: State, g: Guard)
    requires Inv(s) && Enabled(s, Rotate(g)) && s.guards[g].pc == 12
    ensures Inv(Do(s, Rotate(g)))
  {
    var gs := RotateGuard(s.ptrs, s.guards[g]);
    NewListKeepsControl(s, g);
    GuardChange(s.heap, s.guards, s.hist, g, gs);
    NewListKeepsBlocks(s.heap, s.guards[g := gs], s.hist, s.ptrs.nextList);
  }

  lemma OpenKeepsControl(s: State, g: Guard)
    requires ControlInv(s) && Enabled(s, Rotate(g)) && s.guards[g].pc == 14
    ensures ControlInv(Do(s, Rotate(g)))
  {
    assert GuardOk(s.guards[g], g, s.hist, s.ptrs.nextList);
    PointersFollow(s.ptrs, s.hist, s.guards[g]);
    var gs := Deleting(s.guards[g].d);
    HoldersKept(s.guards, g, gs);
    CountersAfterOpening(s.cnt, s.guards[g := gs], s.hist);
  }

  lemma OpenKeepsInv(s: State, g: Guard)
    requires Inv(s) && Enabled(s, Rotate(g)) && s.guards[g].pc == 14
    ensures Inv(Do(s, Rotate(g)))
  {
    OpenKeepsControl(s, g);
    var s', gs := Do(s, Rotate(g)), Deleting(s.guards[g].d);
    GuardChange(s.heap, s.guards, s.hist, g, gs);
    OpenKeepsBlocks(s.heap, s.guards[g := gs], s.hist);
    assert s'.heap == s.heap && s'.guards == s.guards[g := gs] && s'.hist == s.hist.(rotator := Nobody);
  }

  lemma DeleteKeepsControl(s: State, g: Guard)
    requires ControlInv(s) && Enabled(s, Delete(g))
    ensures ControlInv(Do(s, Delete(g)))
  {
    HoldersKept(s.guards, g, Done);
  }

  lemma DeleteKeepsInv(s: State, g: Guard)
    requires Inv(s) && Enabled(s, Delete(g))
    ensures Inv(Do(s, Delete(g)))
  {
    DeleteKeepsControl(s, g);
    assert GuardOk(s.guards[g], g, s.hist, s.ptrs.nextList);
    GuardChange(s.heap, s.guards, s.hist, g, Done);
    DeleteKeepsBlocks(s.heap, s.guards[g := Done], s.hist, s.guards[g].list);
  }

  lemma StepKeepsInv(s: State, step: Step)
    requires Inv(s) && Enabled(s, step)
    ensures Inv(Do(s, step))
  {
    match step
    case LoadPtr(g) => LoadKeepsInv(s, step);
    case LoadCount(g) => LoadKeepsInv(s, step);
    case TryEnter(g) => if Enters(s, g) { EnterKeepsInv(s, g); } else { RetryKeepsInv(s, g); }
    case CallFree(g, b) => CallKeepsInv(s, step);
    case LoadList(g) => CallKeepsInv(s, step);
    case Own(g) => OwnKeepsInv(s, g);
    case Append(g) => AppendKeepsInv(s, g);
    case Leave(g) => LeaveKeepsInv(s, g);
    case TryClose(g) => if Closes(s, g) { CloseKeepsInv(s, g); } else { GiveUpKeepsInv(s, g); }
    case Rotate(g) =>
      if s.guards[g].pc == 12 { NewListKeepsInv(s, g); }
      else if s.guards[g].pc == 14 { OpenKeepsInv(s, g); }
      else { MoveKeepsInv(s, g); }
    case Delete(g) => DeleteKeepsInv(s, g);
  }

  lemma {:induction false} ExecInv(steps: seq<Step>)
    requires Exec(steps).Reached?
    ensures Inv(Exec(steps).state)
  {
    if steps == [] {
      InitInv();
    } else {
      ExecInv(steps[..|steps| - 1]);
      StepKeepsInv(Exec(steps[..|steps| - 1]).state, steps[|steps| - 1]);
    }
  }

  // What holds of every run

  predicate OwnedBySome(guards: map<Guard, GuardState>, b: Block) {
    exists g :: IsAlive(guards, g) && g in guards && guards[g].op.Owned? && guards[g].op.block == b
  }

  /** Either `h` has left, or `b` is still being freed, or `h` is on record as a blocker of `b`. */
  ghost predicate Guarded(s: State, b: Block, h: Guard) {
    || (Entered(s.guards, h) && !IsAlive(s.guards, h))
    || OwnedBySome(s.guards, b)
    || (b in s.heap.freed && h in s.heap.freed[b].blockers)
  }

  lemma StepKeepsGuarded(s: State, step: Step, b: Block, h: Guard)
    requires FreesOk(s.guards, s.heap) && Enabled(s, step) && Guarded(s, b, h) && Entered(s.guards, h)
    ensures Guarded(Do(s, step), b, h) && Entered(Do(s, step).guards, h)
  {
    var s' := Do(s, step);
    if OwnedBySome(s.guards, b) && IsAlive(s'.guards, h) {
      var g :| IsAlive(s.guards, g) && s.guards[g].op.Owned? && s.guards[g].op.block == b;
      if step == Append(g) {
        assert h in Alive(s.guards);
      } else {
        assert IsAlive(s'.guards, g) && s'.guards[g].op == s.guards[g].op;
      }
    }
  }

  lemma BlockersOfDestroyedLeft(s: State, b: Block, h: Guard)
    requires BlockInv(s.heap, s.guards, s.hist) && Guarded(s, b, h)
    ensures b in s.heap.destroyed ==> !IsAlive(s.guards, h)
  {
    if b in s.heap.destroyed {
      var r := s.heap.freed[b];
      assert Behind(r.list, r.blockers, s.guards, s.hist);
    }
  }

  /**
   The safety of the reclamation: a guard that is alive at any moment while the winning call of
   `free` owns a block has left by the time the destructor of that block has run.
   */
  lemma {:induction false} DestroyedAfterGuardsLeft(steps: seq<Step>, i: nat, g: Guard, h: Guard)
    requires i <= |steps| && Exec(steps).Reached? && Exec(steps[..i]).Reached?
    requires IsAlive(Exec(steps[..i]).state.guards, g) && Exec(steps[..i]).state.guards[g].op.Owned?
    requires IsAlive(Exec(steps[..i]).state.guards, h)
    ensures var b := Exec(steps[..i]).state.guards[g].op.block;
            && Guarded(Exec(steps).state, b, h)
            && Entered(Exec(steps).state.guards, h)
            && (b in Exec(steps).state.heap.destroyed ==> !IsAlive(Exec(steps).state.guards, h))
  {
    var b := Exec(steps[..i]).state.guards[g].op.block;
    ExecInv(steps);
    if i == |steps| {
      assert steps[..i] == steps;
    } else {
      var before := steps[..|steps| - 1];
      assert before[..i] == steps[..i];
      ExecInv(before);
      DestroyedAfterGuardsLeft(before, i, g, h);
      StepKeepsGuarded(Exec(before).state, steps[|steps| - 1], b, h);
    }
    BlockersOfDestroyedLeft(Exec(steps).state, b, h);
  }

  // Nothing is lost

  /** A freed block is on its list until its destructor has run. */
  ghost predicate Listed(heap: Heap) {
    forall b :: b in heap.freed ==> b in heap.destroyed || OnList(heap, heap.freed[b].list, b)
  }

  predicate OnList(heap: Heap, k: nat, b: Block) {
    k in heap.lists && b in heap.lists[k]
  }

  predicate HasDeleter(guards: map<Guard, GuardState>, k: nat) {
    exists g :: g in guards && guards[g].Deleting? && guards[g].list == k
  }

  /** A list that has left the rotation is held by a guard that will delete it. */
  ghost predicate DeletersHold(guards: map<Guard, GuardState>, lists: map<nat, set<Block>>, h: History) {
    forall k :: k in lists && k + (if h.rotator.Somebody? then 1 else 0) < h.epoch ==> HasDeleter(guards, k)
  }

  /** A block that was taken by a call of `free` is in the hands of that call, or was put on a list. */
  ghost predicate OwnersHold(guards: map<Guard, GuardState>, heap: Heap) {
    forall b :: b in heap.owned ==> b in heap.freed || OwnedBySome(guards, b)
  }

  ghost predicate Kept(s: State) {
    Listed(s.heap) && DeletersHold(s.guards, s.heap.lists, s.hist) && OwnersHold(s.guards, s.heap)
  }

  lemma AppendKeepsListed(heap: Heap, b: Block, r: Record, entries: set<Block>)
    requires Listed(heap) && (r.list in heap.lists ==> entries == heap.lists[r.list])
    ensures Listed(heap.(lists := heap.lists[r.list := entries + {b}], freed := heap.freed[b := r]))
  {
    var heap' := heap.(lists := heap.lists[r.list := entries + {b}], freed := heap.freed[b := r]);
    forall c | c in heap'.freed ensures c in heap'.destroyed || OnList(heap', heap'.freed[c].list, c) {
      assert c != b ==> c in heap.destroyed || OnList(heap, heap.freed[c].list, c);
    }
  }

  lemma NewListKeepsListed(heap: Heap, k: nat)
    requires Listed(heap) && k !in heap.lists
    ensures Listed(heap.(lists := heap.lists[k := {}]))
  {
    var heap' := heap.(lists := heap.lists[k := {}]);
    forall c | c in heap'.freed ensures c in heap'.destroyed || OnList(heap', heap'.freed[c].list, c) {
      assert c in heap.destroyed || OnList(heap, heap.freed[c].list, c);
    }
  }

  /** Deleting a list runs the destructor of every block on it. */
  lemma DeleteKeepsListed(heap: Heap, k: nat)
    requires Listed(heap) && k in heap.lists
    ensures Listed(heap.(lists := heap.lists - {k}, destroyed := heap.destroyed + multiset(heap.lists[k])))
  {
    var heap' := heap.(lists := heap.lists - {k}, destroyed := heap.destroyed + multiset(heap.lists[k]));
    forall c | c in heap'.freed ensures c in heap'.destroyed || OnList(heap', heap'.freed[c].list, c) {
      assert c in heap.destroyed || OnList(heap, heap.freed[c].list, c);
    }
  }

  lemma StepKeepsListed(s: State, step: Step)
    requires ControlInv(s) && Enabled(s, step) && Listed(s.heap)
    ensures Listed(Do(s, step).heap)
  {
    match step
    case Append(g) =>
      var Inside(_, Owned(b, l)) := s.guards[g];
      AppendKeepsListed(s.heap, b, Record(l, Alive(s.guards)), if l in s.heap.lists then s.heap.lists[l] else {});
    case Rotate(g) => if s.guards[g].pc == 12 { NewListKeepsListed(s.heap, s.ptrs.nextList); }
    case Delete(g) => DeleteKeepsListed(s.heap, s.guards[g].list);
    case _ =>
  }

  /** A guard that is not deleting may change; the list of one that starts deleting is held by it. */
  lemma GuardKeepsDeleters(guards: map<Guard, GuardState>, lists: map<nat, set<Block>>, h: History, h': History, g: Guard, gs: GuardState)
    requires DeletersHold(guards, lists, h) && (g in guards ==> !guards[g].Deleting?)
    requires forall k :: k in lists && k + (if h'.rotator.Somebody? then 1 else 0) < h'.epoch ==>
               k + (if h.rotator.Somebody? then 1 else 0) < h.epoch || gs == Deleting(k)
    ensures DeletersHold(guards[g := gs], lists, h')
  {
    forall k | k in lists && k + (if h'.rotator.Somebody? then 1 else 0) < h'.epoch ensures HasDeleter(guards[g := gs], k) {
      if gs == Deleting(k) {
        assert guards[g := gs][g] == gs;
      } else {
        var d :| d in guards && guards[d].Deleting? && guards[d].list == k;
        assert guards[g := gs][d] == guards[d];
      }
    }
  }

  lemma DeleteKeepsDeleters(guards: map<Guard, GuardState>, lists: map<nat, set<Block>>, h: History, g: Guard)
    requires DeletersHold(guards, lists, h) && g in guards && guards[g].Deleting?
    ensures DeletersHold(guards[g := Done], lists - {guards[g].list}, h)
  {
    var lists' := lists - {guards[g].list};
    forall k | k in lists' && k + (if h.rotator.Somebody? then 1 else 0) < h.epoch ensures HasDeleter(guards[g := Done], k) {
      var d :| d in guards && guards[d].Deleting? && guards[d].list == k;
      assert guards[g := Done][d] == guards[d];
    }
  }

  lemma NoOldListAppears(s: State, step: Step)
    requires ControlInv(s) && Enabled(s, step)
    ensures forall k :: k in Do(s, step).heap.lists && k < s.hist.epoch ==> k in s.heap.lists
  {
    if step.Append? || step.Rotate? {
      assert GuardOk(s.guards[step.g], step.g, s.hist, s.ptrs.nextList);
    }
  }

  /** Only the end of a rotation takes a list out of it, and hands it to the rotating guard. */
  lemma OnlyOpeningReleases(s: State, step: Step, k: nat)
    requires ControlInv(s) && Enabled(s, step)
    requires k + (if Do(s, step).hist.rotator.Somebody? then 1 else 0) < Do(s, step).hist.epoch
    ensures k + (if s.hist.rotator.Somebody? then 1 else 0) < s.hist.epoch || Do(s, step).guards[step.g] == Deleting(k)
  {
    if step.Rotate? {
      assert GuardOk(s.guards[step.g], step.g, s.hist, s.ptrs.nextList);
    }
  }

  lemma StepKeepsDeleters(s: State, step: Step)
    requires ControlInv(s) && Enabled(s, step) && DeletersHold(s.guards, s.heap.lists, s.hist)
    ensures DeletersHold(Do(s, step).guards, Do(s, step).heap.lists, Do(s, step).hist)
  {
    if step.Delete? {
      DeleteKeepsDeleters(s.guards, s.heap.lists, s.hist, step.g);
    } else {
      ChangeKeepsDeleters(s, step);
    }
  }

  lemma OneGuardChanges(s: State, step: Step)
    requires Enabled(s, step)
    ensures step.g in Do(s, step).guards && Do(s, step).guards == s.guards[step.g := Do(s, step).guards[step.g]]
    ensures step.g in s.guards && s.guards[step.g].Deleting? ==> step.Delete?
  {
  }

  lemma ChangeKeepsDeleters(s: State, step: Step)
    requires ControlInv(s) && Enabled(s, step) && !step.Delete? && DeletersHold(s.guards, s.heap.lists, s.hist)
    ensures DeletersHold(Do(s, step).guards, Do(s, step).heap.lists, Do(s, step).hist)
  {
    var s' := Do(s, step);
    NoOldListAppears(s, step);
    forall k: nat | k + (if s'.hist.rotator.Somebody? then 1 else 0) < s'.hist.epoch
      ensures k + (if s.hist.rotator.Somebody? then 1 else 0) < s.hist.epoch || s'.guards[step.g] == Deleting(k)
    {
      OnlyOpeningReleases(s, step, k);
    }
    OneGuardChanges(s, step);
    GuardKeepsDeleters(s.guards, s'.heap.lists, s.hist, s'.hist, step.g, s'.guards[step.g]);
  }

  lemma StepKeepsOwners(s: State, step: Step)
    requires Enabled(s, step) && OwnersHold(s.guards, s.heap)
    ensures OwnersHold(Do(s, step).guards, Do(s, step).heap)
  {
    var s' := Do(s, step);
    forall b | b in s'.heap.owned ensures b in s'.heap.freed || OwnedBySome(s'.guards, b) {
      if b in s.heap.owned && b !in s.heap.freed {
        var g :| IsAlive(s.guards, g) && g in s.guards && s.guards[g].op.Owned? && s.guards[g].op.block == b;
        assert step == Append(g) || (IsAlive(s'.guards, g) && s'.guards[g].op == s.guards[g].op);
      } else if b !in s.heap.owned {
        assert IsAlive(s'.guards, step.g) && s'.guards[step.g].op.Owned? && s'.guards[step.g].op.block == b;
      }
    }
  }

  lemma {:induction false} ExecKept(steps: seq<Step>)
    requires Exec(steps).Reached?
    ensures Kept(Exec(steps).state)
  {
    if steps != [] {
      var before, step := steps[..|steps| - 1], steps[|steps| - 1];
      ExecKept(before);
      ExecInv(before);
      StepKeepsListed(Exec(before).state, step);
      StepKeepsDeleters(Exec(before).state, step);
      StepKeepsOwners(Exec(before).state, step);
    }
  }

  /** Some guard is about to delete the list: the one that rotates, or one that is done with it. */
  predicate BeingDeleted(s: State, k: nat) {
    || HasDeleter(s.guards, k)
    || (exists g :: g in s.guards && s.guards[g].Rotating? && s.guards[g].pc >= 8 && s.guards[g].d == k)
  }

  /**
   Destructors run exactly once. A block that a call of `free` has taken is in the hands of that
   call, or it is on one list and not destroyed, or its destructor has run once. The list is one of
   the three of the rotation, or a guard is about to delete it.
   */
  lemma TakenBlocksAreKept(steps: seq<Step>, b: Block)
    requires Exec(steps).Reached? && b in Exec(steps).state.heap.owned
    ensures var s := Exec(steps).state; var heap := s.heap;
            || (OwnedBySome(s.guards, b) && b !in heap.freed && heap.destroyed[b] == 0)
            || (b in heap.freed && heap.destroyed[b] == 1 && forall k :: !OnList(heap, k, b))
            || (b in heap.freed && heap.destroyed[b] == 0 && OnList(heap, heap.freed[b].list, b)
                && (forall k :: OnList(heap, k, b) ==> k == heap.freed[b].list)
                && (heap.freed[b].list in {s.ptrs.activeList, s.ptrs.oldList, s.ptrs.oldestList} || BeingDeleted(s, heap.freed[b].list)))
  {
    ExecInv(steps);
    ExecKept(steps);
    var s := Exec(steps).state;
    if b in s.heap.freed && b !in s.heap.destroyed {
      ListIsReachable(s, s.heap.freed[b].list);
    }
  }

  lemma ListIsReachable(s: State, k: nat)
    requires ControlInv(s) && DeletersHold(s.guards, s.heap.lists, s.hist) && k in s.heap.lists
    ensures k in {s.ptrs.activeList, s.ptrs.oldList, s.ptrs.oldestList} || BeingDeleted(s, k)
  {
    if k + (if s.hist.rotator.Somebody? then 1 else 0) >= s.hist.epoch && s.hist.rotator.Somebody? {
      var g := s.hist.rotator.guard;
      assert g in s.guards && s.guards[g].Rotating?;
    }
  }

  /** No call of `free` reaches a deleted list, and none touches the node of a destroyed block. */
  lemma FreesTouchLiveMemory(steps: seq<Step>, g: Guard)
    requires Exec(steps).Reached? && IsAlive(Exec(steps).state.guards, g)
    ensures var s := Exec(steps).state; var op := s.guards[g].op;
            && (op.Loaded? || op.Owned? ==> op.list in s.heap.lists)
            && (!op.NoFree? ==> op.block !in s.heap.destroyed)
  {
    ExecInv(steps);
    var s := Exec(steps).state;
    assert GuardOk(s.guards[g], g, s.hist, s.ptrs.nextList);
  }

  /** Destructors run at most once, no block is on two lists, and none is both listed and destroyed. */
  lemma BlocksHaveOnePlace(steps: seq<Step>, b: Block)
    requires Exec(steps).Reached?
    ensures var heap := Exec(steps).state.heap;
            && heap.destroyed[b] <= 1
            && (forall k :: k in heap.lists && b in heap.lists[k] ==> b !in heap.destroyed)
            && (forall j, k :: j in heap.lists && k in heap.lists && b in heap.lists[j] && b in heap.lists[k] ==> j == k)
  {
    ExecInv(steps);
  }

  /** At most one guard rotates, and the lists waiting for deletion are live and distinct. */
  lemma RotationsExclude(steps: seq<Step>, g: Guard, h: Guard)
    requires Exec(steps).Reached?
    requires g in Exec(steps).state.guards && h in Exec(steps).state.guards && g != h
    ensures var s := Exec(steps).state;
            && !(s.guards[g].Rotating? && s.guards[h].Rotating?)
            && (s.guards[g].Deleting? ==> s.guards[g].list in s.heap.lists)
            && !(s.guards[g].Deleting? && s.guards[h].Deleting? && s.guards[g].list == s.guards[h].list)
  {
    ExecInv(steps);
    var s := Exec(steps).state;
    assert GuardOk(s.guards[g], g, s.hist, s.ptrs.nextList) && GuardOk(s.guards[h], h, s.hist, s.ptrs.nextList);
  }
}
