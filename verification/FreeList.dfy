/**
 The lists of freed blocks: `node::own`, `list::append` and `list::destruct` on linked nodes, for
 any number of concurrent calls. Each load, store and compare-and-swap is one step.
 */
module FreeList {

  type Node = nat

  /** The `next` field: 0x1 while nobody has freed the block, then null or another node. */
  datatype Link = Unowned | Null | To(node: Node)

  /** One call of `append(node, list)`; calls are numbered and a number is never used again. */
  datatype Call =
    | LoadNext(node: Node, list: nat)
    | SwapNext(node: Node, list: nat)
    | LoadHead(node: Node, list: nat)
    | StoreNext(node: Node, list: nat, head: Link)
    | SwapHead(node: Node, list: nat, head: Link)
    | Pushed(node: Node, list: nat)
    | Refused(node: Node, list: nat)

  /** History: who owns a node, or where it was pushed. */
  datatype Place = Held(call: nat) | Listed(list: nat, index: nat)

  /** `pushed` is history: for every list its nodes in the order their head swap succeeded. */
  datatype State = State(
    next: map<Node, Link>,
    heads: seq<Link>,
    calls: map<nat, Call>,
    place: map<Node, Place>,
    pushed: seq<seq<Node>>)

  datatype Step =
    | Malloc(node: Node)
    | Append(call: nat, node: Node, list: nat)
    | Run(call: nat)

  const NUM_LISTS := 64

  function Init(): State {
    State(map[], seq(NUM_LISTS, _ => Null), map[], map[], seq(NUM_LISTS, _ => []))
  }

  predicate Enabled(s: State, step: Step) {
    match step
    case Malloc(n) => n !in s.next
    case Append(c, n, l) => c !in s.calls && n in s.next && l < |s.heads|
    case Run(c) =>
      && c in s.calls && !s.calls[c].Pushed? && !s.calls[c].Refused?
      && s.calls[c].node in s.next && s.calls[c].list < |s.heads| && s.calls[c].list < |s.pushed|
  }

  function Do(s: State, step: Step): State
    requires Enabled(s, step)
  {
    match step
    case Malloc(n) => s.(next := s.next[n := Unowned])
    case Append(c, n, l) => s.(calls := s.calls[c := LoadNext(n, l)])
    case Run(c) => DoRun(s, c)
  }

  function Continue(s: State, c: nat, call: Call): State {
    s.(calls := s.calls[c := call])
  }

  function DoRun(s: State, c: nat): State
    requires Enabled(s, Run(c))
  {
    match s.calls[c]
    case LoadNext(n, l) =>
      Continue(s, c, if s.next[n] != Unowned then Refused(n, l) else SwapNext(n, l))
    case SwapNext(n, l) =>
      if s.next[n] == Unowned then
        Continue(s, c, LoadHead(n, l)).(next := s.next[n := Null], place := s.place[n := Held(c)])
      else
        Continue(s, c, LoadNext(n, l))
    case LoadHead(n, l) => Continue(s, c, StoreNext(n, l, s.heads[l]))
    case StoreNext(n, l, head) => Continue(s, c, SwapHead(n, l, head)).(next := s.next[n := head])
    case SwapHead(n, l, head) =>
      if s.heads[l] == head then
        Continue(s, c, Pushed(n, l)).(
          heads := s.heads[l := To(n)],
          place := s.place[n := Listed(l, |s.pushed[l]|)],
          pushed := s.pushed[l := s.pushed[l] + [n]])
      else
        Continue(s, c, LoadHead(n, l))
    case _ => s
  }

  datatype Outcome = Stuck | Reached(state: State)

  function Exec(steps: seq<Step>): Outcome {
    if steps == [] then Reached(Init())
    else
      match Exec(steps[..|steps| - 1])
      case Stuck => Stuck
      case Reached(s) => if Enabled(s, steps[|steps| - 1]) then Reached(Do(s, steps[|steps| - 1])) else Stuck
  }

  // The invariant

  /** Following `next` from `head` visits `nodes` backwards and ends at null. */
  ghost predicate Chain(next: map<Node, Link>, head: Link, nodes: seq<Node>)
    decreases nodes
  {
    if nodes == [] then head == Null
    else
      var last := nodes[|nodes| - 1];
      head == To(last) && last in next && Chain(next, next[last], nodes[..|nodes| - 1])
  }

  lemma {:induction false} ChainFrame(next: map<Node, Link>, head: Link, nodes: seq<Node>, n: Node, link: Link)
    requires Chain(next, head, nodes) && n !in nodes
    ensures Chain(next[n := link], head, nodes)
    decreases nodes
  {
    if nodes != [] {
      ChainFrame(next, next[nodes[|nodes| - 1]], nodes[..|nodes| - 1], n, link);
    }
  }

  predicate Holds(call: Call) {
    call.LoadHead? || call.StoreNext? || call.SwapHead?
  }

  ghost predicate CallOk(s: State, c: nat)
    requires c in s.calls
  {
    var call := s.calls[c];
    && call.node in s.next && call.list < NUM_LISTS
    && (Holds(call) ==> call.node in s.place && s.place[call.node] == Held(c))
    && (call.StoreNext? || call.SwapHead? ==> call.head != Unowned)
    && (call.SwapHead? ==> s.next[call.node] == call.head)
    && (call.Pushed? ==> call.node in s.place && s.place[call.node].Listed? && s.place[call.node].list == call.list)
    && (call.Refused? ==> call.node in s.place)
  }

  ghost predicate CallsOk(s: State) {
    && (forall c :: c in s.calls ==> CallOk(s, c))
    && (forall c, d :: c in s.calls && d in s.calls && s.calls[c].Pushed? && s.calls[d].Pushed? && c != d ==>
          s.calls[c].node != s.calls[d].node)
  }

  ghost predicate PlacesOk(s: State) {
    && (forall n :: n in s.next ==> (s.next[n] == Unowned <==> n !in s.place))
    && (forall n :: n in s.place ==> n in s.next)
    && (forall n :: n in s.place && s.place[n].Held? ==>
          s.place[n].call in s.calls && Holds(s.calls[s.place[n].call]) && s.calls[s.place[n].call].node == n)
    && (forall n :: n in s.place && s.place[n].Listed? ==>
          s.place[n].list < |s.pushed| && s.place[n].index < |s.pushed[s.place[n].list]| &&
          s.pushed[s.place[n].list][s.place[n].index] == n)
    && (forall l, i :: 0 <= l < |s.pushed| && 0 <= i < |s.pushed[l]| ==>
          s.pushed[l][i] in s.place && s.place[s.pushed[l][i]] == Listed(l, i))
  }

  ghost predicate ChainsOk(s: State) {
    && |s.heads| == NUM_LISTS && |s.pushed| == NUM_LISTS
    && forall l :: 0 <= l < NUM_LISTS ==> Chain(s.next, s.heads[l], s.pushed[l])
  }

  ghost predicate Inv(s: State) {
    CallsOk(s) && PlacesOk(s) && ChainsOk(s)
  }

  /** Writing the `next` field of a node that is on no list keeps every chain. */
  lemma ChainsKept(s: State, n: Node, link: Link)
    requires ChainsOk(s) && PlacesOk(s) && (n in s.place ==> s.place[n].Held?)
    ensures forall l :: 0 <= l < NUM_LISTS ==> Chain(s.next[n := link], s.heads[l], s.pushed[l])
  {
    forall l | 0 <= l < NUM_LISTS
      ensures Chain(s.next[n := link], s.heads[l], s.pushed[l])
    {
      ChainFrame(s.next, s.heads[l], s.pushed[l], n, link);
    }
  }

  /** A call that only moves on, without gaining or losing its node. */
  lemma ContinueKeepsInv(s: State, c: nat, call: Call)
    requires Inv(s) && c in s.calls && !s.calls[c].Pushed? && !call.Pushed?
    requires call.node == s.calls[c].node && Holds(call) == Holds(s.calls[c])
    requires CallOk(Continue(s, c, call), c)
    ensures Inv(Continue(s, c, call))
  {
    var s' := Continue(s, c, call);
    forall d | d in s'.calls && d != c ensures CallOk(s', d) { assert CallOk(s, d); }
  }

  lemma RetryKeepsInv(s: State, c: nat)
    requires Inv(s) && Enabled(s, Run(c))
    requires s.calls[c].LoadNext? || (s.calls[c].SwapNext? && s.next[s.calls[c].node] != Unowned) ||
             (s.calls[c].SwapHead? && s.heads[s.calls[c].list] != s.calls[c].head)
    ensures Inv(DoRun(s, c))
  {
    assert CallOk(s, c);
    ContinueKeepsInv(s, c, DoRun(s, c).calls[c]);
  }

  lemma OwnKeepsInv(s: State, c: nat)
    requires Inv(s) && Enabled(s, Run(c)) && s.calls[c].SwapNext? && s.next[s.calls[c].node] == Unowned
    ensures CallsOk(DoRun(s, c))
    ensures PlacesOk(DoRun(s, c))
    ensures ChainsOk(DoRun(s, c))
  {
    assert CallOk(s, c);
    ChainsKept(s, s.calls[c].node, Null);
    var s' := DoRun(s, c);
    forall d | d in s'.calls ensures CallOk(s', d) { assert CallOk(s, d); }
  }

  lemma LoadHeadKeepsInv(s: State, c: nat)
    requires Inv(s) && Enabled(s, Run(c)) && s.calls[c].LoadHead?
    ensures Inv(DoRun(s, c))
  {
    assert CallOk(s, c);
    var l := s.calls[c].list;
    assert Chain(s.next, s.heads[l], s.pushed[l]);
    ContinueKeepsInv(s, c, DoRun(s, c).calls[c]);
  }

  lemma StoreNextKeepsInv(s: State, c: nat)
    requires Inv(s) && Enabled(s, Run(c)) && s.calls[c].StoreNext?
    ensures Inv(DoRun(s, c))
  {
    assert CallOk(s, c);
    var StoreNext(n, l, head) := s.calls[c];
    ChainsKept(s, n, head);
    var s1 := s.(next := s.next[n := head]);
    forall d | d in s1.calls ensures CallOk(s1, d) { assert CallOk(s, d); }
    ContinueKeepsInv(s1, c, SwapHead(n, l, head));
  }

  predicate Swaps(s: State, c: nat)
    requires Enabled(s, Run(c))
  {
    s.calls[c].SwapHead? && s.heads[s.calls[c].list] == s.calls[c].head
  }

  lemma SwapKeepsCalls(s: State, c: nat)
    requires CallsOk(s) && Enabled(s, Run(c)) && Swaps(s, c)
    ensures CallsOk(DoRun(s, c))
  {
    assert CallOk(s, c);
  }

  lemma SwapKeepsPlaces(s: State, c: nat)
    requires PlacesOk(s) && Enabled(s, Run(c)) && CallOk(s, c) && Swaps(s, c)
    ensures PlacesOk(DoRun(s, c))
  {
  }

  lemma SwapKeepsChains(s: State, c: nat)
    requires ChainsOk(s) && Enabled(s, Run(c)) && CallOk(s, c) && Swaps(s, c)
    ensures ChainsOk(DoRun(s, c))
  {
    var n, l := s.calls[c].node, s.calls[c].list;
    var nodes := s.pushed[l] + [n];
    assert nodes[..|nodes| - 1] == s.pushed[l];
  }

  lemma RunKeepsInv(s: State, c: nat)
    requires Inv(s) && Enabled(s, Run(c))
    ensures Inv(DoRun(s, c))
  {
    assert CallOk(s, c);
    match s.calls[c]
    case LoadHead(_, _) => LoadHeadKeepsInv(s, c);
    case StoreNext(_, _, _) => StoreNextKeepsInv(s, c);
    case SwapNext(n, _) => if s.next[n] == Unowned { OwnKeepsInv(s, c); } else { RetryKeepsInv(s, c); }
    case SwapHead(_, _, _) =>
      if Swaps(s, c) {
        SwapKeepsCalls(s, c);
        SwapKeepsPlaces(s, c);
        SwapKeepsChains(s, c);
      } else {
        RetryKeepsInv(s, c);
      }
    case _ => RetryKeepsInv(s, c);
  }

  lemma StepKeepsInv(s: State, step: Step)
    requires Inv(s) && Enabled(s, step)
    ensures Inv(Do(s, step))
  {
    match step
    case Malloc(n) => ChainsKept(s, n, Unowned);
    case Append(c, n, l) =>
    case Run(c) => RunKeepsInv(s, c);
  }

  lemma {:induction false} ExecInv(steps: seq<Step>)
    requires Exec(steps).Reached?
    ensures Inv(Exec(steps).state)
  {
    if steps != [] {
      ExecInv(steps[..|steps| - 1]);
      StepKeepsInv(Exec(steps[..|steps| - 1]).state, steps[|steps| - 1]);
    }
  }

  // What holds of every run

  /** `list::destruct`: the recursive call on the next node comes before the node's own destructor. */
  function Destruct(next: map<Node, Link>, head: Link, ghost nodes: seq<Node>): (log: seq<Node>)
    requires Chain(next, head, nodes)
    ensures log == nodes
    decreases nodes
  {
    match head
    case To(n) => Destruct(next, next[n], nodes[..|nodes| - 1]) + [n]
    case _ => []
  }

  /** Deleting any list runs its destructors in the order in which the blocks were pushed. */
  lemma DestructorsRunInPushOrder(steps: seq<Step>, l: nat)
    requires Exec(steps).Reached? && l < NUM_LISTS
    ensures var s := Exec(steps).state;
            && |s.heads| == |s.pushed| == NUM_LISTS
            && Chain(s.next, s.heads[l], s.pushed[l])
            && Destruct(s.next, s.heads[l], s.pushed[l]) == s.pushed[l]
  {
    ExecInv(steps);
  }

  /** A node is on one list at one position at most, so its destructor runs at most once. */
  lemma PushedOnce(steps: seq<Step>, l: nat, i: nat, m: nat, j: nat)
    requires Exec(steps).Reached?
    requires l < |Exec(steps).state.pushed| && i < |Exec(steps).state.pushed[l]|
    requires m < |Exec(steps).state.pushed| && j < |Exec(steps).state.pushed[m]|
    requires Exec(steps).state.pushed[l][i] == Exec(steps).state.pushed[m][j]
    ensures l == m && i == j
  {
    ExecInv(steps);
  }

  /**
   Of all calls for the same node at most one pushes it, onto the list it was called for; a call is
   refused only if another one owns the node or has pushed it, and that one is not refused.
   */
  lemma OneCallWins(steps: seq<Step>, c: nat, d: nat)
    requires Exec(steps).Reached? && c in Exec(steps).state.calls && d in Exec(steps).state.calls && c != d
    requires Exec(steps).state.calls[c].node == Exec(steps).state.calls[d].node
    ensures var s := Exec(steps).state; var n := s.calls[c].node;
            && !(s.calls[c].Pushed? && s.calls[d].Pushed?)
            && (s.calls[c].Pushed? ==> s.calls[c].list < |s.pushed| && n in s.pushed[s.calls[c].list])
            && (s.calls[c].Refused? ==>
                  || (exists l :: 0 <= l < |s.pushed| && n in s.pushed[l])
                  || (exists w :: w in s.calls && Holds(s.calls[w]) && s.calls[w].node == n))
  {
    ExecInv(steps);
    var s := Exec(steps).state;
    assert CallOk(s, c) && CallOk(s, d);
    if s.calls[c].Refused? {
      var p := s.place[s.calls[c].node];
      assert p.Listed? ==> s.pushed[p.list][p.index] in s.pushed[p.list];
    }
  }

  /** Once a call for a node has finished and none is at work on it, the node is at one position of one list. */
  lemma FinishedIsListed(steps: seq<Step>, n: Node, c: nat) returns (l: nat, i: nat)
    requires Exec(steps).Reached? && c in Exec(steps).state.calls && Exec(steps).state.calls[c].node == n
    requires Exec(steps).state.calls[c].Pushed? || Exec(steps).state.calls[c].Refused?
    requires forall d :: d in Exec(steps).state.calls && Exec(steps).state.calls[d].node == n ==> !Holds(Exec(steps).state.calls[d])
    ensures var pushed := Exec(steps).state.pushed;
            && l < |pushed| && i < |pushed[l]| && pushed[l][i] == n
            && forall m, j :: 0 <= m < |pushed| && 0 <= j < |pushed[m]| && pushed[m][j] == n ==> m == l && j == i
  {
    ExecInv(steps);
    var s := Exec(steps).state;
    assert CallOk(s, c);
    l, i := s.place[n].list, s.place[n].index;
  }

  // Progress

  lemma Extend(steps: seq<Step>, s: State, step: Step) returns (steps': seq<Step>, s': State)
    requires Exec(steps) == Reached(s) && Enabled(s, step)
    ensures steps' == steps + [step] && s' == Do(s, step) && Exec(steps') == Reached(s')
  {
    steps', s' := steps + [step], Do(s, step);
    assert steps'[..|steps'| - 1] == steps;
  }

  /** How many steps of its own a call needs. */
  function StepsLeft(call: Call, s: State): nat
    requires call.node in s.next && call.list < |s.heads|
  {
    match call
    case LoadNext(_, _) => 5
    case SwapNext(n, _) => if s.next[n] == Unowned then 4 else 6
    case LoadHead(_, _) => 3
    case StoreNext(_, l, h) => if h == s.heads[l] then 2 else 5
    case SwapHead(_, l, h) => if h == s.heads[l] then 1 else 4
    case _ => 0
  }

  /** The call gets its node: it holds it, or nobody has taken it. */
  predicate WillPush(s: State, c: nat) {
    c in s.calls && (Holds(s.calls[c]) || (s.calls[c].node in s.next && s.next[s.calls[c].node] == Unowned))
  }

  lemma CallStep(s: State, c: nat)
    requires Inv(s) && c in s.calls && !s.calls[c].Pushed? && !s.calls[c].Refused?
    ensures Enabled(s, Run(c))
    ensures var s' := Do(s, Run(c)); var call := s.calls[c]; var call' := s'.calls[c];
            && call'.node == call.node && call'.list == call.list && call.node in s'.next && |s'.heads| == |s.heads|
            && StepsLeft(call', s') < StepsLeft(call, s)
            && (call'.Pushed? ==> WillPush(s, c) && s'.pushed == s.pushed[call.list := s.pushed[call.list] + [call.node]])
            && (!call'.Pushed? ==> s'.pushed == s.pushed && (WillPush(s, c) <==> WillPush(s', c)))
            && (call'.Refused? ==> !WillPush(s, c))
  {
    assert CallOk(s, c);
  }

  /** A call run alone finishes by at most six steps: it puts its node at the end of its list, or is refused if the node is taken. */
  lemma {:induction false} CallFinishes(steps: seq<Step>, s: State, c: nat) returns (steps': seq<Step>, s': State)
    requires Exec(steps) == Reached(s) && c in s.calls && !s.calls[c].Pushed? && !s.calls[c].Refused?
    ensures s.calls[c].node in s.next && s.calls[c].list < |s.heads| && s.calls[c].list < |s.pushed|
    ensures Exec(steps') == Reached(s') && c in s'.calls && |steps'| <= |steps| + StepsLeft(s.calls[c], s)
    ensures WillPush(s, c) ==>
              s'.calls[c].Pushed? && s'.pushed == s.pushed[s.calls[c].list := s.pushed[s.calls[c].list] + [s.calls[c].node]]
    ensures !WillPush(s, c) ==> s'.calls[c].Refused? && s'.pushed == s.pushed
    decreases if s.calls[c].node in s.next && s.calls[c].list < |s.heads| then StepsLeft(s.calls[c], s) else 0
  {
    ExecInv(steps);
    assert CallOk(s, c);
    CallStep(s, c);
    steps', s' := Extend(steps, s, Run(c));
    if !s'.calls[c].Pushed? && !s'.calls[c].Refused? {
      steps', s' := CallFinishes(steps', s', c);
    }
  }
}
