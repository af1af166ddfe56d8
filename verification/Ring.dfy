/**
 The multi-producer, single-consumer ring: `write`, `read` and `readMultiple`, for any number of
 producers and one consumer. Each access to `_insert_place`, `_consumed`, an `is_valid` flag or a
 slot value is one step.

 A producer is named by the position it claimed; positions stay below 2^64. `_consumed` starts at
 the largest 64-bit value and wraps to zero when the first item is consumed.
 */
module Ring {
  import Bits

  const WORD := 0x1_0000_0000_0000_0000

  datatype Slot<V> = Slot(value: V, valid: bool)

  datatype Phase =
    | Waiting   // claimed, spinning in isFull
    | Granted   // saw room
    | Written   // constructed the value, flag not set yet

  /** Where the consumer is; `count` items were taken and `room` places are left in its output. */
  datatype Consumer =
    | Idle
    | CheckInsert(consumed: nat)
    | CheckValid(consumed: nat)
    | Clear(consumed: nat)
    | Take(consumed: nat)
    | Store(consumed: nat)
    | BatchCheck(consumed: nat, count: nat, room: nat)
    | BatchClear(consumed: nat, count: nat, room: nat)
    | BatchTake(consumed: nat, count: nat, room: nat)
    | BatchStore(consumed: nat, count: nat)

  /** `claims` and `out` are history: the values in claim order and the values consumed. */
  datatype State<V> = State(
    slots: seq<Slot<V>>,
    consumed: nat,
    insert: nat,
    pending: map<nat, Phase>,
    consumer: Consumer,
    claims: seq<V>,
    out: seq<V>)

  datatype Step<V> =
    | Claim(value: V)
    | CheckFull(pos: nat)
    | Construct(pos: nat)
    | Publish(pos: nat)
    | StartRead
    | StartReadMultiple(room: nat)
    | Consume

  function Init<V>(slots: seq<Slot<V>>): State<V> {
    State(slots, WORD - 1, 0, map[], Idle, [], [])
  }

  /** The 64-bit sum of two 64-bit numbers, given their exact sum. */
  function Wrap(x: nat): nat { if x < WORD then x else x - WORD }

  /** `_consumed + 1` in 64 bits. */
  function Next(consumed: nat): nat { Wrap(consumed + 1) }

  /** `pos - _consumed` in 64 bits. */
  function Distance(pos: nat, consumed: nat): nat
    requires consumed < WORD
  {
    Wrap(pos + (WORD - consumed))
  }

  /** `p % n`, the slot of position `p`; see IndexIsModulo. */
  function Index(p: nat, n: nat): (i: nat)
    requires n > 0
    ensures i < n
  {
    if p < n then p else Index(p - n, n)
  }

  lemma {:induction false} IndexIsModulo(p: nat, n: nat)
    requires n > 0
    ensures Index(p, n) == p % n
  {
    if p >= n {
      IndexIsModulo(p - n, n);
      ModuloStep(p - n, n);
    }
  }

  lemma ModuloStep(p: nat, n: nat)
    requires n > 0
    ensures (p + n) % n == p % n
  {
    var q, r := p / n, p % n;
    assert p + n == n * q + n + r;
    assert n * q + n == n * (q + 1);
    Bits.Remainder(p + n, n, q + 1, r);
  }

  predicate Enabled<V>(s: State<V>, step: Step<V>) {
    match step
    case Claim(_) => s.insert + 1 < WORD
    case CheckFull(p) => p in s.pending && s.pending[p].Waiting? && s.consumed < WORD
    case Construct(p) => p in s.pending && s.pending[p].Granted? && p < |s.claims| && |s.slots| > 0
    case Publish(p) => p in s.pending && s.pending[p].Written? && |s.slots| > 0
    case StartRead => s.consumer.Idle?
    case StartReadMultiple(_) => s.consumer.Idle?
    case Consume => !s.consumer.Idle? && |s.slots| > 0
  }

  function Do<V>(s: State<V>, step: Step<V>): State<V>
    requires Enabled(s, step)
  {
    match step
    case Claim(v) => s.(insert := s.insert + 1, pending := s.pending[s.insert := Waiting], claims := s.claims + [v])
    case CheckFull(p) =>
      if Distance(p, s.consumed) >= |s.slots| then s else s.(pending := s.pending[p := Granted])
    case Construct(p) =>
      var i := Index(p, |s.slots|);
      s.(slots := s.slots[i := s.slots[i].(value := s.claims[p])], pending := s.pending[p := Written])
    case Publish(p) =>
      var i := Index(p, |s.slots|);
      s.(slots := s.slots[i := s.slots[i].(valid := true)], pending := s.pending - {p})
    case StartRead => s.(consumer := CheckInsert(s.consumed))
    case StartReadMultiple(room) => s.(consumer := BatchCheck(s.consumed, 0, room))
    case Consume => DoConsume(s)
  }

  function DoConsume<V>(s: State<V>): State<V>
    requires Enabled(s, Consume)
  {
    var n := |s.slots|;
    match s.consumer
    case CheckInsert(c) => s.(consumer := if Next(c) >= s.insert then Idle else CheckValid(c))
    case CheckValid(c) => s.(consumer := if !s.slots[Index(Next(c), n)].valid then Idle else Clear(Next(c)))
    case Clear(c) => s.(slots := s.slots[Index(c, n) := s.slots[Index(c, n)].(valid := false)], consumer := Take(c))
    case Take(c) => s.(out := s.out + [s.slots[Index(c, n)].value], consumer := Store(c))
    case Store(c) => s.(consumed := c, consumer := Idle)
    case BatchCheck(c, k, room) =>
      s.(consumer := if !s.slots[Index(Wrap(Next(c) + k), n)].valid || room == 0 then BatchStore(c, k) else BatchClear(c, k, room))
    case BatchClear(c, k, room) =>
      var i := Index(Wrap(Next(c) + k), n);
      s.(slots := s.slots[i := s.slots[i].(valid := false)], consumer := BatchTake(c, k, room))
    case BatchTake(c, k, room) =>
      s.(out := s.out + [s.slots[Index(Wrap(Next(c) + k), n)].value],
         consumer := BatchCheck(c, k + 1, if room > 0 then room - 1 else 0))
    case BatchStore(c, k) => s.(consumed := Wrap(c + k), consumer := Idle)
    case Idle => s
  }

  datatype Outcome<V> = Stuck | Reached(state: State<V>)

  function Exec<V>(slots: seq<Slot<V>>, steps: seq<Step<V>>): Outcome<V> {
    if steps == [] then Reached(Init(slots))
    else
      match Exec(slots, steps[..|steps| - 1])
      case Stuck => Stuck
      case Reached(s) => if Enabled(s, steps[|steps| - 1]) then Reached(Do(s, steps[|steps| - 1])) else Stuck
  }

  // The invariant

  /** The number of items given back to the producers. */
  function Base<V>(s: State<V>): nat { Next(s.consumed) }

  /** The first position whose flag the consumer has not cleared. */
  function Cleared<V>(s: State<V>): nat {
    |s.out| + (if s.consumer.Take? || s.consumer.BatchTake? then 1 else 0)
  }

  /** A claimed position whose item is published and not yet taken. */
  predicate Published<V>(s: State<V>, p: nat) {
    Cleared(s) <= p < s.insert && p !in s.pending
  }

  ghost predicate ConsumerOk<V>(s: State<V>)
    requires Sizes(s)
  {
    var base := Base(s);
    match s.consumer
    case Idle => |s.out| == base
    case CheckInsert(c) => |s.out| == base && c == s.consumed
    case CheckValid(c) => |s.out| == base && c == s.consumed && base < s.insert
    case Clear(c) => |s.out| == base && c == base && Published(s, base)
    case Take(c) => |s.out| == base && c == base && base < s.insert && s.slots[Index(base, |s.slots|)].value == s.claims[base]
    case Store(c) => |s.out| == base + 1 && c == base
    case BatchCheck(c, k, _) => |s.out| == base + k && c == s.consumed
    case BatchClear(c, k, room) => |s.out| == base + k && c == s.consumed && room > 0 && Published(s, base + k)
    case BatchTake(c, k, room) =>
      && |s.out| == base + k && c == s.consumed && room > 0 && base + k < s.insert
      && s.slots[Index(base + k, |s.slots|)].value == s.claims[base + k]
    case BatchStore(c, k) => |s.out| == base + k && c == s.consumed
  }

  ghost predicate Sizes<V>(s: State<V>) {
    && |s.slots| >= 2
    && s.consumed < WORD
    && s.insert < WORD && |s.claims| == s.insert
    && Base(s) <= |s.out| <= Cleared(s) <= s.insert
    && Cleared(s) < Base(s) + |s.slots|
    && s.out == s.claims[..|s.out|]
  }

  /** Only positions in the window of size `|slots| - 1` past `Base` have been let through. */
  ghost predicate Window<V>(s: State<V>) {
    && (forall p :: p in s.pending ==> Cleared(s) <= p < s.insert)
    && (forall p :: p in s.pending && !s.pending[p].Waiting? ==> p < Base(s) + |s.slots| - 1)
    && (forall p: nat :: Cleared(s) <= p < s.insert && p !in s.pending ==> p < Base(s) + |s.slots| - 1)
  }

  /** Slots of published items hold them, slots of constructed items hold their values, the others are not valid. */
  ghost predicate ContentsOf<V>(slots: seq<Slot<V>>, pending: map<nat, Phase>, claims: seq<V>, base: nat, cleared: nat, insert: nat)
    requires |slots| > 0 && |claims| == insert
  {
    && (forall p: nat :: cleared <= p < insert && p !in pending ==> slots[Index(p, |slots|)] == Slot(claims[p], true))
    && (forall p :: p in pending && pending[p].Written? && p < insert ==> slots[Index(p, |slots|)].value == claims[p])
    && (forall p: nat :: base <= p < base + |slots| && (p < cleared || insert <= p || p in pending) ==>
          !slots[Index(p, |slots|)].valid)
  }

  ghost predicate Contents<V>(s: State<V>)
    requires Sizes(s)
  {
    ContentsOf(s.slots, s.pending, s.claims, Base(s), Cleared(s), s.insert)
  }

  ghost predicate Inv<V>(s: State<V>) {
    Sizes(s) && ConsumerOk(s) && Window(s) && Contents(s)
  }

  /** Two positions less than a ring apart use different slots. */
  lemma {:induction false} SlotsDiffer(p: nat, q: nat, n: nat)
    requires p < q < p + n
    ensures Index(p, n) != Index(q, n)
    decreases p
  {
    if p >= n {
      SlotsDiffer(p - n, q - n, n);
    }
  }

  lemma SlotIsPrivate(p: nat, base: nat, n: nat)
    requires base <= p < base + n
    ensures forall q: nat :: base <= q < base + n && q != p ==> Index(q, n) != Index(p, n)
  {
    forall q: nat | base <= q < base + n && q != p
      ensures Index(q, n) != Index(p, n)
    {
      if p < q { SlotsDiffer(p, q, n); } else { SlotsDiffer(q, p, n); }
    }
  }

  lemma InitInv<V>(slots: seq<Slot<V>>)
    requires |slots| >= 2 && forall i :: 0 <= i < |slots| ==> !slots[i].valid
    ensures Inv(Init(slots))
  {
  }

  lemma ClaimKeepsShape<V>(s: State<V>, v: V)
    requires Inv(s) && Enabled(s, Claim(v))
    ensures Sizes(Do(s, Claim(v))) && Window(Do(s, Claim(v)))
  {
  }

  lemma ClaimKeepsConsumer<V>(s: State<V>, v: V)
    requires Inv(s) && Enabled(s, Claim(v)) && Sizes(Do(s, Claim(v)))
    ensures ConsumerOk(Do(s, Claim(v)))
  {
  }

  lemma ClaimKeepsContents<V>(slots: seq<Slot<V>>, pending: map<nat, Phase>, claims: seq<V>, base: nat, cleared: nat, insert: nat, v: V)
    requires |slots| > 0 && |claims| == insert && ContentsOf(slots, pending, claims, base, cleared, insert)
    ensures ContentsOf(slots, pending[insert := Waiting], claims + [v], base, cleared, insert + 1)
  {
  }

  lemma ClaimKeepsInv<V>(s: State<V>, v: V)
    requires Inv(s) && Enabled(s, Claim(v))
    ensures Inv(Do(s, Claim(v)))
  {
    ClaimKeepsShape(s, v);
    ClaimKeepsConsumer(s, v);
    ClaimKeepsContents(s.slots, s.pending, s.claims, Base(s), Cleared(s), s.insert, v);
  }

  lemma CheckFullKeepsShape<V>(s: State<V>, p: nat)
    requires Inv(s) && Enabled(s, CheckFull(p))
    ensures Sizes(Do(s, CheckFull(p))) && Window(Do(s, CheckFull(p)))
  {
    assert Distance(p, s.consumed) == p - Base(s) + 1;
  }

  lemma GrantKeepsContents<V>(slots: seq<Slot<V>>, pending: map<nat, Phase>, claims: seq<V>, base: nat, cleared: nat, insert: nat, p: nat)
    requires |slots| > 0 && |claims| == insert && ContentsOf(slots, pending, claims, base, cleared, insert) && p in pending
    ensures ContentsOf(slots, pending[p := Granted], claims, base, cleared, insert)
  {
  }

  lemma CheckFullKeepsConsumer<V>(s: State<V>, p: nat)
    requires Inv(s) && Enabled(s, CheckFull(p)) && Sizes(Do(s, CheckFull(p)))
    ensures ConsumerOk(Do(s, CheckFull(p)))
  {
  }

  lemma CheckFullKeepsInv<V>(s: State<V>, p: nat)
    requires Inv(s) && Enabled(s, CheckFull(p))
    ensures Inv(Do(s, CheckFull(p)))
  {
    CheckFullKeepsShape(s, p);
    CheckFullKeepsConsumer(s, p);
    GrantKeepsContents(s.slots, s.pending, s.claims, Base(s), Cleared(s), s.insert, p);
  }

  lemma StartKeepsInv<V>(s: State<V>, step: Step<V>)
    requires Inv(s) && Enabled(s, step) && (step.StartRead? || step.StartReadMultiple?)
    ensures Inv(Do(s, step))
  {
  }

  lemma WriteKeepsShape<V>(s: State<V>, step: Step<V>)
    requires Inv(s) && Enabled(s, step) && (step.Construct? || step.Publish?)
    ensures Sizes(Do(s, step)) && Window(Do(s, step))
  {
  }

  lemma WriteKeepsConsumer<V>(s: State<V>, step: Step<V>)
    requires Inv(s) && Enabled(s, step) && (step.Construct? || step.Publish?)
    ensures Sizes(Do(s, step)) && ConsumerOk(Do(s, step))
  {
    WriteKeepsShape(s, step);
    SlotIsPrivate(step.pos, Base(s), |s.slots|);
  }

  lemma ConstructKeepsInv<V>(s: State<V>, p: nat)
    requires Inv(s) && Enabled(s, Construct(p))
    ensures Inv(Do(s, Construct(p)))
  {
    WriteKeepsShape(s, Construct(p));
    WriteKeepsConsumer(s, Construct(p));
    SlotIsPrivate(p, Base(s), |s.slots|);
  }

  lemma PublishKeepsContents<V>(s: State<V>, p: nat)
    requires Sizes(s) && Window(s) && Contents(s) && Enabled(s, Publish(p))
    requires Sizes(Do(s, Publish(p)))
    ensures Contents(Do(s, Publish(p)))
  {
    SlotIsPrivate(p, Base(s), |s.slots|);
  }

  lemma PublishKeepsInv<V>(s: State<V>, p: nat)
    requires Inv(s) && Enabled(s, Publish(p))
    ensures Inv(Do(s, Publish(p)))
  {
    WriteKeepsShape(s, Publish(p));
    WriteKeepsConsumer(s, Publish(p));
    PublishKeepsContents(s, p);
  }

  lemma CheckKeepsInv<V>(s: State<V>)
    requires Inv(s) && Enabled(s, Consume) && (s.consumer.CheckInsert? || s.consumer.CheckValid? || s.consumer.BatchCheck?)
    ensures Inv(Do(s, Consume))
  {
  }

  lemma ClearKeepsSizes<V>(s: State<V>)
    requires Inv(s) && Enabled(s, Consume) && (s.consumer.Clear? || s.consumer.BatchClear?)
    ensures Sizes(Do(s, Consume)) && ConsumerOk(Do(s, Consume))
  {
  }

  lemma ClearKeepsWindow<V>(s: State<V>)
    requires Inv(s) && Enabled(s, Consume) && (s.consumer.Clear? || s.consumer.BatchClear?)
    ensures Window(Do(s, Consume))
  {
  }

  lemma ClearKeepsContents<V>(slots: seq<Slot<V>>, pending: map<nat, Phase>, claims: seq<V>, base: nat, c: nat, insert: nat, i: nat)
    requires |slots| > 0 && |claims| == insert && ContentsOf(slots, pending, claims, base, c, insert)
    requires base <= c < base + |slots| && c !in pending && i == Index(c, |slots|)
    requires forall p: nat :: c <= p < insert && p !in pending ==> p < base + |slots|
    requires forall p :: p in pending && !pending[p].Waiting? ==> base <= p < base + |slots|
    ensures ContentsOf(slots[i := slots[i].(valid := false)], pending, claims, base, c + 1, insert)
  {
    SlotIsPrivate(c, base, |slots|);
  }

  lemma ReadClearKeepsContents<V>(s: State<V>)
    requires Inv(s) && Enabled(s, Consume) && s.consumer.Clear? && Sizes(Do(s, Consume))
    ensures Contents(Do(s, Consume))
  {
    ClearKeepsContents(s.slots, s.pending, s.claims, Base(s), Cleared(s), s.insert, Index(Base(s), |s.slots|));
  }

  lemma BatchClearKeepsContents<V>(s: State<V>)
    requires Inv(s) && Enabled(s, Consume) && s.consumer.BatchClear? && Sizes(Do(s, Consume))
    ensures Contents(Do(s, Consume))
  {
    var s', c := Do(s, Consume), Cleared(s);
    assert Wrap(Next(s.consumer.consumed) + s.consumer.count) == c && Cleared(s') == c + 1 && Base(s') == Base(s);
    var i := Index(c, |s.slots|);
    ClearKeepsContents(s.slots, s.pending, s.claims, Base(s), c, s.insert, i);
    assert s'.slots == s.slots[i := s.slots[i].(valid := false)];
  }

  lemma ClearKeepsInv<V>(s: State<V>)
    requires Inv(s) && Enabled(s, Consume) && (s.consumer.Clear? || s.consumer.BatchClear?)
    ensures Inv(Do(s, Consume))
  {
    ClearKeepsSizes(s);
    ClearKeepsWindow(s);
    if s.consumer.Clear? { ReadClearKeepsContents(s); } else { BatchClearKeepsContents(s); }
  }

  lemma TakeKeepsInv<V>(s: State<V>)
    requires Inv(s) && Enabled(s, Consume) && (s.consumer.Take? || s.consumer.BatchTake?)
    ensures Inv(Do(s, Consume))
  {
  }

  lemma StoreKeepsShape<V>(s: State<V>)
    requires Inv(s) && Enabled(s, Consume) && (s.consumer.Store? || s.consumer.BatchStore?)
    ensures Sizes(Do(s, Consume)) && ConsumerOk(Do(s, Consume)) && Window(Do(s, Consume))
  {
  }

  lemma StoreKeepsInv<V>(s: State<V>)
    requires Inv(s) && Enabled(s, Consume) && (s.consumer.Store? || s.consumer.BatchStore?)
    ensures Inv(Do(s, Consume))
  {
    StoreKeepsShape(s);
  }

  lemma StepKeepsInv<V>(s: State<V>, step: Step<V>)
    requires Inv(s) && Enabled(s, step)
    ensures Inv(Do(s, step))
  {
    match step
    case Claim(v) => ClaimKeepsInv(s, v);
    case CheckFull(p) => CheckFullKeepsInv(s, p);
    case Construct(p) => ConstructKeepsInv(s, p);
    case Publish(p) => PublishKeepsInv(s, p);
    case StartRead => StartKeepsInv(s, step);
    case StartReadMultiple(_) => StartKeepsInv(s, step);
    case Consume =>
      if s.consumer.Clear? || s.consumer.BatchClear? { ClearKeepsInv(s); }
      else if s.consumer.Take? || s.consumer.BatchTake? { TakeKeepsInv(s); }
      else if s.consumer.Store? || s.consumer.BatchStore? { StoreKeepsInv(s); }
      else { CheckKeepsInv(s); }
  }

  /** A ring with at least two slots, all of them empty. */
  ghost predicate Empty<V>(slots: seq<Slot<V>>) {
    |slots| >= 2 && forall i :: 0 <= i < |slots| ==> !slots[i].valid
  }

  lemma {:induction false} ExecInv<V>(slots: seq<Slot<V>>, steps: seq<Step<V>>)
    requires Empty(slots) && Exec(slots, steps).Reached?
    ensures Inv(Exec(slots, steps).state) && |Exec(slots, steps).state.slots| == |slots|
  {
    if steps == [] {
      InitInv(slots);
    } else {
      ExecInv(slots, steps[..|steps| - 1]);
      StepKeepsInv(Exec(slots, steps[..|steps| - 1]).state, steps[|steps| - 1]);
    }
  }

  // What holds of every run

  /** The consumed values are exactly the first values in claim order. */
  lemma ConsumedIsPrefixOfClaims<V>(slots: seq<Slot<V>>, steps: seq<Step<V>>)
    requires Empty(slots) && Exec(slots, steps).Reached?
    ensures Exec(slots, steps).state.out <= Exec(slots, steps).state.claims
  {
    ExecInv(slots, steps);
  }

  /** A producer writes only into a slot that holds no unconsumed item, and that nobody else writes. */
  lemma WritesHitFreeSlots<V>(slots: seq<Slot<V>>, steps: seq<Step<V>>, p: nat)
    requires Empty(slots) && Exec(slots, steps).Reached?
    requires Enabled(Exec(slots, steps).state, Construct(p)) || Enabled(Exec(slots, steps).state, Publish(p))
    ensures var s := Exec(slots, steps).state; var n := |s.slots|;
            && !s.slots[Index(p, n)].valid
            && (forall q: nat :: q < s.insert && q !in s.pending && q >= |s.out| ==> Index(q, n) != Index(p, n))
            && (forall q :: q in s.pending && !s.pending[q].Waiting? && q != p ==> Index(q, n) != Index(p, n))
  {
    ExecInv(slots, steps);
    var s := Exec(slots, steps).state;
    SlotIsPrivate(p, Base(s), |s.slots|);
  }

  /** One call of `readMultiple` takes at most one item less than the ring has slots. */
  lemma BatchIsBounded<V>(slots: seq<Slot<V>>, steps: seq<Step<V>>)
    requires Empty(slots) && Exec(slots, steps).Reached?
    ensures var c := Exec(slots, steps).state.consumer;
            && (c.BatchCheck? || c.BatchStore? ==> c.count <= |slots| - 1)
            && (c.BatchClear? || c.BatchTake? ==> c.count < |slots| - 1)
  {
    ExecInv(slots, steps);
  }

  lemma BatchCheckIff<V>(s: State<V>)
    requires Inv(s) && s.consumer.BatchCheck? && Enabled(s, Consume)
    ensures var s' := Do(s, Consume);
            && (s'.consumer.BatchClear? <==> s.consumer.room > 0 && Published(s, |s.out|))
            && (s'.consumer.BatchStore? <==> !s'.consumer.BatchClear?)
  {
    NextIsValidIff(s);
    assert Wrap(Next(s.consumer.consumed) + s.consumer.count) == |s.out|;
  }

  /** A batch goes on exactly while its output has room and the next position is published. */
  lemma BatchStopsOnlyAtTheEnd<V>(slots: seq<Slot<V>>, steps: seq<Step<V>>)
    requires Empty(slots) && Exec(slots, steps).Reached? && Exec(slots, steps).state.consumer.BatchCheck?
    requires Enabled(Exec(slots, steps).state, Consume)
    ensures var s := Exec(slots, steps).state; var s' := Do(s, Consume);
            && (s'.consumer.BatchClear? <==> s.consumer.room > 0 && Published(s, |s.out|))
            && (s'.consumer.BatchStore? <==> !s'.consumer.BatchClear?)
  {
    ExecInv(slots, steps);
    BatchCheckIff(Exec(slots, steps).state);
  }

  lemma NextIsValidIff<V>(s: State<V>)
    requires Inv(s) && Cleared(s) == |s.out|
    ensures s.slots[Index(|s.out|, |s.slots|)].valid <==> Published(s, |s.out|)
  {
    if !Published(s, |s.out|) {
      assert Base(s) <= |s.out| < Base(s) + |s.slots|;
    }
  }

  /** A call of `read` that finds the next position published, or has already passed its tests. */
  predicate WillSucceed<V>(s: State<V>) {
    || ((s.consumer.CheckInsert? || s.consumer.CheckValid?) && Published(s, |s.out|))
    || s.consumer.Clear? || s.consumer.Take? || s.consumer.Store?
  }

  /** A published position stays published until it is consumed. */
  lemma PublishedStays<V>(s: State<V>, step: Step<V>)
    requires Inv(s) && Enabled(s, step) && !step.Consume? && Published(s, |s.out|)
    requires s.consumer.CheckInsert? || s.consumer.CheckValid? || s.consumer.Idle?
    ensures Published(Do(s, step), |s.out|)
  {
  }

  lemma ReadGoesOn<V>(s: State<V>)
    requires Inv(s) && Enabled(s, Consume) && WillSucceed(s)
    ensures WillSucceed(Do(s, Consume)) || (s.consumer.Store? && Do(s, Consume).consumer.Idle?)
    ensures |Do(s, Consume).out| == |s.out| + if s.consumer.Take? then 1 else 0
  {
    if s.consumer.CheckInsert? || s.consumer.CheckValid? {
      NextIsValidIff(s);
    }
  }

  /**
   A `read` that starts while the next position is published succeeds: whatever producers do in
   between, it goes on until it has taken the item and stored the counter.
   */
  lemma ReadOfPublishedSucceeds<V>(slots: seq<Slot<V>>, steps: seq<Step<V>>, step: Step<V>)
    requires Empty(slots) && Exec(slots, steps).Reached? && Enabled(Exec(slots, steps).state, step)
    ensures var s := Exec(slots, steps).state; var s' := Do(s, step);
            && (step.StartRead? && Published(s, |s.out|) ==> WillSucceed(s'))
            && (WillSucceed(s) ==> WillSucceed(s') || (step.Consume? && s.consumer.Store? && s'.consumer.Idle?))
            && (step.Consume? && s.consumer.Take? ==> |s'.out| == |s.out| + 1)
  {
    ExecInv(slots, steps);
    var s := Exec(slots, steps).state;
    if WillSucceed(s) {
      if step.Consume? {
        ReadGoesOn(s);
      } else if s.consumer.CheckInsert? || s.consumer.CheckValid? {
        PublishedStays(s, step);
      }
    }
  }

  /** Between reads, `_consumed + 1` counts the items consumed, although it started by wrapping around. */
  lemma CounterCountsConsumed<V>(slots: seq<Slot<V>>, steps: seq<Step<V>>)
    requires Empty(slots) && Exec(slots, steps).Reached? && Exec(slots, steps).state.consumer.Idle?
    ensures Next(Exec(slots, steps).state.consumed) == |Exec(slots, steps).state.out|
  {
    ExecInv(slots, steps);
  }

  /** The test with which `tryWrite` refuses a position. */
  predicate TryWriteRefuses(pos: nat, consumed: nat, n: nat) {
    consumed < pos && pos - consumed >= n
  }

  /**
   `tryWrite` refuses exactly the positions for which `write` would wait, unless nothing has been
   consumed yet and the position lies past the first `n - 1`: those it lets through.
   */
  lemma TryWriteTestIsExact(pos: nat, consumed: nat, n: nat)
    requires consumed < WORD && Next(consumed) <= pos && pos + 1 < WORD && n >= 2
    ensures (TryWriteRefuses(pos, consumed, n) <==> Distance(pos, consumed) >= n) <==> (consumed != WORD - 1 || pos + 1 < n)
  {
  }
}
