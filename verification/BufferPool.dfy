/** The 64-bit id of a work request: 32 bits of user id, 16 bits of buffer id, 16 bits of type. */
module WorkRequestId {
  import opened Bits

  datatype WorkType = Unknown | Receive | Send | Read | Write

  function Code(t: WorkType): nat {
    match t
    case Unknown => 0
    case Receive => 1
    case Send => 2
    case Read => 3
    case Write => 4
  }

  /** The fields do not overlap, so or-ing them is adding them (`PackIsOr`). */
  function Pack(userId: nat, bufferId: nat, t: WorkType): nat {
    userId * 0x1_0000_0000 + bufferId * 0x1_0000 + Code(t)
  }

  function UserId(w: nat): nat { w / 0x1_0000_0000 % 0x1_0000_0000 }

  function BufferId(w: nat): nat { w / 0x1_0000 % 0x1_0000 }

  /** Codes above the last type read as unknown. */
  function TypeOf(w: nat): WorkType {
    match w % 0x1_0000
    case 1 => Receive
    case 2 => Send
    case 3 => Read
    case 4 => Write
    case _ => Unknown
  }

  /** The packed id is the fields shifted to their places and or-ed. */
  lemma PackIsOr(userId: nat, bufferId: nat, t: WorkType)
    requires userId < 0x1_0000_0000 && bufferId < 0x1_0000
    ensures Pack(userId, bufferId, t) == Or(Or(Shifted(userId, 32), Shifted(bufferId, 16)), Code(t))
  {
    assert Pow2(4) == 16;
    Squared(4, 16);
    Squared(8, 256);
    Squared(16, 0x1_0000);
    ShiftedIsProduct(userId, 32);
    ShiftedIsProduct(bufferId, 16);
    OrBelowShift(userId, 32, Shifted(bufferId, 16));
    ShiftedIsProduct(userId * 0x1_0000 + bufferId, 16);
    OrBelowShift(userId * 0x1_0000 + bufferId, 16, Code(t));
  }

  lemma RoundTrip(userId: nat, bufferId: nat, t: WorkType)
    requires userId < 0x1_0000_0000 && bufferId < 0x1_0000
    ensures var w := Pack(userId, bufferId, t);
            && w < 0x1_0000_0000_0000_0000
            && UserId(w) == userId && BufferId(w) == bufferId && TypeOf(w) == t
  {
    var w, high := Pack(userId, bufferId, t), userId * 0x1_0000 + bufferId;
    assert w == high * 0x1_0000 + Code(t);
    Divided(high, Code(t));
    Divided(userId, bufferId);
    assert w / 0x1_0000_0000 == high / 0x1_0000;
  }

  lemma Divided(q: nat, r: nat)
    requires r < 0x1_0000
    ensures (q * 0x1_0000 + r) / 0x1_0000 == q && (q * 0x1_0000 + r) % 0x1_0000 == r
  {
  }

  /** Only a word with a known type is a packed id, and it is the id of what is read from it. */
  lemma UnpackRoundTrip(w: nat)
    requires w < 0x1_0000_0000_0000_0000
    ensures Pack(UserId(w), BufferId(w), TypeOf(w)) == w <==> w % 0x1_0000 <= 4
  {
    var high, t := w / 0x1_0000, w % 0x1_0000;
    assert w == high * 0x1_0000 + t;
    assert w / 0x1_0000_0000 == high / 0x1_0000;
    assert UserId(w) == high / 0x1_0000;
    assert high == (high / 0x1_0000) * 0x1_0000 + high % 0x1_0000;
    assert Code(TypeOf(w)) == t <==> t <= 4;
  }
}

/**
 The send buffers of a completion context. Buffers are cut from one memory region and known by a
 16-bit id. An id waits on the free stack, or a socket holds its buffer, or the device has it.

 The device completes every posted send at most once. What a handler does while its completion is
 processed is a run of further calls before the release. Receive buffers are not part of this model.
 */
module BufferPool {
  import opened WorkRequestId

  const INVALID_ID: nat := 0xFFFF

  datatype Buffer = Buffer(id: nat, addr: nat, length: nat, key: nat)

  const INVALID: Buffer := Buffer(INVALID_ID, 0, 0, 0)

  /** Where an id is: at an index of the stack, with a holder, or in a posted work request. */
  datatype Place = Free(index: nat) | Held(holder: nat) | Posted(work: nat)

  ghost predicate StackOk(count: nat, free: seq<nat>, place: seq<Place>) {
    && |place| == count
    && (forall i :: 0 <= i < |free| ==> free[i] < count && place[free[i]] == Free(i))
    && (forall id :: 0 <= id < count && place[id].Free? ==> place[id].index < |free| && free[place[id].index] == id)
  }

  ghost predicate HeldOk(count: nat, held: map<nat, Buffer>, place: seq<Place>)
    requires |place| == count
  {
    && (forall h :: h in held ==> held[h].id < count && place[held[h].id] == Held(h))
    && (forall id :: 0 <= id < count && place[id].Held? ==> place[id].holder in held && held[place[id].holder].id == id)
  }

  ghost predicate PostedOk(count: nat, posted: set<nat>, place: seq<Place>)
    requires |place| == count
  {
    && (forall w :: w in posted ==> BufferId(w) < count && TypeOf(w) == Send && place[BufferId(w)] == Posted(w))
    && (forall id :: 0 <= id < count && place[id].Posted? ==> place[id].work in posted && BufferId(place[id].work) == id)
  }

  class CompletionContext {
    const count: nat            // mSendBufferCount, 16 bits
    const size: nat             // mSendBufferLength
    const start: nat            // the address and the key of the memory region
    const key: nat

    var free: seq<nat>          // mSendBufferQueue, a stack
    var held: map<nat, Buffer>  // the buffers held by sockets
    var posted: set<nat>        // work request ids the device has
    ghost var place: seq<Place>

    /** A held buffer lies in its id's part of the region. */
    ghost predicate InRegion(b: Buffer) {
      && b.id < count && b.key == key && b.length <= size
      && b.addr == start + b.id * size
    }

    ghost predicate Valid()
      reads this
    {
      && count <= INVALID_ID
      && StackOk(count, free, place) && HeldOk(count, held, place) && PostedOk(count, posted, place)
      && (forall h :: h in held ==> InRegion(held[h]))
    }

    constructor (count: nat, size: nat, start: nat, key: nat)
      requires count <= INVALID_ID
      ensures Valid() && this.count == count && this.size == size && this.start == start && this.key == key
      ensures held == map[] && posted == {} && |free| == count && forall i :: 0 <= i < count ==> free[i] == i
    {
      this.count, this.size, this.start, this.key := count, size, start, key;
      var stack: seq<nat> := [];
      for id := 0 to count
        invariant |stack| == id && forall i :: 0 <= i < id ==> stack[i] == i
      {
        stack := stack + [id];
      }
      free, held, posted := stack, map[], {};
      place := seq(count, (i: nat) => Free(i));
    }

    /** `LocalMemoryRegion::acquireBuffer`: an id's buffer, unless it does not lie in the region. */
    method AcquireBuffer(id: nat, offset: nat, length: nat) returns (b: Buffer)
      ensures offset + length > count * size ==> b == INVALID
      ensures offset + length <= count * size ==>
                b.id == id && b.key == key && b.length == length && start <= b.addr == start + offset <= start + count * size - length
    {
      if offset + length > count * size {
        return INVALID;
      }
      return Buffer(id, start + offset, length, key);
    }

    /** `acquireSendBuffer` for a holder without a buffer. Only an empty stack or a too long request gives none. */
    method Acquire(holder: nat, length: nat) returns (b: Buffer)
      requires Valid() && holder !in held
      modifies this
      ensures Valid() && posted == old(posted)
      ensures b == INVALID <==> old(free) == [] || length > size
      ensures b == INVALID ==> free == old(free) && held == old(held)
      ensures b != INVALID ==> old(free) == free + [b.id] && held == old(held)[holder := b] && b.length == length
      ensures b != INVALID ==> start <= b.addr && b.addr + b.length <= start + count * size
    {
      if free == [] || length > size {
        return INVALID;
      }
      var id := free[|free| - 1];
      free := free[..|free| - 1];
      LastPartFits(id, count, size);
      b := AcquireBuffer(id, id * size, length);
      held := held[holder := b];
      place := place[id := Held(holder)];
    }

    /** `releaseSendBuffer` by id. */
    method ReleaseId(id: nat)
      modifies this`free
      ensures free == if id == INVALID_ID then old(free) else old(free) + [id]
    {
      if id != INVALID_ID {
        free := free + [id];
      }
    }

    /** `releaseSendBuffer` by a holder; the handle is given up. */
    method Release(holder: nat)
      requires Valid() && holder in held
      modifies this
      ensures Valid() && posted == old(posted)
      ensures free == old(free) + [old(held[holder].id)] && held == old(held) - {holder}
    {
      var b := held[holder];
      if b.key == key {
        ReleaseId(b.id);
      }
      held := held - {holder};
      place := place[b.id := Free(|free| - 1)];
    }

    /** A send of a held buffer: the device takes it, or the send fails and the buffer is released. */
    method Post(holder: nat, userId: nat, ok: bool)
      requires Valid() && holder in held && userId < 0x1_0000_0000
      modifies this
      ensures Valid() && held == old(held) - {holder}
      ensures var id := old(held[holder].id);
              if ok then posted == old(posted) + {Pack(userId, id, Send)} && free == old(free)
              else posted == old(posted) && free == old(free) + [id]
    {
      if !ok {
        Release(holder);
        return;
      }
      var id := held[holder].id;
      RoundTrip(userId, id, Send);
      var w := Pack(userId, id, Send);
      posted, held := posted + {w}, held - {holder};
      place := place[id := Posted(w)];
    }

    /** `processWorkComplete` of a send, whether or not its socket is still known. */
    method Complete(w: nat, known: bool) returns (notified: seq<nat>)
      requires Valid() && w in posted
      modifies this
      ensures Valid() && held == old(held) && posted == old(posted) - {w}
      ensures free == old(free) + [BufferId(w)]
      ensures notified == if known then [UserId(w)] else []
    {
      notified := [];
      if TypeOf(w) == Send {
        if known {
          notified := [UserId(w)];
        }
        ReleaseId(BufferId(w));
      }
      posted := posted - {w};
      place := place[BufferId(w) := Free(|free| - 1)];
    }

    /** A call that the state admits; others do not happen. */
    method Do(c: Call)
      requires Valid()
      modifies this
      ensures Valid()
      ensures c.Acquire? && c.holder !in old(held) && old(free) != [] && c.length <= size ==>
                c.holder in held && old(free) == free + [held[c.holder].id] && posted == old(posted)
      ensures c.Release? && c.holder in old(held) ==> free == old(free) + [old(held)[c.holder].id] && held == old(held) - {c.holder}
      ensures c.Post? && c.holder in old(held) && c.userId < 0x1_0000_0000 && c.ok ==>
                held == old(held) - {c.holder} && posted == old(posted) + {Pack(c.userId, old(held)[c.holder].id, Send)}
      ensures c.Complete? && c.work in old(posted) ==> free == old(free) + [BufferId(c.work)] && posted == old(posted) - {c.work}
    {
      match c
      case Acquire(h, length) => if h !in held { var _ := Acquire(h, length); }
      case Release(h) => if h in held { Release(h); }
      case Post(h, userId, ok) => if h in held && userId < 0x1_0000_0000 { Post(h, userId, ok); }
      case Complete(w, known) => if w in posted { var _ := Complete(w, known); }
    }

    /** Any run of calls keeps every id in exactly one place, and the buffers apart. */
    method Run(calls: seq<Call>)
      requires Valid()
      modifies this
      ensures Valid()
      ensures forall id :: 0 <= id < count ==> OnePlace(id, free, held, posted)
      ensures forall g, h :: g in held && h in held && g != h ==> Apart(held[g], held[h])
    {
      for i := 0 to |calls|
        invariant Valid()
      {
        Do(calls[i]);
      }
      forall id | 0 <= id < count ensures OnePlace(id, free, held, posted) {
        EachIdHasOnePlace(count, free, held, posted, place, id);
      }
      forall g, h | g in held && h in held && g != h ensures Apart(held[g], held[h]) {
        BuffersApart(held[g], held[h]);
      }
    }

    /** Two buffers of different ids do not overlap. */
    lemma BuffersApart(a: Buffer, b: Buffer)
      requires InRegion(a) && InRegion(b) && a.id != b.id
      ensures Apart(a, b)
    {
      if a.id < b.id {
        LastPartFits(a.id, b.id, size);
      } else {
        LastPartFits(b.id, a.id, size);
      }
    }
  }

  datatype Call =
    | Acquire(holder: nat, length: nat)
    | Release(holder: nat)
    | Post(holder: nat, userId: nat, ok: bool)
    | Complete(work: nat, known: bool)

  ghost predicate Apart(a: Buffer, b: Buffer) {
    a.addr + a.length <= b.addr || b.addr + b.length <= a.addr
  }

  ghost function Holders(id: nat, held: map<nat, Buffer>): set<nat> { set h | h in held && held[h].id == id }

  ghost function Works(id: nat, posted: set<nat>): set<nat> { set w | w in posted && BufferId(w) == id }

  /** An id is counted once over the stack, the holders and the posted sends. */
  ghost predicate OnePlace(id: nat, free: seq<nat>, held: map<nat, Buffer>, posted: set<nat>) {
    multiset(free)[id] + |Holders(id, held)| + |Works(id, posted)| == 1
  }

  lemma {:induction false} CountInStack(free: seq<nat>, id: nat)
    requires forall i, j :: 0 <= i < j < |free| ==> free[i] != free[j]
    ensures multiset(free)[id] == if id in free then 1 else 0
  {
    if free != [] {
      var n := |free| - 1;
      assert free == free[..n] + [free[n]];
      CountInStack(free[..n], id);
    }
  }

  lemma EachIdHasOnePlace(count: nat, free: seq<nat>, held: map<nat, Buffer>, posted: set<nat>, place: seq<Place>, id: nat)
    requires StackOk(count, free, place) && HeldOk(count, held, place) && PostedOk(count, posted, place) && id < count
    ensures OnePlace(id, free, held, posted)
  {
    CountInStack(free, id);
    match place[id]
    case Free(i) =>
      assert free[i] == id;
      assert Holders(id, held) == {} && Works(id, posted) == {};
    case Held(h) =>
      assert id !in free;
      assert Holders(id, held) == {h} && Works(id, posted) == {};
    case Posted(w) =>
      assert id !in free;
      assert Holders(id, held) == {} && Works(id, posted) == {w};
  }

  lemma {:induction false} LastPartFits(id: nat, count: nat, size: nat)
    requires id < count
    ensures id * size + size <= count * size
  {
    assert count * size == (count - 1) * size + size;
    if id < count - 1 {
      LastPartFits(id, count - 1, size);
    }
  }
}
