/**
 The hash map with one inline slot and an overflow vector per bucket, and its resize. Every
 operation runs with the lock of its bucket held (module StripedLocks), so the operations are
 modelled one after the other.
 */
module ConcurrentMap {
  import opened Bits

  datatype Entry<K, V> = Entry(key: K, value: V)

  datatype Slot<K, V> = Unassigned | Assigned(entry: Entry<K, V>)

  /** `arr[0]` and `overflow`; the elements of the overflow vector are always valid. */
  datatype Bucket<K, V> = Bucket(slot: Slot<K, V>, overflow: seq<Entry<K, V>>)

  /** The entries of a bucket in the order in which they are searched. */
  function All<K, V>(b: Bucket<K, V>): seq<Entry<K, V>> {
    (if b.slot.Assigned? then [b.slot.entry] else []) + b.overflow
  }

  /** `es` lists the map `m`, every key once. */
  ghost predicate Lists<K(!new), V>(es: seq<Entry<K, V>>, m: map<K, V>) {
    && (forall i, j :: 0 <= i < j < |es| ==> es[i].key != es[j].key)
    && (forall i :: 0 <= i < |es| ==> es[i].key in m && m[es[i].key] == es[i].value)
    && (forall k :: k in m ==> exists i :: 0 <= i < |es| && es[i].key == k)
  }

  /** A bucket holding the map `m`. With an empty slot the overflow vector is empty too. */
  ghost predicate Holds<K(!new), V>(b: Bucket<K, V>, m: map<K, V>) {
    && Lists(All(b), m)
    && (b.slot.Unassigned? ==> b.overflow == [])
  }

  // Sequences of entries

  lemma ListsNothing<K(!new), V>(es: seq<Entry<K, V>>, m: map<K, V>)
    requires Lists(es, m) && es == []
    ensures m == map[]
  {
    assert m.Keys == {};
  }

  lemma ListsUpdate<K(!new), V>(es: seq<Entry<K, V>>, m: map<K, V>, i: nat, v: V)
    requires Lists(es, m) && i < |es|
    ensures Lists(es[i := Entry(es[i].key, v)], m[es[i].key := v])
  {
    var es', m' := es[i := Entry(es[i].key, v)], m[es[i].key := v];
    forall k | k in m' ensures exists j :: 0 <= j < |es'| && es'[j].key == k {
      var j :| 0 <= j < |es| && es[j].key == k;
      assert es'[j].key == k;
    }
  }

  lemma ListsAppend<K(!new), V>(es: seq<Entry<K, V>>, m: map<K, V>, e: Entry<K, V>)
    requires Lists(es, m) && e.key !in m
    ensures Lists(es + [e], m[e.key := e.value])
  {
    var es', m' := es + [e], m[e.key := e.value];
    forall k | k in m' ensures exists j :: 0 <= j < |es'| && es'[j].key == k {
      if k == e.key {
        assert es'[|es|].key == k;
      } else {
        var j :| 0 <= j < |es| && es[j].key == k;
        assert es'[j].key == k;
      }
    }
  }

  /** Any rearrangement that keeps each entry but one, and adds none, lists the map without its key. */
  lemma ListsRemove<K(!new), V>(es: seq<Entry<K, V>>, m: map<K, V>, i: nat)
    requires Lists(es, m) && i < |es|
    ensures Lists(es[..i] + es[i + 1..], m - {es[i].key})
  {
    var es', m' := es[..i] + es[i + 1..], m - {es[i].key};
    forall k | k in m' ensures exists j :: 0 <= j < |es'| && es'[j].key == k {
      var j :| 0 <= j < |es| && es[j].key == k;
      assert es'[if j < i then j else j - 1].key == k;
    }
  }

  /** Moving the last entry to the front. */
  lemma ListsRotate<K(!new), V>(es: seq<Entry<K, V>>, m: map<K, V>)
    requires Lists(es, m) && es != []
    ensures Lists([es[|es| - 1]] + es[..|es| - 1], m)
  {
    var es' := [es[|es| - 1]] + es[..|es| - 1];
    forall k | k in m ensures exists j :: 0 <= j < |es'| && es'[j].key == k {
      var j :| 0 <= j < |es| && es[j].key == k;
      assert es'[if j == |es| - 1 then 0 else j + 1].key == k;
    }
  }

  /** The search loop over an overflow vector. */
  method Find<K(==), V>(es: seq<Entry<K, V>>, key: K) returns (i: nat)
    ensures i <= |es|
    ensures forall j :: 0 <= j < i ==> es[j].key != key
    ensures i < |es| ==> es[i].key == key
  {
    i := 0;
    while i < |es| && es[i].key != key
      invariant i <= |es|
      invariant forall j :: 0 <= j < i ==> es[j].key != key
    {
      i := i + 1;
    }
  }

  // Buckets

  lemma SlotEntry<K(!new), V>(b: Bucket<K, V>, m: map<K, V>)
    requires Holds(b, m) && b.slot.Assigned?
    ensures b.slot.entry.key in m && m[b.slot.entry.key] == b.slot.entry.value
  {
    assert All(b)[0] == b.slot.entry;
  }

  lemma OverflowEntry<K(!new), V>(b: Bucket<K, V>, m: map<K, V>, i: nat)
    requires Holds(b, m) && i < |b.overflow|
    ensures b.slot.Assigned? && b.overflow[i].key in m && m[b.overflow[i].key] == b.overflow[i].value
  {
    assert All(b)[1 + i] == b.overflow[i];
  }

  lemma NoEntry<K(!new), V>(b: Bucket<K, V>, m: map<K, V>, key: K)
    requires Holds(b, m) && (b.slot.Assigned? ==> b.slot.entry.key != key)
    requires forall j :: 0 <= j < |b.overflow| ==> b.overflow[j].key != key
    ensures key !in m
  {
    assert forall j :: 0 <= j < |All(b)| ==> All(b)[j].key != key;
  }

  lemma SetSlotValue<K(!new), V>(b: Bucket<K, V>, m: map<K, V>, v: V)
    requires Holds(b, m) && b.slot.Assigned?
    ensures Holds(b.(slot := Assigned(Entry(b.slot.entry.key, v))), m[b.slot.entry.key := v])
  {
    var b' := b.(slot := Assigned(Entry(b.slot.entry.key, v)));
    ListsUpdate(All(b), m, 0, v);
    assert All(b') == All(b)[0 := Entry(b.slot.entry.key, v)];
  }

  lemma SetOverflowValue<K(!new), V>(b: Bucket<K, V>, m: map<K, V>, i: nat, v: V)
    requires Holds(b, m) && i < |b.overflow|
    ensures Holds(b.(overflow := b.overflow[i := Entry(b.overflow[i].key, v)]), m[b.overflow[i].key := v])
  {
    var b' := b.(overflow := b.overflow[i := Entry(b.overflow[i].key, v)]);
    assert All(b)[1 + i] == b.overflow[i];
    ListsUpdate(All(b), m, 1 + i, v);
    assert All(b') == All(b)[1 + i := Entry(b.overflow[i].key, v)];
  }

  /** The private `erase` of the inline slot: the last overflow entry moves into it. */
  function EraseSlot<K, V>(b: Bucket<K, V>): (b': Bucket<K, V>) {
    if b.overflow == [] then b.(slot := Unassigned)
    else Bucket(Assigned(b.overflow[|b.overflow| - 1]), b.overflow[..|b.overflow| - 1])
  }

  lemma EraseSlotHolds<K(!new), V>(b: Bucket<K, V>, m: map<K, V>)
    requires Holds(b, m) && b.slot.Assigned?
    ensures Holds(EraseSlot(b), m - {b.slot.entry.key})
  {
    ListsRemove(All(b), m, 0);
    assert All(b)[..0] + All(b)[1..] == b.overflow;
    if b.overflow == [] {
      assert All(EraseSlot(b)) == b.overflow;
    } else {
      ListsRotate(b.overflow, m - {b.slot.entry.key});
      assert All(EraseSlot(b)) == [b.overflow[|b.overflow| - 1]] + b.overflow[..|b.overflow| - 1];
    }
  }

  /** The private `erase` of an overflow entry. */
  function EraseOverflow<K, V>(b: Bucket<K, V>, i: nat): Bucket<K, V>
    requires i < |b.overflow|
  {
    b.(overflow := b.overflow[..i] + b.overflow[i + 1..])
  }

  lemma EraseOverflowHolds<K(!new), V>(b: Bucket<K, V>, m: map<K, V>, i: nat)
    requires Holds(b, m) && i < |b.overflow|
    ensures Holds(EraseOverflow(b, i), m - {b.overflow[i].key})
  {
    assert All(b)[1 + i] == b.overflow[i];
    ListsRemove(All(b), m, 1 + i);
    assert All(EraseOverflow(b, i)) == All(b)[..1 + i] + All(b)[i + 2..];
  }

  /** `insertNoDuplicateCheck`. */
  function InsertNew<K, V>(b: Bucket<K, V>, e: Entry<K, V>): Bucket<K, V> {
    if b.slot.Unassigned? then b.(slot := Assigned(e)) else b.(overflow := b.overflow + [e])
  }

  lemma InsertNewHolds<K(!new), V>(b: Bucket<K, V>, m: map<K, V>, e: Entry<K, V>)
    requires Holds(b, m) && e.key !in m
    ensures Holds(InsertNew(b, e), m[e.key := e.value])
  {
    ListsAppend(All(b), m, e);
    assert All(InsertNew(b, e)) == All(b) + [e];
  }

  method BucketInsert<K(==, !new), V>(b: Bucket<K, V>, key: K, value: V, none: V, ghost m: map<K, V>)
    returns (b': Bucket<K, V>, added: bool, was: V)
    requires Holds(b, m)
    ensures Holds(b', m[key := value])
    ensures added <==> key !in m
    ensures was == if key in m then m[key] else none
  {
    if b.slot.Unassigned? {
      NoEntry(b, m, key);
      InsertNewHolds(b, m, Entry(key, value));
      return b.(slot := Assigned(Entry(key, value))), true, none;
    }
    SlotEntry(b, m);
    if b.slot.entry.key == key {
      SetSlotValue(b, m, value);
      return b.(slot := Assigned(Entry(key, value))), false, b.slot.entry.value;
    }
    var i := Find(b.overflow, key);
    if i < |b.overflow| {
      OverflowEntry(b, m, i);
      SetOverflowValue(b, m, i, value);
      return b.(overflow := b.overflow[i := Entry(key, value)]), false, b.overflow[i].value;
    }
    NoEntry(b, m, key);
    InsertNewHolds(b, m, Entry(key, value));
    return b.(overflow := b.overflow + [Entry(key, value)]), true, none;
  }

  method BucketErase<K(==, !new), V>(b: Bucket<K, V>, key: K, none: V, ghost m: map<K, V>)
    returns (b': Bucket<K, V>, found: bool, was: V)
    requires Holds(b, m)
    ensures Holds(b', m - {key})
    ensures found <==> key in m
    ensures was == if key in m then m[key] else none
  {
    if b.slot.Assigned? && b.slot.entry.key == key {
      SlotEntry(b, m);
      EraseSlotHolds(b, m);
      return EraseSlot(b), true, b.slot.entry.value;
    }
    var i := Find(b.overflow, key);
    if i < |b.overflow| {
      OverflowEntry(b, m, i);
      EraseOverflowHolds(b, m, i);
      return EraseOverflow(b, i), true, b.overflow[i].value;
    }
    NoEntry(b, m, key);
    assert m - {key} == m;
    return b, false, none;
  }

  method BucketAt<K(==, !new), V>(b: Bucket<K, V>, key: K, none: V, ghost m: map<K, V>) returns (found: bool, value: V)
    requires Holds(b, m)
    ensures found <==> key in m
    ensures value == if key in m then m[key] else none
  {
    if b.slot.Assigned? && b.slot.entry.key == key {
      SlotEntry(b, m);
      return true, b.slot.entry.value;
    }
    var i := Find(b.overflow, key);
    if i < |b.overflow| {
      OverflowEntry(b, m, i);
      return true, b.overflow[i].value;
    }
    NoEntry(b, m, key);
    return false, none;
  }

  /** `exec_on`: apply `f` to the value of the key, or to a default one, and erase or keep it as `f` says. */
  method BucketExecOn<K(==, !new), V>(b: Bucket<K, V>, key: K, f: V -> (bool, V), none: V, ghost m: map<K, V>)
    returns (b': Bucket<K, V>, delta: int)
    requires Holds(b, m)
    ensures var r := f(if key in m then m[key] else none);
            && Holds(b', Executed(m, key, r))
            && delta == (if r.0 then 0 else 1) - (if key in m then 1 else 0)
  {
    if b.slot.Assigned? && b.slot.entry.key == key {
      SlotEntry(b, m);
      var r := f(b.slot.entry.value);
      EraseSlotHolds(b, m);
      SetSlotValue(b, m, r.1);
      if r.0 { return EraseSlot(b), -1; }
      return b.(slot := Assigned(Entry(key, r.1))), 0;
    }
    var i := Find(b.overflow, key);
    if i < |b.overflow| {
      OverflowEntry(b, m, i);
      var r := f(b.overflow[i].value);
      EraseOverflowHolds(b, m, i);
      SetOverflowValue(b, m, i, r.1);
      if r.0 { return EraseOverflow(b, i), -1; }
      return b.(overflow := b.overflow[i := Entry(key, r.1)]), 0;
    }
    NoEntry(b, m, key);
    assert m - {key} == m;
    var r := f(none);
    InsertNewHolds(b, m, Entry(key, r.1));
    if r.0 { return b, 0; }
    return InsertNew(b, Entry(key, r.1)), 1;
  }

  ghost function MapValues<K, V>(m: map<K, V>, g: (K, V) -> V): map<K, V> {
    map k | k in m :: g(k, m[k])
  }

  /** `for_each` on one bucket, with a callback that may change the value it is shown. */
  method BucketForEach<K(!new), V>(b: Bucket<K, V>, g: (K, V) -> V, ghost m: map<K, V>)
    returns (b': Bucket<K, V>, visited: seq<Entry<K, V>>)
    requires Holds(b, m)
    ensures visited == All(b)
    ensures Holds(b', MapValues(m, g))
  {
    b', visited := b, [];
    if b.slot.Assigned? {
      var e := b.slot.entry;
      b', visited := b.(slot := Assigned(Entry(e.key, g(e.key, e.value)))), [e];
    }
    ghost var first := visited;
    var i := 0;
    while i < |b.overflow|
      invariant i <= |b.overflow| == |b'.overflow|
      invariant b'.slot == if b.slot.Assigned? then Assigned(Entry(b.slot.entry.key, g(b.slot.entry.key, b.slot.entry.value))) else Unassigned
      invariant forall j :: 0 <= j < i ==> b'.overflow[j] == Entry(b.overflow[j].key, g(b.overflow[j].key, b.overflow[j].value))
      invariant forall j :: i <= j < |b.overflow| ==> b'.overflow[j] == b.overflow[j]
      invariant visited == first + b.overflow[..i]
    {
      var e := b.overflow[i];
      b' := b'.(overflow := b'.overflow[i := Entry(e.key, g(e.key, e.value))]);
      visited := visited + [e];
      i := i + 1;
    }
    assert b.overflow[..i] == b.overflow;
    ListsMapValues(All(b), All(b'), m, g);
  }

  lemma ListsMapValues<K(!new), V>(es: seq<Entry<K, V>>, es': seq<Entry<K, V>>, m: map<K, V>, g: (K, V) -> V)
    requires Lists(es, m) && |es'| == |es|
    requires forall j :: 0 <= j < |es| ==> es'[j] == Entry(es[j].key, g(es[j].key, es[j].value))
    ensures Lists(es', MapValues(m, g))
  {
    forall k | k in m ensures exists j :: 0 <= j < |es'| && es'[j].key == k {
      var j :| 0 <= j < |es| && es[j].key == k;
      assert es'[j].key == k;
    }
  }

  // Tables of buckets

  /** The part of `m` that belongs into bucket `i`. */
  ghost function Shard<K, V>(m: map<K, V>, hash: K -> nat, mask: nat, i: nat): map<K, V> {
    map k | k in m && And(hash(k), mask) == i :: m[k]
  }

  ghost predicate Table<K(!new), V>(bs: seq<Bucket<K, V>>, hash: K -> nat, mask: nat, m: map<K, V>) {
    mask + 1 == |bs| && forall i :: 0 <= i < |bs| ==> Holds(bs[i], Shard(m, hash, mask, i))
  }

  lemma TablePut<K(!new), V>(bs: seq<Bucket<K, V>>, hash: K -> nat, mask: nat, m: map<K, V>, k: K, v: V, b: Bucket<K, V>)
    requires Table(bs, hash, mask, m)
    requires Holds(b, Shard(m, hash, mask, And(hash(k), mask))[k := v])
    ensures Table(bs[And(hash(k), mask) := b], hash, mask, m[k := v])
  {
    var j := And(hash(k), mask);
    forall i: nat ensures Shard(m[k := v], hash, mask, i) == if i == j then Shard(m, hash, mask, i)[k := v] else Shard(m, hash, mask, i) {}
  }

  lemma TableDrop<K(!new), V>(bs: seq<Bucket<K, V>>, hash: K -> nat, mask: nat, m: map<K, V>, k: K, b: Bucket<K, V>)
    requires Table(bs, hash, mask, m)
    requires Holds(b, Shard(m, hash, mask, And(hash(k), mask)) - {k})
    ensures Table(bs[And(hash(k), mask) := b], hash, mask, m - {k})
  {
    var j := And(hash(k), mask);
    forall i: nat ensures Shard(m - {k}, hash, mask, i) == if i == j then Shard(m, hash, mask, i) - {k} else Shard(m, hash, mask, i) {}
  }

  lemma ListsUnique<K(!new), V>(es: seq<Entry<K, V>>, m: map<K, V>, n: map<K, V>)
    requires Lists(es, m) && Lists(es, n)
    ensures m == n
  {
    assert m.Keys == n.Keys;
  }

  lemma TableInsertNew<K(!new), V>(bs: seq<Bucket<K, V>>, hash: K -> nat, mask: nat, m: map<K, V>, e: Entry<K, V>)
    requires Table(bs, hash, mask, m) && e.key !in m
    ensures var j := And(hash(e.key), mask);
            Table(bs[j := InsertNew(bs[j], e)], hash, mask, m[e.key := e.value])
  {
    var j := And(hash(e.key), mask);
    InsertNewHolds(bs[j], Shard(m, hash, mask, j), e);
    TablePut(bs, hash, mask, m, e.key, e.value, InsertNew(bs[j], e));
  }

  lemma ListsExtend<K(!new), V>(es: seq<Entry<K, V>>, part: map<K, V>, i: nat, moved: map<K, V>)
    requires Lists(es, part) && i < |es| && Lists(es[..i], moved)
    ensures es[i].key !in moved && es[i].key in part
    ensures Lists(es[..i + 1], moved[es[i].key := es[i].value])
  {
    assert forall x :: 0 <= x < i ==> es[..i][x].key != es[i].key;
    ListsAppend(es[..i], moved, es[i]);
    assert es[..i] + [es[i]] == es[..i + 1];
  }

  /** Move entries into a table that has none of their keys. */
  method MoveAll<K(!new), V>(bs: seq<Bucket<K, V>>, es: seq<Entry<K, V>>, hash: K -> nat, mask: nat, ghost m: map<K, V>, ghost part: map<K, V>)
    returns (bs': seq<Bucket<K, V>>)
    requires Table(bs, hash, mask, m) && Lists(es, part) && m.Keys !! part.Keys
    ensures Table(bs', hash, mask, m + part)
  {
    bs' := bs;
    ghost var moved: map<K, V> := map[];
    assert m + moved == m;
    for i := 0 to |es|
      invariant Table(bs', hash, mask, m + moved)
      invariant Lists(es[..i], moved) && moved.Keys <= part.Keys
    {
      var e := es[i];
      var j := And(hash(e.key), mask);
      ListsExtend(es, part, i, moved);
      TableInsertNew(bs', hash, mask, m + moved, e);
      bs' := bs'[j := InsertNew(bs'[j], e)];
      assert (m + moved)[e.key := e.value] == m + moved[e.key := e.value];
      moved := moved[e.key := e.value];
    }
    assert es[..|es|] == es;
    ListsUnique(es, moved, part);
  }

  ghost function Below<K, V>(m: map<K, V>, hash: K -> nat, mask: nat, i: nat): map<K, V> {
    map k | k in m && And(hash(k), mask) < i :: m[k]
  }

  lemma BelowStep<K, V>(m: map<K, V>, hash: K -> nat, mask: nat, i: nat)
    ensures Below(m, hash, mask, i + 1) == Below(m, hash, mask, i) + Shard(m, hash, mask, i)
    ensures Below(m, hash, mask, i).Keys !! Shard(m, hash, mask, i).Keys
  {
  }

  lemma BelowAll<K, V>(m: map<K, V>, hash: K -> nat, mask: nat)
    ensures Below(m, hash, mask, mask + 1) == m
  {
  }

  /** The rehash loop of `resize`; a bucket with an empty slot is skipped. */
  method Rehash<K(!new), V>(buckets: seq<Bucket<K, V>>, hash: K -> nat, mask: nat, newMask: nat, ghost m: map<K, V>)
    returns (bs: seq<Bucket<K, V>>)
    requires Table(buckets, hash, mask, m)
    ensures Table(bs, hash, newMask, m)
  {
    bs := seq(newMask + 1, _ => Bucket(Unassigned, []));
    for i := 0 to |buckets|
      invariant Table(bs, hash, newMask, Below(m, hash, mask, i))
    {
      var b := buckets[i];
      ghost var shard := Shard(m, hash, mask, i);
      BelowStep(m, hash, mask, i);
      if b.slot.Unassigned? {
        ListsNothing(All(b), shard);
        assert Below(m, hash, mask, i) + shard == Below(m, hash, mask, i);
      } else {
        bs := MoveAll(bs, All(b), hash, newMask, Below(m, hash, mask, i), shard);
      }
    }
    BelowAll(m, hash, mask);
  }

  lemma ListsConcat<K(!new), V>(es: seq<Entry<K, V>>, m: map<K, V>, fs: seq<Entry<K, V>>, n: map<K, V>)
    requires Lists(es, m) && Lists(fs, n) && m.Keys !! n.Keys
    ensures Lists(es + fs, m + n)
  {
    forall k | k in m + n ensures exists j :: 0 <= j < |es + fs| && (es + fs)[j].key == k {
      if k in m {
        var j :| 0 <= j < |es| && es[j].key == k;
        assert (es + fs)[j].key == k;
      } else {
        var j :| 0 <= j < |fs| && fs[j].key == k;
        assert (es + fs)[|es| + j].key == k;
      }
    }
  }

  lemma ShardMapValues<K, V>(m: map<K, V>, hash: K -> nat, mask: nat, g: (K, V) -> V, i: nat)
    ensures MapValues(Shard(m, hash, mask, i), g) == Shard(MapValues(m, g), hash, mask, i)
  {
  }

  /** The first `i` buckets hold the changed values, the others are as before. */
  ghost predicate MappedUpTo<K(!new), V>(bs': seq<Bucket<K, V>>, bs: seq<Bucket<K, V>>, hash: K -> nat, mask: nat,
                                         g: (K, V) -> V, m: map<K, V>, i: nat) {
    && |bs'| == |bs|
    && (forall j :: 0 <= j < i && j < |bs| ==> Holds(bs'[j], Shard(MapValues(m, g), hash, mask, j)))
    && (forall j :: i <= j < |bs| ==> bs'[j] == bs[j])
  }

  lemma MappedOneMore<K(!new), V>(bs': seq<Bucket<K, V>>, bs: seq<Bucket<K, V>>, hash: K -> nat, mask: nat,
                                  g: (K, V) -> V, m: map<K, V>, i: nat, b: Bucket<K, V>)
    requires MappedUpTo(bs', bs, hash, mask, g, m, i) && i < |bs|
    requires Holds(b, MapValues(Shard(m, hash, mask, i), g))
    ensures MappedUpTo(bs'[i := b], bs, hash, mask, g, m, i + 1)
  {
    ShardMapValues(m, hash, mask, g, i);
  }

  lemma ListsOneMore<K(!new), V>(visited: seq<Entry<K, V>>, seen: seq<Entry<K, V>>, hash: K -> nat, mask: nat, m: map<K, V>, i: nat)
    requires Lists(visited, Below(m, hash, mask, i)) && Lists(seen, Shard(m, hash, mask, i))
    ensures Lists(visited + seen, Below(m, hash, mask, i + 1))
  {
    BelowStep(m, hash, mask, i);
    ListsConcat(visited, Below(m, hash, mask, i), seen, Shard(m, hash, mask, i));
  }

  /** `for_each` over all buckets shows every entry exactly once. */
  method TableForEach<K(!new), V>(bs: seq<Bucket<K, V>>, hash: K -> nat, mask: nat, g: (K, V) -> V, ghost m: map<K, V>)
    returns (bs': seq<Bucket<K, V>>, visited: seq<Entry<K, V>>)
    requires Table(bs, hash, mask, m)
    ensures Table(bs', hash, mask, MapValues(m, g))
    ensures Lists(visited, m)
  {
    bs', visited := bs, [];
    for i := 0 to |bs|
      invariant MappedUpTo(bs', bs, hash, mask, g, m, i)
      invariant Lists(visited, Below(m, hash, mask, i))
    {
      var b, seen := BucketForEach(bs[i], g, Shard(m, hash, mask, i));
      MappedOneMore(bs', bs, hash, mask, g, m, i, b);
      ListsOneMore(visited, seen, hash, mask, m, i);
      bs', visited := bs'[i := b], visited + seen;
    }
    BelowAll(m, hash, mask);
  }

  /** The map after `exec_on`, and by how much it grew. */
  ghost function Executed<K, V>(m: map<K, V>, key: K, r: (bool, V)): map<K, V> {
    if r.0 then m - {key} else m[key := r.1]
  }

  lemma TableExecuted<K(!new), V>(bs: seq<Bucket<K, V>>, hash: K -> nat, mask: nat, m: map<K, V>, k: K, r: (bool, V), b: Bucket<K, V>)
    requires Table(bs, hash, mask, m)
    requires Holds(b, Executed(Shard(m, hash, mask, And(hash(k), mask)), k, r))
    ensures Table(bs[And(hash(k), mask) := b], hash, mask, Executed(m, k, r))
    ensures |Executed(m, k, r)| == |m| + (if r.0 then 0 else 1) - (if k in m then 1 else 0)
  {
    if r.0 {
      TableDrop(bs, hash, mask, m, k, b);
      SizeWithout(m, k);
    } else {
      TablePut(bs, hash, mask, m, k, r.1, b);
    }
  }

  lemma SizeWithout<K, V>(m: map<K, V>, k: K)
    ensures |m - {k}| == |m| - (if k in m then 1 else 0)
  {
    assert (m - {k}).Keys == m.Keys - {k};
  }

  // The map

  lemma MaskOfFactor(p: nat, q: nat)
    requires p >= 1 && p * q == SIZE_MAX + 1
    ensures SIZE_MAX % p == p - 1
  {
    assert q >= 1 && p * q == p * (q - 1) + p;
    Remainder(SIZE_MAX, p, q - 1, p - 1);
  }

  /** For a table of 2^k buckets, `SIZE_MAX % size` is the mask of the lowest k bits. */
  lemma MaskOfSize(k: nat)
    requires k <= 64
    ensures SIZE_MAX % Pow2(k) == Pow2(k) - 1
  {
    WordSize();
    Pow2Sum(k, 64 - k);
    MaskOfFactor(Pow2(k), Pow2(64 - k));
  }

  lemma SmallPowersAreBelow64(k: nat)
    requires Pow2(k) < 200 * MAX_ENTRIES
    ensures k < 64
  {
    WordSize();
    if k >= 64 {
      Pow2Grows(64, k);
    }
  }

  /** Scaling by the load factor never loses more than a factor of a hundred. */
  lemma LoadFactorBound(size: nat, loadFactor: nat, count: nat)
    requires loadFactor >= 1 && size * loadFactor / 100 <= count
    ensures size < 100 * (count + 1)
  {
    assert size * loadFactor >= size;
  }

  lemma BoundGrows(size: nat, newSize: nat, loadFactor: nat)
    requires size <= newSize
    ensures size * loadFactor / 100 <= newSize * loadFactor / 100
  {
    assert (newSize - size) * loadFactor >= 0;
  }

  /** Fewer entries than this fit into the address space of a 64-bit machine. */
  const MAX_ENTRIES: nat := 0x1_0000_0000_0000

  /** The size to which `reserve` grows a table that is too small for `n` entries. */
  method GrownSize(size: nat, loadFactor: nat, n: nat, ghost bits: nat) returns (newSize: nat, ghost k: nat)
    requires size == Pow2(bits) && loadFactor >= 1 && size * loadFactor / 100 <= n < MAX_ENTRIES
    ensures newSize == Pow2(k) && k < 64
    ensures newSize >= 2 * size && n <= newSize * loadFactor / 100
    ensures newSize == 2 * size || (newSize / 2) * loadFactor / 100 < n
  {
    LoadFactorBound(size, loadFactor, n);
    newSize, k := size * 2, bits + 1;
    while newSize * loadFactor / 100 < n
      invariant newSize == Pow2(k)
      invariant 2 * size <= newSize < 200 * (n + 1)
      invariant newSize == 2 * size || (newSize / 2) * loadFactor / 100 < n
      decreases 200 * (n + 1) - newSize
    {
      LoadFactorBound(newSize, loadFactor, n);
      newSize := newSize * 2;
      k := k + 1;
    }
    SmallPowersAreBelow64(k);
  }

  datatype Op<!K, !V> =
    | InsertOp(key: K, value: V)
    | EraseOp(key: K)
    | AtOp(key: K)
    | ExecOnOp(key: K, f: V -> (bool, V))
    | ForEachOp(g: (K, V) -> V)
    | ReserveOp(n: nat)

  datatype Result<K, V> = Pair(flag: bool, value: V) | Visited(entries: seq<Entry<K, V>>) | Nothing

  ghost function ValueOr<K, V>(m: map<K, V>, none: V, k: K): V {
    if k in m then m[k] else none
  }

  /** What an operation does to a plain map. */
  ghost function After<K, V>(m: map<K, V>, none: V, op: Op<K, V>): map<K, V> {
    match op
    case InsertOp(k, v) => m[k := v]
    case EraseOp(k) => m - {k}
    case ExecOnOp(k, f) => Executed(m, k, f(ValueOr(m, none, k)))
    case ForEachOp(g) => MapValues(m, g)
    case _ => m
  }

  ghost function AfterAll<K, V>(m: map<K, V>, none: V, ops: seq<Op<K, V>>): map<K, V>
    decreases |ops|
  {
    if ops == [] then m else AfterAll(After(m, none, ops[0]), none, ops[1..])
  }

  /** What an operation on a plain map answers. */
  ghost predicate Answers<K(!new), V>(m: map<K, V>, none: V, op: Op<K, V>, r: Result<K, V>) {
    match op
    case InsertOp(k, _) => r == Pair(k !in m, ValueOr(m, none, k))
    case EraseOp(k) => r == Pair(k in m, ValueOr(m, none, k))
    case AtOp(k) => r == Pair(k in m, ValueOr(m, none, k))
    case ForEachOp(_) => r.Visited? && Lists(r.entries, m)
    case _ => r.Nothing?
  }

  /** Every operation answers as on the plain map reached by the operations before it. */
  ghost predicate AllAnswer<K(!new), V>(m: map<K, V>, none: V, ops: seq<Op<K, V>>, results: seq<Result<K, V>>)
    decreases |ops|
  {
    if ops == [] then results == []
    else
      && results != []
      && Answers(m, none, ops[0], results[0])
      && AllAnswer(After(m, none, ops[0]), none, ops[1..], results[1..])
  }

  lemma SizeAfter<K, V>(m: map<K, V>, none: V, op: Op<K, V>)
    ensures |After(m, none, op)| <= |m| + 1
  {
    match op
    case EraseOp(k) => SizeWithout(m, k);
    case ExecOnOp(k, f) => SizeWithout(m, k);
    case ForEachOp(g) => assert MapValues(m, g).Keys == m.Keys;
    case _ =>
  }

  class ConcurrentMap<K(==, !new), V> {
    const hash: K -> nat
    const none: V
    const loadFactor: nat
    var buckets: seq<Bucket<K, V>>
    var count: nat
    var upperBound: nat
    var mask: nat
    ghost var bits: nat
    ghost var contents: map<K, V>

    ghost predicate Valid()
      reads this
    {
      && 1 <= loadFactor <= 100
      && bits < 64
      && |buckets| == Pow2(bits)
      && upperBound == |buckets| * loadFactor / 100
      && Table(buckets, hash, mask, contents)
      && count == |contents|
      && count <= upperBound + 1    // the table is grown before it gets fuller
    }

    constructor (hash: K -> nat, none: V, loadFactor: nat, k: nat)
      requires 1 <= loadFactor <= 100 && k < 64
      ensures Valid() && contents == map[] && |buckets| == Pow2(k)
      ensures this.hash == hash && this.none == none && this.loadFactor == loadFactor
    {
      this.hash, this.none, this.loadFactor := hash, none, loadFactor;
      var size := Pow2(k);
      this.buckets := seq(size, _ => Bucket(Unassigned, []));
      this.count := 0;
      this.upperBound := size * loadFactor / 100;
      this.mask := SIZE_MAX % size;
      this.bits, this.contents := k, map[];
      MaskOfSize(k);
    }

    method Reserve(n: nat)
      requires Valid() && n < MAX_ENTRIES
      modifies this
      ensures Valid() && contents == old(contents) && count == old(count)
      ensures |buckets| >= old(|buckets|)
      ensures n < old(upperBound) ==> buckets == old(buckets)
      ensures n >= old(upperBound) ==> |buckets| >= 2 * old(|buckets|) && n <= upperBound
      ensures n >= old(upperBound) ==> |buckets| == 2 * old(|buckets|) || (|buckets| / 2) * loadFactor / 100 < n
    {
      if n < upperBound {
        return;
      }
      var newSize;
      ghost var k;
      newSize, k := GrownSize(|buckets|, loadFactor, n, bits);
      Resize(newSize, k);
    }

    method Resize(newSize: nat, ghost k: nat)
      requires Valid() && newSize == Pow2(k) && k < 64 && newSize >= |buckets|
      modifies this
      ensures Valid() && contents == old(contents) && count == old(count)
      ensures |buckets| == newSize && upperBound == newSize * loadFactor / 100
    {
      var oldBuckets, oldMask := buckets, mask;
      BoundGrows(|buckets|, newSize, loadFactor);
      mask := SIZE_MAX % newSize;
      upperBound := newSize * loadFactor / 100;
      MaskOfSize(k);
      buckets := Rehash(oldBuckets, hash, oldMask, mask, contents);
      bits := k;
    }

    method Insert(key: K, value: V) returns (added: bool, was: V)
      requires Valid() && count < MAX_ENTRIES
      modifies this
      ensures Valid() && contents == old(contents)[key := value]
      ensures added <==> key !in old(contents)
      ensures was == if key in old(contents) then old(contents)[key] else none
    {
      Reserve(count);
      var i := And(hash(key), mask);
      ghost var shard := Shard(contents, hash, mask, i);
      var b;
      b, added, was := BucketInsert(buckets[i], key, value, none, shard);
      TablePut(buckets, hash, mask, contents, key, value, b);
      buckets := buckets[i := b];
      if added {
        count := count + 1;
      }
      contents := contents[key := value];
    }

    method Erase(key: K) returns (found: bool, was: V)
      requires Valid()
      modifies this
      ensures Valid() && contents == old(contents) - {key}
      ensures found <==> key in old(contents)
      ensures was == if key in old(contents) then old(contents)[key] else none
    {
      var i := And(hash(key), mask);
      ghost var shard := Shard(contents, hash, mask, i);
      var b;
      b, found, was := BucketErase(buckets[i], key, none, shard);
      TableDrop(buckets, hash, mask, contents, key, b);
      buckets := buckets[i := b];
      SizeWithout(contents, key);
      if found {
        count := count - 1;
      }
      contents := contents - {key};
    }

    method At(key: K) returns (found: bool, value: V)
      requires Valid()
      ensures found <==> key in contents
      ensures value == if key in contents then contents[key] else none
    {
      var i := And(hash(key), mask);
      found, value := BucketAt(buckets[i], key, none, Shard(contents, hash, mask, i));
    }

    method ExecOn(key: K, f: V -> (bool, V))
      requires Valid() && count < MAX_ENTRIES
      modifies this
      ensures Valid()
      ensures contents == Executed(old(contents), key, f(if key in old(contents) then old(contents)[key] else none))
    {
      Reserve(count);
      var i := And(hash(key), mask);
      ghost var shard := Shard(contents, hash, mask, i);
      ghost var r := f(if key in contents then contents[key] else none);
      var b, delta := BucketExecOn(buckets[i], key, f, none, shard);
      TableExecuted(buckets, hash, mask, contents, key, r, b);
      buckets := buckets[i := b];
      count := count + delta;
      contents := Executed(contents, key, r);
    }

    method ForEach(g: (K, V) -> V) returns (visited: seq<Entry<K, V>>)
      requires Valid()
      modifies this
      ensures Valid() && contents == MapValues(old(contents), g)
      ensures Lists(visited, old(contents))
    {
      buckets, visited := TableForEach(buckets, hash, mask, g, contents);
      assert MapValues(contents, g).Keys == contents.Keys;
      contents := MapValues(contents, g);
    }

    method Apply(op: Op<K, V>) returns (r: Result<K, V>)
      requires Valid() && count < MAX_ENTRIES && (op.ReserveOp? ==> op.n < MAX_ENTRIES)
      modifies this
      ensures Valid() && contents == After(old(contents), none, op) && count <= old(count) + 1
      ensures Answers(old(contents), none, op, r)
    {
      SizeAfter(contents, none, op);
      match op
      case InsertOp(k, v) =>
        var flag, value := Insert(k, v);
        r := Pair(flag, value);
      case EraseOp(k) =>
        var flag, value := Erase(k);
        r := Pair(flag, value);
      case AtOp(k) =>
        var flag, value := At(k);
        r := Pair(flag, value);
      case ExecOnOp(k, f) =>
        ExecOn(k, f);
        r := Nothing;
      case ForEachOp(g) =>
        var entries := ForEach(g);
        r := Visited(entries);
      case ReserveOp(n) =>
        Reserve(n);
        r := Nothing;
    }

    /** Any sequence of operations answers as a plain map would, whatever resizes happen in between. */
    method Run(ops: seq<Op<K, V>>) returns (results: seq<Result<K, V>>)
      requires Valid() && count + |ops| < MAX_ENTRIES
      requires forall i :: 0 <= i < |ops| && ops[i].ReserveOp? ==> ops[i].n < MAX_ENTRIES
      modifies this
      decreases |ops|
      ensures Valid() && contents == AfterAll(old(contents), none, ops) && count == |contents| <= upperBound + 1
      ensures AllAnswer(old(contents), none, ops, results)
    {
      if ops == [] {
        return [];
      }
      var r := Apply(ops[0]);
      var rest := Run(ops[1..]);
      results := [r] + rest;
    }
  }
}
