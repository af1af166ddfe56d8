/**
 The memory token store: a table of slots that a remote host copies and searches. Publishing takes the
 first slot that is not enabled. Unpublishing and the validity check take the first slot with the
 token, enabled or not.
 */
module TokenStore {

  datatype Entry = Entry(regionType: nat, address: nat, key: nat, size: nat)

  datatype Slot = Slot(enabled: bool, token: nat, entry: Entry)

  datatype Option<T> = None | Some(value: T)

  /** No slot below an enabled one carries its token. */
  ghost predicate Unshadowed(slots: seq<Slot>) {
    forall i, j :: 0 <= i < j < |slots| && slots[j].enabled ==> slots[i].token != slots[j].token
  }

  ghost predicate Enabled(slots: seq<Slot>, t: nat) {
    exists i :: 0 <= i < |slots| && slots[i].enabled && slots[i].token == t
  }

  /** The entries that are published, by token. */
  ghost function Table(slots: seq<Slot>): map<nat, Entry>
    requires Unshadowed(slots)
  {
    map i | 0 <= i < |slots| && slots[i].enabled :: slots[i].token := slots[i].entry
  }

  /** The first slot that is not enabled. */
  ghost predicate FirstFree(slots: seq<Slot>, k: nat) {
    k < |slots| && !slots[k].enabled && forall i :: 0 <= i < k ==> slots[i].enabled
  }

  /** The first slot with a token. */
  ghost predicate FirstWith(slots: seq<Slot>, t: nat, k: nat) {
    k < |slots| && slots[k].token == t && forall i :: 0 <= i < k ==> slots[i].token != t
  }

  /** Publishing keeps tokens apart exactly if the token is not published already. */
  lemma PublishKeepsIff(slots: seq<Slot>, k: nat, t: nat, e: Entry)
    requires Unshadowed(slots) && FirstFree(slots, k)
    ensures Unshadowed(slots[k := Slot(true, t, e)]) <==> !Enabled(slots, t)
  {
    var after := slots[k := Slot(true, t, e)];
    if Enabled(slots, t) {
      var i :| 0 <= i < |slots| && slots[i].enabled && slots[i].token == t;
      assert after[i].token == after[k].token && after[i].enabled && after[k].enabled;
    }
  }

  lemma PublishAddsEntry(slots: seq<Slot>, k: nat, t: nat, e: Entry)
    requires Unshadowed(slots) && FirstFree(slots, k) && !Enabled(slots, t)
    ensures Unshadowed(slots[k := Slot(true, t, e)]) && Table(slots[k := Slot(true, t, e)]) == Table(slots)[t := e]
  {
    var after := slots[k := Slot(true, t, e)];
    PublishKeepsIff(slots, k, t, e);
    var a, b := Table(after), Table(slots)[t := e];
    forall x | x in a ensures x in b && a[x] == b[x] {
      var i :| 0 <= i < |after| && after[i].enabled && after[i].token == x;
      assert i != k ==> slots[i] == after[i];
    }
    forall x | x in b ensures x in a {
      if x == t {
        assert after[k].token == t;
      } else {
        var i :| 0 <= i < |slots| && slots[i].enabled && slots[i].token == x;
        assert after[i] == slots[i];
      }
    }
  }

  /** The first slot with a token is the enabled one, if there is an enabled one. */
  lemma FirstIsEnabled(slots: seq<Slot>, t: nat, k: nat)
    requires Unshadowed(slots) && FirstWith(slots, t, k)
    ensures slots[k].enabled <==> t in Table(slots)
    ensures slots[k].enabled ==> Table(slots)[t] == slots[k].entry
  {
    if t in Table(slots) {
      var i :| 0 <= i < |slots| && slots[i].enabled && slots[i].token == t;
      assert i == k;
    }
  }

  lemma UnpublishRemovesEntry(slots: seq<Slot>, t: nat, k: nat)
    requires Unshadowed(slots) && FirstWith(slots, t, k)
    ensures Unshadowed(slots[k := slots[k].(enabled := false)])
    ensures Table(slots[k := slots[k].(enabled := false)]) == Table(slots) - {t}
  {
    var after := slots[k := slots[k].(enabled := false)];
    assert forall i :: 0 <= i < |slots| && i != k ==> after[i] == slots[i];
    var a, b := Table(after), Table(slots) - {t};
    forall x | x in a ensures x in b && a[x] == b[x] {
      var i :| 0 <= i < |after| && after[i].enabled && after[i].token == x;
      OnlyFirst(slots, t, k, i);
    }
    forall x | x in b ensures x in a {
      var i :| 0 <= i < |slots| && slots[i].enabled && slots[i].token == x;
      assert after[i] == slots[i];
    }
  }

  lemma OnlyFirst(slots: seq<Slot>, t: nat, k: nat, i: nat)
    requires Unshadowed(slots) && FirstWith(slots, t, k) && i < |slots| && slots[i].enabled
    ensures slots[i].token == t <==> i == k
  {
  }

  lemma NotInTable(slots: seq<Slot>, t: nat)
    requires Unshadowed(slots)
    ensures t in Table(slots) <==> Enabled(slots, t)
  {
  }

  function CountEnabled(slots: seq<Slot>): nat {
    if slots == [] then 0
    else CountEnabled(slots[..|slots| - 1]) + if slots[|slots| - 1].enabled then 1 else 0
  }

  /** The last slot adds its entry to the table of those before it, if it is enabled. */
  lemma TableOfFront(slots: seq<Slot>, front: seq<Slot>, last: Slot)
    requires slots == front + [last] && Unshadowed(slots)
    ensures Unshadowed(front)
    ensures last.enabled ==> last.token !in Table(front)
    ensures Table(slots) == if last.enabled then Table(front)[last.token := last.entry] else Table(front)
  {
    assert forall i :: 0 <= i < |front| ==> front[i] == slots[i];
    assert slots[|front|] == last;
    if last.enabled {
      assert !Enabled(front, last.token);
    }
    var a, b := Table(slots), if last.enabled then Table(front)[last.token := last.entry] else Table(front);
    forall x | x in a ensures x in b && a[x] == b[x] {
      var i :| 0 <= i < |slots| && slots[i].enabled && slots[i].token == x;
      assert i < |front| ==> front[i].enabled && front[i].token == x;
    }
    forall x | x in b ensures x in a {
      InFront(slots, front, last, x);
    }
  }

  lemma InFront(slots: seq<Slot>, front: seq<Slot>, last: Slot, x: nat)
    requires slots == front + [last] && Unshadowed(slots)
    requires Enabled(front, x) || (last.enabled && last.token == x)
    ensures x in Table(slots)
  {
    if Enabled(front, x) {
      var i :| 0 <= i < |front| && front[i].enabled && front[i].token == x;
      assert slots[i] == front[i];
    } else {
      assert slots[|front|] == last;
    }
  }

  lemma {:induction false} TableSize(slots: seq<Slot>)
    requires Unshadowed(slots)
    ensures |Table(slots)| == CountEnabled(slots)
  {
    if slots == [] {
      assert Table(slots) == map[];
    } else {
      var n := |slots| - 1;
      assert slots == slots[..n] + [slots[n]];
      TableOfFront(slots, slots[..n], slots[n]);
      TableSize(slots[..n]);
    }
  }

  lemma {:induction false} CountFull(slots: seq<Slot>)
    ensures CountEnabled(slots) <= |slots|
    ensures CountEnabled(slots) == |slots| <==> forall i :: 0 <= i < |slots| ==> slots[i].enabled
  {
    if slots != [] {
      var front := slots[..|slots| - 1];
      CountFull(front);
      assert forall i :: 0 <= i < |front| ==> front[i] == slots[i];
    }
  }

  /** The table is full exactly when there are as many entries as slots. */
  lemma FullIff(slots: seq<Slot>)
    requires Unshadowed(slots)
    ensures |Table(slots)| == |slots| <==> forall i :: 0 <= i < |slots| ==> slots[i].enabled
  {
    TableSize(slots);
    CountFull(slots);
  }

  // The remote side, on its copy of the slots

  /** `getRemoteMemoryToken`. */
  method Lookup(cache: seq<Slot>, t: nat) returns (r: Option<Entry>)
    requires Unshadowed(cache)
    ensures r == if t in Table(cache) then Some(Table(cache)[t]) else None
  {
    NotInTable(cache, t);
    for i := 0 to |cache|
      invariant forall j :: 0 <= j < i ==> !(cache[j].enabled && cache[j].token == t)
    {
      if cache[i].enabled && cache[i].token == t {
        assert Table(cache)[cache[i].token] == cache[i].entry;
        return Some(cache[i].entry);
      }
    }
    return None;
  }

  /** `isRemoteMemoryTokenValid`. */
  method IsValid(cache: seq<Slot>, t: nat) returns (r: bool)
    requires Unshadowed(cache)
    ensures r <==> t in Table(cache)
  {
    for i := 0 to |cache|
      invariant forall j :: 0 <= j < i ==> cache[j].token != t
    {
      if cache[i].token == t {
        FirstIsEnabled(cache, t, i);
        return cache[i].enabled;
      }
    }
    NotInTable(cache, t);
    return false;
  }

  class MemoryTokenStore {
    var slots: array<Slot>

    ghost predicate Valid()
      reads this, slots
    {
      Unshadowed(slots[..])
    }

    /** The memory is not cleared: tokens and entries start out arbitrary. */
    constructor (memory: seq<Slot>)
      ensures Valid() && fresh(slots) && slots.Length == |memory| && Table(slots[..]) == map[]
    {
      slots := new Slot[|memory|](i requires 0 <= i < |memory| => memory[i]);
      new;
      for i := 0 to |memory|
        invariant fresh(slots) && slots.Length == |memory|
        invariant forall j :: 0 <= j < i ==> !slots[j].enabled
      {
        slots[i] := slots[i].(enabled := false);
      }
    }

    /**
     `publishTokenData`; false if there is no free slot. A token that is published already is put into
     a second slot, and then the table is no map any more.
     */
    method Publish(t: nat, e: Entry) returns (ok: bool)
      requires Valid()
      modifies slots
      ensures ok <==> |old(Table(slots[..]))| != slots.Length
      ensures !ok ==> slots[..] == old(slots[..])
      ensures ok ==> exists k: nat :: FirstFree(old(slots[..]), k) && slots[..] == old(slots[..])[k := Slot(true, t, e)]
      ensures Valid() <==> !ok || t !in old(Table(slots[..]))
      ensures ok && t !in old(Table(slots[..])) ==> Table(slots[..]) == old(Table(slots[..]))[t := e]
    {
      FullIff(slots[..]);
      for i := 0 to slots.Length
        invariant slots[..] == old(slots[..])
        invariant forall j :: 0 <= j < i ==> slots[j].enabled
      {
        if !slots[i].enabled {
          assert FirstFree(slots[..], i);
          NotInTable(slots[..], t);
          PublishKeepsIff(slots[..], i, t, e);
          if t !in Table(slots[..]) {
            PublishAddsEntry(slots[..], i, t, e);
          }
          slots[i] := Slot(true, t, e);
          assert slots[..] == old(slots[..])[i := Slot(true, t, e)];
          return true;
        }
      }
      return false;
    }

    /** `unpublishTokenData`. */
    method Unpublish(t: nat)
      requires Valid()
      modifies slots
      ensures Valid() && Table(slots[..]) == old(Table(slots[..])) - {t}
    {
      for i := 0 to slots.Length
        invariant slots[..] == old(slots[..])
        invariant forall j :: 0 <= j < i ==> slots[j].token != t
      {
        if slots[i].token == t {
          UnpublishRemovesEntry(slots[..], t, i);
          slots[i] := slots[i].(enabled := false);
          assert slots[..] == old(slots[..])[i := old(slots[i]).(enabled := false)];
          return;
        }
      }
      NotInTable(slots[..], t);
      assert slots[..] == old(slots[..]);
    }

    /** One call, asked of the store or of a copy of it. */
    method Do(c: Call) returns (a: Answer)
      requires Valid() && (c.Publish? ==> c.token !in Table(slots[..]))
      modifies slots
      ensures Valid() && a == Answered(old(Table(slots[..])), slots.Length, c)
      ensures Table(slots[..]) == After(old(Table(slots[..])), slots.Length, c)
    {
      match c
      case Publish(t, e) =>
        var ok := Publish(t, e);
        a := Done(ok);
      case Unpublish(t) =>
        Unpublish(t);
        a := Done(true);
      case Find(t) =>
        var r := Lookup(slots[..], t);
        a := Found(r);
      case Check(t) =>
        var r := IsValid(slots[..], t);
        a := Done(r);
    }

    /** Every history that publishes no token twice gets the answers that a map from token to entry gives. */
    method Run(calls: seq<Call>) returns (answers: seq<Answer>)
      requires Valid() && TokensUnique(Table(slots[..]), slots.Length, calls)
      modifies slots
      ensures Valid() && answers == AllAnswers(old(Table(slots[..])), slots.Length, calls)
      ensures Table(slots[..]) == AfterAll(old(Table(slots[..])), slots.Length, calls)
      decreases |calls|
    {
      if calls == [] {
        return [];
      }
      var a := Do(calls[0]);
      var rest := Run(calls[1..]);
      answers := [a] + rest;
    }
  }

  datatype Call = Publish(token: nat, entry: Entry) | Unpublish(token: nat) | Find(token: nat) | Check(token: nat)

  datatype Answer = Done(ok: bool) | Found(entry: Option<Entry>)

  /** What a map with room for `capacity` entries answers. */
  function Answered(table: map<nat, Entry>, capacity: nat, c: Call): Answer {
    match c
    case Publish(_, _) => Done(|table| != capacity)
    case Unpublish(_) => Done(true)
    case Find(t) => Found(if t in table then Some(table[t]) else None)
    case Check(t) => Done(t in table)
  }

  function After(table: map<nat, Entry>, capacity: nat, c: Call): map<nat, Entry> {
    match c
    case Publish(t, e) => if |table| != capacity then table[t := e] else table
    case Unpublish(t) => table - {t}
    case _ => table
  }

  function AfterAll(table: map<nat, Entry>, capacity: nat, calls: seq<Call>): map<nat, Entry>
    decreases |calls|
  {
    if calls == [] then table else AfterAll(After(table, capacity, calls[0]), capacity, calls[1..])
  }

  function AllAnswers(table: map<nat, Entry>, capacity: nat, calls: seq<Call>): seq<Answer>
    decreases |calls|
  {
    if calls == [] then []
    else [Answered(table, capacity, calls[0])] + AllAnswers(After(table, capacity, calls[0]), capacity, calls[1..])
  }

  /** No token is published while it is published. */
  predicate TokensUnique(table: map<nat, Entry>, capacity: nat, calls: seq<Call>)
    decreases |calls|
  {
    calls == [] ||
    ((calls[0].Publish? ==> calls[0].token !in table) && TokensUnique(After(table, capacity, calls[0]), capacity, calls[1..]))
  }

  /** Publishing a token twice and unpublishing it once leaves a slot that is found but not valid. */
  lemma PublishedTwice(t: nat, e: Entry, f: Entry)
    ensures var slots := [Slot(true, t, e), Slot(true, t, f)];
            var after := slots[0 := slots[0].(enabled := false)];
            && FirstWith(slots, t, 0)
            && Enabled(after, t) && FirstWith(after, t, 0) && !after[0].enabled
  {
    var slots := [Slot(true, t, e), Slot(true, t, f)];
    var after := slots[0 := slots[0].(enabled := false)];
    assert after[1].enabled && after[1].token == t;
  }
}
