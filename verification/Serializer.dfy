/**
 The binary serializer: sizer, writer and reader over values nested from PODs, booleans, strings,
 pairs, tuples, vectors, optionals, maps and multimaps.

 A map value lists its entries in the iteration order of its container, which for the unordered
 map is arbitrary. The reader is driven by the type, as the C++ overloads are.
 */
module Serializer {

  import opened Bytes

  datatype Ty =
    | Pod(size: nat)
    | Bool
    | Str
    | Pair(first: Ty, second: Ty)
    | Tuple(fields: seq<Ty>)
    | Vector(elem: Ty)
    | Optional(elem: Ty)
    | Map(key: Ty, value: Ty)
    | MultiMap(key: Ty, value: Ty)

  datatype Val =
    | PodV(bytes: seq<Byte>)
    | BoolV(b: bool)
    | StrV(chars: seq<Byte>)
    | PairV(first: Val, second: Val)
    | TupleV(fields: seq<Val>)
    | VectorV(elems: seq<Val>)
    | NoneV
    | SomeV(value: Val)
    | MapV(entries: seq<Entry>)

  datatype Entry = Entry(key: Val, value: Val)

  ghost predicate UniqueKeys(es: seq<Entry>) {
    forall i, j :: 0 <= i < j < |es| ==> es[i].key != es[j].key
  }

  /** The values of a type that the container and its length field can hold. */
  ghost predicate HasType(v: Val, t: Ty)
    decreases v
  {
    match t
    case Pod(n) => v.PodV? && |v.bytes| == n
    case Bool => v.BoolV?
    case Str => v.StrV? && |v.chars| < U32
    case Pair(a, b) => v.PairV? && HasType(v.first, a) && HasType(v.second, b)
    case Tuple(ts) => v.TupleV? && |v.fields| == |ts| && forall i :: 0 <= i < |ts| ==> HasType(v.fields[i], ts[i])
    case Vector(e) => v.VectorV? && |v.elems| < U64 && forall i :: 0 <= i < |v.elems| ==> HasType(v.elems[i], e)
    case Optional(e) => v.NoneV? || (v.SomeV? && HasType(v.value, e))
    case Map(k, w) => v.MapV? && |v.entries| < U64 && UniqueKeys(v.entries) && EntriesHaveType(v.entries, k, w)
    case MultiMap(k, w) => v.MapV? && |v.entries| < U64 && EntriesHaveType(v.entries, k, w)
  }

  ghost predicate EntriesHaveType(es: seq<Entry>, k: Ty, w: Ty)
    decreases es
  {
    forall i :: 0 <= i < |es| ==> EntryHasType(es[i], k, w)
  }

  ghost predicate EntryHasType(e: Entry, k: Ty, w: Ty)
    decreases e
  {
    HasType(e.key, k) && HasType(e.value, w)
  }

  // The sizer

  function Size(v: Val): nat
    decreases v
  {
    match v
    case PodV(bytes) => |bytes|
    case BoolV(_) => 1
    case StrV(chars) => 4 + |chars|
    case PairV(a, b) => Size(a) + Size(b)
    case TupleV(fs) => SizeFromLast(fs)
    case VectorV(es) => 8 + SizeAll(es)
    case NoneV => 1
    case SomeV(w) => 1 + Size(w)
    case MapV(es) => 8 + SizeEntries(es)
  }

  /** Tuples are sized from the last component to the first. */
  function SizeFromLast(vs: seq<Val>): nat
    decreases vs
  {
    if vs == [] then 0 else Size(vs[|vs| - 1]) + SizeFromLast(vs[..|vs| - 1])
  }

  function SizeAll(vs: seq<Val>): nat
    decreases vs
  {
    if vs == [] then 0 else Size(vs[0]) + SizeAll(vs[1..])
  }

  function SizeEntries(es: seq<Entry>): nat
    decreases es
  {
    if es == [] then 0 else SizeEntry(es[0]) + SizeEntries(es[1..])
  }

  function SizeEntry(e: Entry): nat
    decreases e
  {
    Size(e.key) + Size(e.value)
  }

  // The writer

  function Write(v: Val): seq<Byte>
    decreases v
  {
    match v
    case PodV(bytes) => bytes
    case BoolV(b) => [if b then 1 else 0]
    case StrV(chars) =>
      // the length is cut to 32 bits, and only that many characters are copied
      ToBytes(|chars| % U32, 4) + chars[..|chars| % U32]
    case PairV(a, b) => Write(a) + Write(b)
    case TupleV(fs) => WriteAll(fs)
    case VectorV(es) => ToBytes(|es|, 8) + WriteAll(es)
    case NoneV => [0]
    case SomeV(w) => [1] + Write(w)
    case MapV(es) => ToBytes(|es|, 8) + WriteEntries(es)
  }

  function WriteAll(vs: seq<Val>): seq<Byte>
    decreases vs
  {
    if vs == [] then [] else Write(vs[0]) + WriteAll(vs[1..])
  }

  function WriteEntries(es: seq<Entry>): seq<Byte>
    decreases es
  {
    if es == [] then [] else WriteEntry(es[0]) + WriteEntries(es[1..])
  }

  function WriteEntry(e: Entry): seq<Byte>
    decreases e
  {
    Write(e.key) + Write(e.value)
  }

  // The reader

  datatype Read<T> = OutOfBounds | Ok(value: T, rest: seq<Byte>)

  function ReadNumber(n: nat, s: seq<Byte>): Read<nat> {
    if |s| < n then OutOfBounds else Ok(FromBytes(s[..n]), s[n..])
  }

  function ReadVal(t: Ty, s: seq<Byte>): Read<Val>
    decreases t, 3
  {
    match t
    case Pod(n) => if |s| < n then OutOfBounds else Ok(PodV(s[..n]), s[n..])
    case Bool => if s == [] then OutOfBounds else Ok(BoolV(s[0] == 1), s[1..])
    case Str =>
      (match ReadNumber(4, s)
       case OutOfBounds => OutOfBounds
       case Ok(n, r) => if |r| < n then OutOfBounds else Ok(StrV(r[..n]), r[n..]))
    case Pair(a, b) =>
      (match ReadVal(a, s)
       case OutOfBounds => OutOfBounds
       case Ok(x, r) =>
         match ReadVal(b, r)
         case OutOfBounds => OutOfBounds
         case Ok(y, q) => Ok(PairV(x, y), q))
    case Tuple(ts) =>
      (match ReadFields(ts, s)
       case OutOfBounds => OutOfBounds
       case Ok(vs, r) => Ok(TupleV(vs), r))
    case Vector(e) =>
      (match ReadNumber(8, s)
       case OutOfBounds => OutOfBounds
       case Ok(n, r) =>
         match ReadElems(e, n, r)
         case OutOfBounds => OutOfBounds
         case Ok(vs, q) => Ok(VectorV(vs), q))
    case Optional(e) =>
      if s == [] then OutOfBounds
      else if s[0] != 1 then Ok(NoneV, s[1..])
      else
        (match ReadVal(e, s[1..])
         case OutOfBounds => OutOfBounds
         case Ok(x, r) => Ok(SomeV(x), r))
    case Map(_, _) => ReadMap(t, s)
    case MultiMap(_, _) => ReadMap(t, s)
  }

  function ReadFields(ts: seq<Ty>, s: seq<Byte>): Read<seq<Val>>
    decreases ts, 0
  {
    if ts == [] then Ok([], s)
    else
      match ReadVal(ts[0], s)
      case OutOfBounds => OutOfBounds
      case Ok(x, r) =>
        match ReadFields(ts[1..], r)
        case OutOfBounds => OutOfBounds
        case Ok(xs, q) => Ok([x] + xs, q)
  }

  function ReadElems(t: Ty, n: nat, s: seq<Byte>): Read<seq<Val>>
    decreases t, 4, n
  {
    if n == 0 then Ok([], s)
    else
      match ReadVal(t, s)
      case OutOfBounds => OutOfBounds
      case Ok(x, r) =>
        match ReadElems(t, n - 1, r)
        case OutOfBounds => OutOfBounds
        case Ok(xs, q) => Ok([x] + xs, q)
  }

  function ReadMap(t: Ty, s: seq<Byte>): Read<Val>
    requires t.Map? || t.MultiMap?
    decreases t, 2
  {
    match ReadNumber(8, s)
    case OutOfBounds => OutOfBounds
    case Ok(n, r) =>
      match ReadEntries(t, n, [], r)
      case OutOfBounds => OutOfBounds
      case Ok(es, q) => Ok(MapV(es), q)
  }

  /** `emplace` on a map keeps the entry that is already there. */
  function Emplace(es: seq<Entry>, e: Entry, unique: bool): seq<Entry> {
    if unique && (exists i :: 0 <= i < |es| && es[i].key == e.key) then es else es + [e]
  }

  function ReadEntries(t: Ty, n: nat, es: seq<Entry>, s: seq<Byte>): Read<seq<Entry>>
    requires t.Map? || t.MultiMap?
    decreases t, 1, n
  {
    if n == 0 then Ok(es, s)
    else
      match ReadVal(t.key, s)
      case OutOfBounds => OutOfBounds
      case Ok(x, r) =>
        match ReadVal(t.value, r)
        case OutOfBounds => OutOfBounds
        case Ok(y, q) => ReadEntries(t, n - 1, Emplace(es, Entry(x, y), t.Map?), q)
  }

  // Sizes

  lemma {:induction false} SizeIsLength(v: Val, t: Ty)
    requires HasType(v, t)
    ensures Size(v) == |Write(v)|
    decreases v
  {
    match v
    case PairV(a, b) => SizeIsLength(a, t.first); SizeIsLength(b, t.second);
    case TupleV(fs) =>
      forall i | 0 <= i < |fs| ensures Size(fs[i]) == |Write(fs[i])| { SizeIsLength(fs[i], t.fields[i]); }
      SizeFromLastIsSizeAll(fs);
      SizesAreLengths(fs);
    case VectorV(es) =>
      forall i | 0 <= i < |es| ensures Size(es[i]) == |Write(es[i])| { SizeIsLength(es[i], t.elem); }
      SizesAreLengths(es);
    case SomeV(w) => SizeIsLength(w, t.elem);
    case MapV(es) => EntrySizesAreLengths(es, t.key, t.value);
    case _ =>
  }

  lemma {:induction false} SizesAreLengths(vs: seq<Val>)
    requires forall i :: 0 <= i < |vs| ==> Size(vs[i]) == |Write(vs[i])|
    ensures SizeAll(vs) == |WriteAll(vs)|
    decreases |vs|
  {
    if vs != [] {
      SizesAreLengths(vs[1..]);
    }
  }

  lemma {:induction false} SizeFromLastIsSizeAll(vs: seq<Val>)
    ensures SizeFromLast(vs) == SizeAll(vs)
    decreases |vs|
  {
    if vs != [] {
      SizeFromLastIsSizeAll(vs[..|vs| - 1]);
      SizeAllAppend(vs[..|vs| - 1], vs[|vs| - 1]);
      assert vs[..|vs| - 1] + [vs[|vs| - 1]] == vs;
    }
  }

  lemma {:induction false} SizeAllAppend(vs: seq<Val>, v: Val)
    ensures SizeAll(vs + [v]) == SizeAll(vs) + Size(v)
    decreases |vs|
  {
    if vs == [] {
      assert SizeAll([v]) == Size(v) + SizeAll([v][1..]);
      assert vs + [v] == [v];
    } else {
      SizeAllAppend(vs[1..], v);
      assert (vs + [v])[1..] == vs[1..] + [v];
    }
  }

  lemma {:induction false} EntrySizesAreLengths(es: seq<Entry>, k: Ty, w: Ty)
    requires EntriesHaveType(es, k, w)
    ensures SizeEntries(es) == |WriteEntries(es)|
    decreases es
  {
    if es != [] {
      EntrySizeIsLength(es[0], k, w);
      EntrySizesAreLengths(es[1..], k, w);
    }
  }

  lemma EntrySizeIsLength(e: Entry, k: Ty, w: Ty)
    requires EntryHasType(e, k, w)
    ensures SizeEntry(e) == |WriteEntry(e)|
    decreases e
  {
    SizeIsLength(e.key, k);
    SizeIsLength(e.value, w);
  }

  /** The sizer counts what the writer writes exactly for strings shorter than 2^32. */
  lemma StringSizeIsExact(chars: seq<Byte>)
    ensures Size(StrV(chars)) == |Write(StrV(chars))| <==> |chars| < U32
  {
  }

  // Round trips

  lemma {:induction false} RoundTrip(v: Val, t: Ty, suffix: seq<Byte>)
    requires HasType(v, t)
    ensures ReadVal(t, Write(v) + suffix) == Ok(v, suffix)
    decreases v
  {
    match t
    case Pod(n) => Prefix(v.bytes, suffix);
    case Bool =>
    case Str => StringRoundTrip(v.chars, suffix);
    case Pair(a, b) =>
      assert Write(v) + suffix == Write(v.first) + (Write(v.second) + suffix);
      RoundTrip(v.first, a, Write(v.second) + suffix);
      RoundTrip(v.second, b, suffix);
    case Tuple(ts) => FieldsRoundTrip(v.fields, ts, suffix);
    case Vector(e) =>
      CountRoundTrip(|v.elems|, WriteAll(v.elems), suffix);
      ElemsRoundTrip(v.elems, e, suffix);
    case Optional(e) =>
      if v.SomeV? {
        assert (Write(v) + suffix)[1..] == Write(v.value) + suffix;
        RoundTrip(v.value, e, suffix);
      }
    case Map(_, _) => MapRoundTrip(v.entries, t, suffix);
    case MultiMap(_, _) => MapRoundTrip(v.entries, t, suffix);
  }

  lemma StringRoundTrip(chars: seq<Byte>, suffix: seq<Byte>)
    requires |chars| < U32
    ensures ReadVal(Str, Write(StrV(chars)) + suffix) == Ok(StrV(chars), suffix)
  {
    var n := ToBytes(|chars|, 4);
    assert chars[..|chars|] == chars;
    assert Write(StrV(chars)) + suffix == n + (chars + suffix);
    Prefix(n, chars + suffix);
    Prefix(chars, suffix);
    assert Pow256(4) == U32;
    NumberRoundTrip(|chars|, 4);
  }

  lemma CountRoundTrip(n: nat, body: seq<Byte>, suffix: seq<Byte>)
    requires n < U64
    ensures ReadNumber(8, ToBytes(n, 8) + body + suffix) == Ok(n, body + suffix)
  {
    assert ToBytes(n, 8) + body + suffix == ToBytes(n, 8) + (body + suffix);
    Prefix(ToBytes(n, 8), body + suffix);
    assert Pow256(8) == U64;
    NumberRoundTrip(n, 8);
  }

  lemma {:induction false} FieldsRoundTrip(vs: seq<Val>, ts: seq<Ty>, suffix: seq<Byte>)
    requires |vs| == |ts| && forall i :: 0 <= i < |ts| ==> HasType(vs[i], ts[i])
    ensures ReadFields(ts, WriteAll(vs) + suffix) == Ok(vs, suffix)
    decreases vs
  {
    if vs != [] {
      assert WriteAll(vs) + suffix == Write(vs[0]) + (WriteAll(vs[1..]) + suffix);
      RoundTrip(vs[0], ts[0], WriteAll(vs[1..]) + suffix);
      FieldsRoundTrip(vs[1..], ts[1..], suffix);
      assert [vs[0]] + vs[1..] == vs;
    } else {
      assert WriteAll(vs) + suffix == suffix;
    }
  }

  lemma {:induction false} ElemsRoundTrip(vs: seq<Val>, t: Ty, suffix: seq<Byte>)
    requires forall i :: 0 <= i < |vs| ==> HasType(vs[i], t)
    ensures ReadElems(t, |vs|, WriteAll(vs) + suffix) == Ok(vs, suffix)
    decreases vs
  {
    if vs != [] {
      assert WriteAll(vs) + suffix == Write(vs[0]) + (WriteAll(vs[1..]) + suffix);
      RoundTrip(vs[0], t, WriteAll(vs[1..]) + suffix);
      ElemsRoundTrip(vs[1..], t, suffix);
      assert [vs[0]] + vs[1..] == vs;
    } else {
      assert WriteAll(vs) + suffix == suffix;
    }
  }

  lemma MapRoundTrip(es: seq<Entry>, t: Ty, suffix: seq<Byte>)
    requires t.Map? || t.MultiMap?
    requires |es| < U64 && (t.Map? ==> UniqueKeys(es)) && EntriesHaveType(es, t.key, t.value)
    ensures ReadVal(t, Write(MapV(es)) + suffix) == Ok(MapV(es), suffix)
    decreases es, 1
  {
    CountRoundTrip(|es|, WriteEntries(es), suffix);
    EntriesRoundTrip([], es, t, suffix);
    assert [] + es == es;
  }

  lemma {:induction false} EntriesRoundTrip(before: seq<Entry>, es: seq<Entry>, t: Ty, suffix: seq<Byte>)
    requires t.Map? || t.MultiMap?
    requires (t.Map? ==> UniqueKeys(before + es)) && EntriesHaveType(es, t.key, t.value)
    ensures ReadEntries(t, |es|, before, WriteEntries(es) + suffix) == Ok(before + es, suffix)
    decreases es, 0
  {
    if es == [] {
      assert WriteEntries(es) + suffix == suffix && before + es == before;
    } else {
      var rest := WriteEntries(es[1..]) + suffix;
      EntryRoundTrip(es[0], t, rest);
      assert WriteEntries(es) + suffix == WriteEntry(es[0]) + rest;
      EmplaceNew(before, es, t.Map?);
      EntriesRoundTrip(before + [es[0]], es[1..], t, suffix);
    }
  }

  lemma EmplaceNew(before: seq<Entry>, es: seq<Entry>, unique: bool)
    requires es != [] && (unique ==> UniqueKeys(before + es))
    ensures Emplace(before, es[0], unique) == before + [es[0]]
    ensures before + [es[0]] + es[1..] == before + es
  {
    if unique {
      forall i | 0 <= i < |before| ensures before[i].key != es[0].key {
        assert (before + es)[i].key != (before + es)[|before|].key;
      }
    }
  }

  lemma EntryRoundTrip(e: Entry, t: Ty, suffix: seq<Byte>)
    requires t.Map? || t.MultiMap?
    requires EntryHasType(e, t.key, t.value)
    ensures ReadVal(t.key, WriteEntry(e) + suffix) == Ok(e.key, Write(e.value) + suffix)
    ensures ReadVal(t.value, Write(e.value) + suffix) == Ok(e.value, suffix)
    decreases e
  {
    assert WriteEntry(e) + suffix == Write(e.key) + (Write(e.value) + suffix);
    RoundTrip(e.key, t.key, Write(e.value) + suffix);
    RoundTrip(e.value, t.value, suffix);
  }

  // What follows for users

  /** `serialize` fills its buffer exactly, and `deserialize` gives the value back and stops at its end. */
  lemma SerializeDeserialize(v: Val, t: Ty, suffix: seq<Byte>)
    requires HasType(v, t)
    ensures |Write(v)| == Size(v)
    ensures ReadVal(t, Write(v) + suffix) == Ok(v, (Write(v) + suffix)[Size(v)..])
  {
    SizeIsLength(v, t);
    RoundTrip(v, t, suffix);
    Prefix(Write(v), suffix);
  }

  /** Within one type no encoding is a prefix of another, so streams of values can be read back. */
  lemma NoEncodingIsPrefix(v: Val, w: Val, t: Ty, more: seq<Byte>)
    requires HasType(v, t) && HasType(w, t) && Write(w) == Write(v) + more
    ensures v == w && more == []
  {
    RoundTrip(v, t, more);
    RoundTrip(w, t, []);
    assert Write(w) + [] == Write(w);
  }

  /** `es` enumerates `m`, in whatever order. */
  ghost predicate Enumerates(es: seq<Entry>, m: map<Val, Val>) {
    && UniqueKeys(es)
    && (forall i :: 0 <= i < |es| ==> es[i].key in m && m[es[i].key] == es[i].value)
    && (forall k :: k in m ==> exists i :: 0 <= i < |es| && es[i].key == k)
  }

  /** An unordered map comes back as the same map, whatever order it was iterated in. */
  lemma AnyIterationOrder(m: map<Val, Val>, es: seq<Entry>, k: Ty, w: Ty, suffix: seq<Byte>)
    requires Enumerates(es, m) && HasType(MapV(es), Map(k, w))
    ensures var r := ReadVal(Map(k, w), Write(MapV(es)) + suffix);
            r.Ok? && r.rest == suffix && r.value.MapV? && Enumerates(r.value.entries, m)
  {
    RoundTrip(MapV(es), Map(k, w), suffix);
  }

  /** The wire format, byte by byte: tags are 0 and 1, lengths are little endian in four or eight bytes. */
  lemma WireFormat(w: Val)
    ensures Write(BoolV(false)) == [0] && Write(BoolV(true)) == [1]
    ensures Write(NoneV) == [0] && Write(SomeV(w)) == [1] + Write(w)
    ensures Write(StrV([97, 98])) == [2, 0, 0, 0, 97, 98]
    ensures Write(PairV(BoolV(true), PodV([7]))) == [1, 7] && Write(TupleV([BoolV(true), PodV([7])])) == [1, 7]
    ensures Write(VectorV([BoolV(true), BoolV(false)])) == [2, 0, 0, 0, 0, 0, 0, 0, 1, 0]
    ensures Write(MapV([Entry(PodV([5]), BoolV(true))])) == [1, 0, 0, 0, 0, 0, 0, 0, 5, 1]
  {
    Numeral4(2);
    Numeral8(2);
    Numeral8(1);
    var pair := [BoolV(true), PodV([7])];
    assert pair[1..] == [PodV([7])] && pair[1..][1..] == [];
    var bools := [BoolV(true), BoolV(false)];
    assert bools[1..] == [BoolV(false)] && bools[1..][1..] == [];
    var entries := [Entry(PodV([5]), BoolV(true))];
    assert entries[1..] == [];
  }

  lemma Numeral4(n: nat)
    requires n < 256
    ensures ToBytes(n, 4) == [n, 0, 0, 0]
  {
    assert ToBytes(0, 2) == [0, 0];
    assert ToBytes(0, 3) == [0, 0, 0];
  }

  lemma Numeral8(n: nat)
    requires n < 256
    ensures ToBytes(n, 8) == [n, 0, 0, 0, 0, 0, 0, 0]
  {
    assert ToBytes(0, 2) == [0, 0];
    assert ToBytes(0, 4) == [0, 0, 0, 0];
    assert ToBytes(0, 6) == [0, 0, 0, 0, 0, 0];
    assert ToBytes(0, 7) == [0, 0, 0, 0, 0, 0, 0];
  }
}
