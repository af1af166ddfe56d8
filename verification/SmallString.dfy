/**
 `crossbow::string`: up to 30 characters live in the object itself, longer texts on the heap.

 The first byte of the object is the size of an in-buffer text, or 127 for a heap text, whose size
 and capacity are then stored in the object. `mem` is what the text pointer points at: the 31 bytes
 behind the first byte, or the heap block. Texts and arguments do not alias. An allocation fails only
 above the allocator's maximum, which is less than half of the 64-bit range.
 */
module SmallString {
  import Bits

  const MAX_IN_BUFFER: nat := 30
  const NULLCHAR: nat := 127
  const SIZE_WORD: nat := 0x1_0000_0000_0000_0000
  const NPOS: nat := SIZE_WORD - 1

  datatype Outcome = Ok | OutOfRange | LengthError | BadAlloc

  function Min(a: nat, b: nat): nat { if a < b then a else b }

  function Max(a: nat, b: nat): nat { if a < b then b else a }

  /** Whether room for `request` characters can be had; the allocator gives no block above its maximum. */
  function Growth(capacity: nat, request: nat, maxSize: nat): Outcome {
    if request <= capacity then Ok
    else if request > maxSize then LengthError
    else if Max(2 * capacity, request) > maxSize then BadAlloc
    else Ok
  }

  function Grown(capacity: nat, request: nat, maxSize: nat): nat {
    if request > capacity && Growth(capacity, request, maxSize) == Ok then Max(2 * capacity, request) else capacity
  }

  function Fill(n: nat, c: char): (s: string)
    ensures |s| == n && forall i :: 0 <= i < n ==> s[i] == c
  {
    seq(n, _ => c)
  }

  lemma FillSplit(m: nat, n: nat, c: char)
    requires m <= n
    ensures Fill(m, c) + Fill(n - m, c) == Fill(n, c)
    ensures Fill(n, c)[..m] == Fill(m, c)
  {
  }

  /** The text with the part [first, last) replaced. */
  function Spliced(text: string, first: nat, last: nat, with: string): string
    requires first <= last <= |text|
  {
    text[..first] + with + text[last..]
  }

  /** Allocates a block and copies the first n characters into it; the others are arbitrary. */
  method Copy(from: array<char>, n: nat, length: nat) returns (block: array<char>)
    requires n <= from.Length && n <= length
    ensures fresh(block) && block.Length == length && block[..n] == from[..n]
  {
    block := new char[length];
    for i := 0 to n
      invariant block[..i] == from[..i]
    {
      block[i] := from[i];
    }
  }

  /** Moves the characters [index, n) so that they end at `total`, last one first. */
  method ShiftUp(ptr: array<char>, index: nat, n: nat, total: nat)
    requires index <= n <= total < ptr.Length
    modifies ptr
    ensures ptr[..index] == old(ptr[..index]) && ptr[total] == old(ptr[total])
    ensures ptr[total - (n - index)..total] == old(ptr[index..n])
  {
    for i := 0 to n - index
      invariant ptr[..n - i] == old(ptr[..n - i]) && ptr[total] == old(ptr[total])
      invariant ptr[total - i..total] == old(ptr[n - i..n])
    {
      ghost var front, moved := ptr[..n - i], ptr[total - i..total];
      assert ptr[n - 1 - i] == front[n - 1 - i] == old(ptr[n - 1 - i]);
      ptr[total - 1 - i] := ptr[n - 1 - i];
      assert ptr[total - 1 - i..total] == [ptr[total - 1 - i]] + moved;
      assert ptr[..n - 1 - i] == front[..n - 1 - i];
    }
  }

  /** Moves the characters [last, n) down to `first`, first one first. */
  method ShiftDown(ptr: array<char>, first: nat, last: nat, n: nat)
    requires first <= last <= n < ptr.Length
    modifies ptr
    ensures ptr[..n - (last - first)] == old(ptr[..first]) + old(ptr[last..n])
  {
    for i := 0 to n - last
      invariant ptr[..first] == old(ptr[..first]) && ptr[last + i..] == old(ptr[last + i..])
      invariant ptr[first..first + i] == old(ptr[last..last + i])
    {
      ghost var moved, rest := ptr[first..first + i], ptr[last + i..];
      assert ptr[last + i] == rest[0] == old(ptr[last + i]);
      ptr[first + i] := ptr[last + i];
      assert ptr[first..first + i + 1] == moved + [ptr[first + i]];
      assert ptr[last + i + 1..] == rest[1..];
    }
    assert ptr[..n - (last - first)] == ptr[..first] + ptr[first..n - (last - first)];
  }

  method Write(ptr: array<char>, at: nat, s: string)
    requires at + |s| <= ptr.Length
    modifies ptr
    ensures ptr[..] == old(ptr[..at]) + s + old(ptr[at + |s|..])
  {
    for i := 0 to |s|
      invariant forall j :: 0 <= j < ptr.Length ==> ptr[j] == if at <= j < at + i then s[j - at] else old(ptr[j])
    {
      ptr[at + i] := s[i];
    }
  }

  method WriteFill(ptr: array<char>, at: nat, n: nat, c: char)
    requires at + n <= ptr.Length
    modifies ptr
    ensures ptr[..] == old(ptr[..at]) + Fill(n, c) + old(ptr[at + n..])
  {
    for i := 0 to n
      invariant forall j :: 0 <= j < ptr.Length ==> ptr[j] == if at <= j < at + i then c else old(ptr[j])
    {
      ptr[at + i] := c;
    }
  }

  /** Memory that holds a text with a gap of `count` characters at `index`. */
  ghost predicate GapOpen(memory: string, text: string, index: nat, count: nat)
    requires index <= |text|
  {
    && |text| + count < |memory|
    && memory[..index] == text[..index]
    && memory[index + count..|text| + count] == text[index..]
    && memory[|text| + count] == '\0'
  }

  lemma GapFilled(memory: string, memory': string, text: string, index: nat, s: string)
    requires index <= |text| && GapOpen(memory, text, index, |s|) && memory' == memory[..index] + s + memory[index + |s|..]
    ensures |memory'| == |memory| && memory'[|text| + |s|] == '\0'
    ensures memory'[..|text| + |s|] == Spliced(text, index, index, s)
  {
    assert memory[index + |s|..][..|text| - index] == memory[index + |s|..|text| + |s|];
  }

  /** Overwriting, then erasing what is left of the replaced part. */
  lemma SpliceErase(text: string, first: nat, mid: nat, last: nat, s: string)
    requires first <= mid <= last <= |text| && |s| == mid - first
    ensures Spliced(Spliced(text, first, mid, s), mid, last, "") == Spliced(text, first, last, s)
  {
  }

  /** Overwriting, then inserting what is left of the replacement. */
  lemma SpliceInsert(text: string, first: nat, last: nat, s: string, s': string)
    requires first <= last <= |text| && |s| == last - first
    ensures Spliced(Spliced(text, first, last, s), last, last, s') == Spliced(text, first, last, s + s')
  {
  }

  /** The end of the replaced part as the source computes it, in 64 bits. */
  function ReplaceEnd(size: nat, pos: nat, count: nat): nat {
    var end := (pos + count) % SIZE_WORD;
    if size > end then end else size
  }

  /** It is the smaller of the size and the sum exactly if the sum does not overflow. */
  lemma ReplaceEndIff(size: nat, pos: nat, count: nat)
    requires pos <= size < SIZE_WORD && count < SIZE_WORD
    ensures ReplaceEnd(size, pos, count) == Min(size, pos + count) <==> pos + count < SIZE_WORD
  {
  }

  method PartEnd(size: nat, pos: nat, count: nat) returns (end: nat)
    requires pos <= size < SIZE_WORD && pos + count < SIZE_WORD
    ensures end == Min(size, pos + count)
  {
    end := ReplaceEnd(size, pos, count);
  }

  /** A count of `npos` from inside the text does overflow: the end lies before the start. */
  lemma ReplaceToNposOverflows(size: nat, pos: nat)
    requires 0 < pos <= size < SIZE_WORD
    ensures ReplaceEnd(size, pos, NPOS) == pos - 1
  {
  }

  /** The size after an insertion as the source computes it, in 64 bits. */
  function InsertedSize(size: nat, count: nat): nat { (size + count) % SIZE_WORD }

  predicate InBuffer(k: int, capacity: nat) { 0 <= k <= capacity }

  /** Where the character at k goes: the loop counts down from the computed size and from the old size. */
  function MovedTo(k: int, size: nat, count: nat): int { InsertedSize(size, count) - (size - k) }

  /** The writes of an insertion: the terminator, the tail moved behind the gap, and the gap. */
  ghost predicate WritesInside(size: nat, index: nat, count: nat, capacity: nat) {
    && InBuffer(InsertedSize(size, count), capacity)
    && (forall k :: index <= k < size ==> InBuffer(MovedTo(k, size, count), capacity))
    && (forall k :: index <= k < index + count ==> InBuffer(k, capacity))
  }

  /** With room for the computed size, all writes stay in the buffer exactly if the sum does not overflow. */
  lemma InsertInsideIff(size: nat, index: nat, count: nat, capacity: nat)
    requires index <= size <= capacity < NPOS && count < SIZE_WORD && InsertedSize(size, count) <= capacity
    ensures WritesInside(size, index, count, capacity) <==> size + count < SIZE_WORD
  {
    if size + count >= SIZE_WORD {
      assert InsertedSize(size, count) == size + count - SIZE_WORD;
      if index + count >= SIZE_WORD {
        var k := index + count - 1;
        assert !InBuffer(k, capacity);
      } else {
        assert !InBuffer(MovedTo(index, size, count), capacity);
      }
    }
  }

  /** `insert(0, npos, ch)` on one character: the computed size is 0, so there is room, and the writes leave the buffer. */
  lemma InsertNposOverflows(capacity: nat)
    requires 1 <= capacity < NPOS
    ensures InsertedSize(1, NPOS) == 0 && !WritesInside(1, 0, NPOS, capacity)
  {
    InsertInsideIff(1, 0, NPOS, capacity);
  }

  class String {
    const maxSize: nat
    var tag: nat
    var heapSize: nat
    var heapCapacity: nat
    var mem: array<char>
    ghost var copied: nat       // characters copied by reallocations

    function Size(): nat
      reads this
    {
      if tag != NULLCHAR then tag else heapSize
    }

    function Capacity(): nat
      reads this
    {
      if tag != NULLCHAR then MAX_IN_BUFFER else heapCapacity
    }

    /** The form and the sizes fit together. */
    ghost predicate Layout()
      reads this
    {
      && (tag == NULLCHAR || tag <= MAX_IN_BUFFER)
      && (tag == NULLCHAR ==> heapCapacity > MAX_IN_BUFFER)
      && mem.Length == Capacity() + 1
      && Size() <= Capacity() <= Max(MAX_IN_BUFFER, maxSize) && 2 * maxSize < SIZE_WORD
    }

    ghost predicate Valid()
      reads this, mem
    {
      Layout() && mem[Size()] == '\0'
    }

    ghost function Text(): string
      reads this, mem
      requires Valid()
    {
      mem[..Size()]
    }

    method SetSize(n: nat)
      modifies this`tag, this`heapSize
      requires tag == NULLCHAR || n != NULLCHAR
      ensures Size() == n && (tag == NULLCHAR <==> old(tag) == NULLCHAR)
    {
      if tag != NULLCHAR {
        tag := n;
      } else {
        heapSize := n;
      }
    }

    constructor (maxSize: nat)
      requires 2 * maxSize < SIZE_WORD
      ensures Valid() && fresh(mem) && Text() == "" && this.maxSize == maxSize && copied == 0 && Capacity() == MAX_IN_BUFFER
    {
      this.maxSize, tag, heapSize, heapCapacity, copied := maxSize, 0, 0, 0, 0;
      mem := new char[MAX_IN_BUFFER + 1](_ => '\0');
    }

    /** `reserve`: a larger capacity is at least the double of the old one. */
    method Reserve(request: nat) returns (r: Outcome)
      requires Valid()
      modifies this
      ensures Valid() && Text() == old(Text())
      ensures r == Growth(old(Capacity()), request, maxSize) && Capacity() == Grown(old(Capacity()), request, maxSize)
      ensures r == Ok && request > old(Capacity()) ==>
                && Capacity() >= 2 * old(Capacity()) && Capacity() >= request
                && (Capacity() == 2 * old(Capacity()) || Capacity() == request)
                && fresh(mem) && copied == old(copied) + Size() + 1
      ensures r != Ok || request <= old(Capacity()) ==> mem == old(mem) && copied == old(copied)
    {
      if request <= Capacity() {
        return Ok;
      }
      if request > maxSize {
        return LengthError;
      }
      var n, capacity := Size(), Max(2 * Capacity(), request);
      if capacity > maxSize {
        return BadAlloc;
      }
      var block := Copy(mem, n + 1, capacity + 1);
      copied := copied + n + 1;
      tag, heapSize, heapCapacity, mem := NULLCHAR, n, capacity, block;
      return Ok;
    }

    /** `shrink_to_fit`: back into the object, or into a block that fits. */
    method ShrinkToFit()
      requires Valid()
      modifies this
      ensures Valid() && Text() == old(Text()) && (mem == old(mem) || fresh(mem))
      ensures Capacity() == Max(MAX_IN_BUFFER, Size())
    {
      var n, c := Size(), Capacity();
      if n == c || c <= MAX_IN_BUFFER {
        return;
      }
      var length := if n <= MAX_IN_BUFFER then MAX_IN_BUFFER else n;
      var block := Copy(mem, n, length + 1);
      block[n] := '\0';
      if n <= MAX_IN_BUFFER {
        tag := n;
      } else {
        heapCapacity := n;
      }
      mem := block;
    }

    /** The common part of the insertions: room for `count` characters, the tail moved behind it. */
    method OpenGap(index: nat, count: nat) returns (r: Outcome)
      requires Valid() && index <= Size() && Size() + count < SIZE_WORD
      modifies this, mem
      ensures Layout() && Size() == old(Size()) && (mem == old(mem) || (fresh(mem) && Capacity() > old(Capacity())))
      ensures r == Growth(old(Capacity()), old(Size()) + count, maxSize)
      ensures Capacity() == Grown(old(Capacity()), old(Size()) + count, maxSize)
      ensures r != Ok ==> Valid() && Text() == old(Text())
      ensures r == Ok ==> GapOpen(mem[..], old(Text()), index, count) && Size() + count <= Capacity()
    {
      var n := Size();
      var total := InsertedSize(n, count);
      assert total == n + count;
      r := Reserve(total);
      if r != Ok {
        return;
      }
      assert mem[..n] == old(Text());
      assert mem[..index] == old(Text())[..index] && mem[index..n] == old(Text())[index..];
      ghost var front, tail := mem[..index], mem[index..n];
      mem[total] := '\0';
      assert mem[..index] == front;
      assert mem[index..n] == tail;
      ShiftUp(mem, index, n, total);
    }

    /** Ends an insertion: the gap is filled with `s`, and the size is set. */
    method CloseGap(ghost memory: string, ghost text: string, index: nat, s: string)
      requires Layout() && Size() == |text| && index <= |text| && |text| + |s| <= Capacity()
      requires GapOpen(memory, text, index, |s|) && mem[..] == memory[..index] + s + memory[index + |s|..]
      modifies this`tag, this`heapSize
      ensures Valid() && Text() == Spliced(text, index, index, s)
    {
      GapFilled(memory, mem[..], text, index, s);
      SetSize(Size() + |s|);
    }

    /** `insert(index, s, count)`. */
    method Insert(index: nat, s: string) returns (r: Outcome)
      requires Valid() && (index <= Size() ==> Size() + |s| < SIZE_WORD)
      modifies this, mem
      ensures Valid() && (mem == old(mem) || (fresh(mem) && Capacity() > old(Capacity())))
      ensures r == if index > old(Size()) then OutOfRange else Growth(old(Capacity()), old(Size()) + |s|, maxSize)
      ensures Capacity() == if index > old(Size()) then old(Capacity()) else Grown(old(Capacity()), old(Size()) + |s|, maxSize)
      ensures Text() == if r == Ok then Spliced(old(Text()), index, index, s) else old(Text())
    {
      var n := Size();
      if index > n {
        return OutOfRange;
      }
      r := OpenGap(index, |s|);
      if r == Ok {
        ghost var memory := mem[..];
        Write(mem, index, s);
        CloseGap(memory, old(Text()), index, s);
      }
    }

    /** `insert(index, count, ch)`. */
    method InsertFill(index: nat, count: nat, c: char) returns (r: Outcome)
      requires Valid() && (index <= Size() ==> Size() + count < SIZE_WORD)
      modifies this, mem
      ensures Valid() && (mem == old(mem) || (fresh(mem) && Capacity() > old(Capacity())))
      ensures r == if index > old(Size()) then OutOfRange else Growth(old(Capacity()), old(Size()) + count, maxSize)
      ensures Capacity() == if index > old(Size()) then old(Capacity()) else Grown(old(Capacity()), old(Size()) + count, maxSize)
      ensures Text() == if r == Ok then Spliced(old(Text()), index, index, Fill(count, c)) else old(Text())
    {
      var n := Size();
      if index > n {
        return OutOfRange;
      }
      r := OpenGap(index, count);
      if r == Ok {
        ghost var memory := mem[..];
        WriteFill(mem, index, count, c);
        CloseGap(memory, old(Text()), index, Fill(count, c));
      }
    }

    /** `erase(first, last)` on iterators of this string. */
    method EraseRange(first: nat, last: nat)
      requires Valid() && first <= last <= Size()
      modifies this`tag, this`heapSize, mem
      ensures Valid() && Text() == Spliced(old(Text()), first, last, "")
      ensures Capacity() == old(Capacity())
    {
      var n := Size();
      ShiftDown(mem, first, last, n);
      var total := n - (last - first);
      SetSize(total);
      ghost var text := mem[..total];
      mem[total] := '\0';
      assert mem[..total] == text;
    }

    /** `erase(index, count)`; the 64-bit sum of the two does not overflow where it is looked at. */
    method Erase(index: nat, count: nat) returns (r: Outcome)
      requires Valid()
      modifies this`tag, this`heapSize, mem
      ensures Valid() && Capacity() == old(Capacity())
      ensures r == if index > old(Size()) then OutOfRange else Ok
      ensures r == Ok ==> Text() == Spliced(old(Text()), index, Min(index + count, |old(Text())|), "")
      ensures r != Ok ==> Text() == old(Text())
    {
      if index > Size() {
        return OutOfRange;
      }
      var last := if count == NPOS || count >= Size() || (index + count) % SIZE_WORD > Size() then Size() else index + count;
      EraseRange(index, last);
      return Ok;
    }

    /** `push_back`. */
    method PushBack(c: char) returns (r: Outcome)
      requires Valid()
      modifies this, mem
      ensures Valid() && (mem == old(mem) || (fresh(mem) && Capacity() > old(Capacity())))
      ensures r == Growth(old(Capacity()), old(Size()) + 1, maxSize)
      ensures Text() == if r == Ok then old(Text()) + [c] else old(Text())
      ensures Capacity() == Grown(old(Capacity()), old(Size()) + 1, maxSize)
      ensures copied == old(copied) + if r == Ok && old(Size()) == old(Capacity()) then old(Size()) + 1 else 0
    {
      r := Ok;
      if Size() == Capacity() {
        r := Reserve(Size() + 1);
        if r != Ok {
          return;
        }
      }
      ghost var text := mem[..Size()];
      mem[Size()] := c;
      assert mem[..Size()] == text;
      var n := Size() + 1;
      SetSize(n);
      mem[n] := '\0';
      assert mem[..n] == text + [c];
    }

    /** `resize(count, ch)`. */
    method Resize(count: nat, c: char) returns (r: Outcome)
      requires Valid()
      modifies this, mem
      ensures Valid() && (mem == old(mem) || (fresh(mem) && Capacity() > old(Capacity())))
      ensures r == Growth(old(Capacity()), count, maxSize) && Capacity() == Grown(old(Capacity()), count, maxSize)
      ensures r != Ok ==> Text() == old(Text())
      ensures r == Ok && count <= old(Size()) ==> Text() == old(Text())[..count]
      ensures r == Ok && count >= old(Size()) ==> Text() == old(Text()) + Fill(count - old(Size()), c)
    {
      var n := Size();
      r := Reserve(count);
      if r != Ok {
        return;
      }
      assert mem[..n] == old(Text());
      mem[count] := '\0';
      SetSize(count);
      if n >= count {
        assert mem[..count] == old(Text())[..count];
        return;
      }
      WriteFill(mem, n, count - n, c);
      assert mem[..count] == mem[..n] + mem[n..count];
    }

    /** The loop that overwrites a part of the text in place. */
    method Overwrite(first: nat, s: string)
      requires Valid() && first + |s| <= Size()
      modifies mem
      ensures Valid() && Text() == Spliced(old(Text()), first, first + |s|, s)
    {
      ghost var memory := mem[..];
      Write(mem, first, s);
      assert mem[Size()] == mem[..][Size()] == memory[Size()];
      assert mem[..Size()] == mem[..][..Size()];
    }

    /** A replacement that is not longer than the replaced part. */
    method OverwriteAndErase(first: nat, last: nat, s: string)
      requires Valid() && first + |s| <= last <= Size()
      modifies this`tag, this`heapSize, mem
      ensures Valid() && Text() == Spliced(old(Text()), first, last, s)
      ensures Capacity() == old(Capacity())
    {
      Overwrite(first, s);
      EraseRange(first + |s|, last);
      SpliceErase(old(Text()), first, first + |s|, last, s);
    }

    /**
     `replace(first, last, first2, last2)` on iterators of this string. If the text cannot grow, the
     part has been overwritten all the same.
     */
    method ReplaceRange(first: nat, last: nat, s: string) returns (r: Outcome)
      requires Valid() && first <= last <= Size() && Size() + |s| - (last - first) < SIZE_WORD
      modifies this, mem
      ensures Valid() && (mem == old(mem) || (fresh(mem) && Capacity() > old(Capacity())))
      ensures r == Growth(old(Capacity()), old(Size()) + |s| - (last - first), maxSize)
      ensures Capacity() == Grown(old(Capacity()), old(Size()) + |s| - (last - first), maxSize)
      ensures Text() == Spliced(old(Text()), first, last, if r == Ok then s else s[..last - first])
    {
      r := Ok;
      if first + |s| <= last {
        OverwriteAndErase(first, last, s);
      } else {
        var m := last - first;
        assert s[..m] + s[m..] == s;
        r := OverwriteAndInsert(first, last, s[..m], s[m..]);
      }
    }

    /** A replacement that is longer than the replaced part. */
    method OverwriteAndInsert(first: nat, last: nat, s: string, s': string) returns (r: Outcome)
      requires Valid() && first + |s| == last <= Size() && Size() + |s'| < SIZE_WORD
      modifies this, mem
      ensures Valid() && (mem == old(mem) || (fresh(mem) && Capacity() > old(Capacity())))
      ensures r == Growth(old(Capacity()), old(Size()) + |s'|, maxSize)
      ensures Capacity() == Grown(old(Capacity()), old(Size()) + |s'|, maxSize)
      ensures Text() == Spliced(old(Text()), first, last, if r == Ok then s + s' else s)
    {
      ghost var text := Text();
      Overwrite(first, s);
      SpliceInsert(text, first, last, s, s');
      r := Insert(last, s');
    }

    /** `replace(pos, count, str)`. */
    method Replace(pos: nat, count: nat, s: string) returns (r: Outcome)
      requires Valid() && (pos <= Size() ==> pos + count < SIZE_WORD && ReplacedSize(Size(), pos, count, |s|) < SIZE_WORD)
      modifies this, mem
      ensures Valid() && (mem == old(mem) || (fresh(mem) && Capacity() > old(Capacity())))
      ensures pos > old(Size()) ==> r == OutOfRange && Capacity() == old(Capacity())
      ensures pos <= old(Size()) ==>
                && r == Growth(old(Capacity()), ReplacedSize(old(Size()), pos, count, |s|), maxSize)
                && Capacity() == Grown(old(Capacity()), ReplacedSize(old(Size()), pos, count, |s|), maxSize)
      ensures Text() == Replaced(old(Text()), pos, count, s, r)
    {
      if pos > Size() {
        return OutOfRange;
      }
      var last := PartEnd(Size(), pos, count);
      r := ReplaceRange(pos, last, s);
      ReplacedPart(old(Text()), pos, count, last, s, r);
    }

    /** `replace(pos, count, count2, ch)`. */
    method ReplaceFill(pos: nat, count: nat, n: nat, c: char) returns (r: Outcome)
      requires Valid() && (pos <= Size() ==> pos + count < SIZE_WORD && ReplacedSize(Size(), pos, count, n) < SIZE_WORD)
      modifies this, mem
      ensures Valid() && (mem == old(mem) || (fresh(mem) && Capacity() > old(Capacity())))
      ensures pos > old(Size()) ==> r == OutOfRange && Capacity() == old(Capacity())
      ensures pos <= old(Size()) ==>
                && r == Growth(old(Capacity()), ReplacedSize(old(Size()), pos, count, n), maxSize)
                && Capacity() == Grown(old(Capacity()), ReplacedSize(old(Size()), pos, count, n), maxSize)
      ensures Text() == Replaced(old(Text()), pos, count, Fill(n, c), r)
    {
      if pos > Size() {
        return OutOfRange;
      }
      var last := PartEnd(Size(), pos, count);
      r := FillRange(pos, last, n, c);
      ReplacedPart(old(Text()), pos, count, last, Fill(n, c), r);
    }

    /** The part of `replace(pos, count, count2, ch)` after the range check. */
    method FillRange(first: nat, last: nat, n: nat, c: char) returns (r: Outcome)
      requires Valid() && first <= last <= Size() && Size() + n - (last - first) < SIZE_WORD
      modifies this, mem
      ensures Valid() && (mem == old(mem) || (fresh(mem) && Capacity() > old(Capacity())))
      ensures r == Growth(old(Capacity()), old(Size()) + n - (last - first), maxSize)
      ensures Capacity() == Grown(old(Capacity()), old(Size()) + n - (last - first), maxSize)
      ensures Text() == Spliced(old(Text()), first, last, if r == Ok then Fill(n, c) else Fill(n, c)[..last - first])
    {
      r := Ok;
      if first + n <= last {
        OverwriteAndErase(first, last, Fill(n, c));
      } else {
        var m := last - first;
        FillSplit(m, n, c);
        r := OverwriteAndFill(first, last, Fill(m, c), n - m, c);
      }
    }

    /** A fill that is longer than the replaced part. */
    method OverwriteAndFill(first: nat, last: nat, s: string, n: nat, c: char) returns (r: Outcome)
      requires Valid() && first + |s| == last <= Size() && Size() + n < SIZE_WORD
      modifies this, mem
      ensures Valid() && (mem == old(mem) || (fresh(mem) && Capacity() > old(Capacity())))
      ensures r == Growth(old(Capacity()), old(Size()) + n, maxSize)
      ensures Capacity() == Grown(old(Capacity()), old(Size()) + n, maxSize)
      ensures Text() == Spliced(old(Text()), first, last, if r == Ok then s + Fill(n, c) else s)
    {
      ghost var text := Text();
      Overwrite(first, s);
      SpliceInsert(text, first, last, s, Fill(n, c));
      r := InsertFill(last, n, c);
    }

    /** The copy constructor; a short text on the heap is copied into the object. */
    constructor CopyOf(other: String)
      requires other.Valid()
      ensures Valid() && fresh(mem) && Text() == other.Text() && maxSize == other.maxSize && Capacity() == Max(MAX_IN_BUFFER, Size())
    {
      var n := other.Size();
      maxSize, heapSize, heapCapacity, copied := other.maxSize, n, n, 0;
      if other.tag != NULLCHAR {
        tag := other.tag;
        var block := Copy(other.mem, MAX_IN_BUFFER + 1, MAX_IN_BUFFER + 1);
        mem := block;
      } else {
        tag := if n <= MAX_IN_BUFFER then n else NULLCHAR;
        var block := Copy(other.mem, n, Max(n, MAX_IN_BUFFER) + 1);
        block[n] := '\0';
        mem := block;
      }
    }

    /** The move constructor: a heap block changes hands, and the other string is left empty. */
    constructor MoveFrom(other: String)
      requires other.Valid()
      modifies other
      ensures Valid() && Text() == old(other.Text()) && maxSize == other.maxSize && Capacity() == old(other.Capacity())
      ensures other.Valid() && other.Text() == "" && fresh(other.mem)
      ensures if old(other.tag) == NULLCHAR then mem == old(other.mem) else fresh(mem)
    {
      maxSize, copied := other.maxSize, 0;
      tag, heapSize, heapCapacity := other.tag, other.heapSize, other.heapCapacity;
      if other.tag != NULLCHAR {
        var block := Copy(other.mem, MAX_IN_BUFFER + 1, MAX_IN_BUFFER + 1);
        mem := block;
      } else {
        mem := other.mem;
      }
      other.tag := 0;
      other.mem := new char[MAX_IN_BUFFER + 1](_ => '\0');
    }

    ghost function Abstract(): Model
      reads this, mem
      requires Valid()
    {
      Model(Text(), Capacity())
    }

    method Do(e: Edit) returns (r: Outcome)
      requires Valid() && NoOverflow(Text(), e)
      modifies this, mem
      ensures Valid() && (mem == old(mem) || fresh(mem))
      ensures r == Result(old(Abstract()), e, maxSize) && Abstract() == After(old(Abstract()), e, maxSize)
    {
      match e
      case Insert(index, s) => r := Insert(index, s);
      case InsertFill(index, n, c) => r := InsertFill(index, n, c);
      case Erase(index, n) => r := Erase(index, n);
      case Replace(_, _, _) => r := DoReplace(e);
      case ReplaceFill(_, _, _, _) => r := DoReplace(e);
      case _ => r := DoAnywhere(e);
    }

    method DoReplace(e: Edit) returns (r: Outcome)
      requires Valid() && NoOverflow(Text(), e) && (e.Replace? || e.ReplaceFill?)
      modifies this, mem
      ensures Valid() && (mem == old(mem) || fresh(mem))
      ensures r == Result(old(Abstract()), e, maxSize) && Abstract() == After(old(Abstract()), e, maxSize)
    {
      match e
      case Replace(pos, n, s) => r := Replace(pos, n, s);
      case ReplaceFill(pos, n, m, c) => r := ReplaceFill(pos, n, m, c);
    }

    /** The edits without a position. */
    method DoAnywhere(e: Edit) returns (r: Outcome)
      requires Valid() && (e.Resize? || e.PushBack? || e.Reserve? || e.ShrinkToFit?)
      modifies this, mem
      ensures Valid() && (mem == old(mem) || fresh(mem))
      ensures r == Result(old(Abstract()), e, maxSize) && Abstract() == After(old(Abstract()), e, maxSize)
    {
      match e
      case Resize(n, c) => r := Resize(n, c);
      case PushBack(c) => r := PushBack(c);
      case Reserve(n) => r := Reserve(n);
      case ShrinkToFit =>
        ShrinkToFit();
        r := Ok;
    }

    /** Any run of edits does what it does to a text with a capacity, with the same outcomes. */
    method Run(edits: seq<Edit>) returns (results: seq<Outcome>)
      requires Valid() && NoOverflows(Abstract(), edits, maxSize)
      modifies this, mem
      ensures Valid() && (mem == old(mem) || fresh(mem))
      ensures results == Results(old(Abstract()), edits, maxSize) && Abstract() == AfterAll(old(Abstract()), edits, maxSize)
      decreases |edits|
    {
      if edits == [] {
        return [];
      }
      var r := Do(edits[0]);
      var rest := Run(edits[1..]);
      results := [r] + rest;
    }

    /** n calls of `push_back` on an empty text copy at most 3n characters, also if some of them fail. */
    method PushBackAll(s: string)
      requires Valid() && Text() == "" && Capacity() == MAX_IN_BUFFER && copied == 0
      modifies this, mem
      ensures Valid() && copied <= 3 * |s|
      ensures 2 * |s| <= maxSize ==> Text() == s
    {
      for i := 0 to |s|
        invariant Valid() && (mem == old(mem) || fresh(mem)) && Size() <= i
        invariant 2 * |s| <= maxSize ==> Text() == s[..i]
        invariant if Capacity() == MAX_IN_BUFFER then copied == 0
                  else 30 * copied <= 31 * (Capacity() - 30) && MAX_IN_BUFFER < Capacity() <= 2 * (Size() - 1)
      {
        var _ := PushBack(s[i]);
      }
    }
  }

  // Edits on a character sequence

  datatype Edit =
    | Insert(index: nat, s: string)
    | InsertFill(index: nat, n: nat, c: char)
    | Erase(index: nat, n: nat)
    | Replace(pos: nat, n: nat, s: string)
    | ReplaceFill(pos: nat, n: nat, m: nat, c: char)
    | Resize(n: nat, c: char)
    | PushBack(c: char)
    | Reserve(n: nat)
    | ShrinkToFit

  predicate OutsideText(text: string, e: Edit) {
    match e
    case Insert(index, _) => index > |text|
    case InsertFill(index, _, _) => index > |text|
    case Erase(index, _) => index > |text|
    case Replace(pos, _, _) => pos > |text|
    case ReplaceFill(pos, _, _, _) => pos > |text|
    case _ => false
  }

  /** The size of a text after `count` of its characters are replaced by n. */
  function ReplacedSize(size: nat, pos: nat, count: nat, n: nat): nat
    requires pos <= size
  {
    size + n - (Min(size, pos + count) - pos)
  }

  /** The room that an edit at a position in the text asks for. */
  function Need(text: string, e: Edit): nat
    requires !OutsideText(text, e)
  {
    match e
    case Insert(_, s) => |text| + |s|
    case InsertFill(_, n, _) => |text| + n
    case Replace(pos, n, s) => ReplacedSize(|text|, pos, n, |s|)
    case ReplaceFill(pos, n, m, _) => ReplacedSize(|text|, pos, n, m)
    case Resize(n, _) => n
    case PushBack(_) => |text| + 1
    case Reserve(n) => n
    case _ => 0
  }

  /** The 64-bit sums that the source computes for an edit do not overflow. */
  predicate NoOverflow(text: string, e: Edit) {
    || OutsideText(text, e)
    || (&& Need(text, e) < SIZE_WORD
        && (e.Replace? ==> e.pos + e.n < SIZE_WORD)
        && (e.ReplaceFill? ==> e.pos + e.n < SIZE_WORD))
  }

  /** What an edit does to a text, if there is room. */
  function Edited(text: string, e: Edit): string {
    if OutsideText(text, e) then text
    else match e
      case Insert(index, s) => Spliced(text, index, index, s)
      case InsertFill(index, n, c) => Spliced(text, index, index, Fill(n, c))
      case Erase(index, n) => Spliced(text, index, Min(index + n, |text|), "")
      case Replace(pos, n, s) => Replaced(text, pos, n, s, Ok)
      case ReplaceFill(pos, n, m, c) => Replaced(text, pos, n, Fill(m, c), Ok)
      case Resize(n, c) => if n <= |text| then text[..n] else text + Fill(n - |text|, c)
      case PushBack(c) => text + [c]
      case Reserve(_) => text
      case ShrinkToFit => text
  }

  /** Without room the text stays as it is, but a replacement has overwritten the part. */
  function Failed(text: string, e: Edit, r: Outcome): string {
    match e
    case Replace(pos, n, s) => Replaced(text, pos, n, s, r)
    case ReplaceFill(pos, n, m, c) => Replaced(text, pos, n, Fill(m, c), r)
    case _ => text
  }

  /** A string as its user sees it. */
  datatype Model = Model(text: string, capacity: nat)

  function Result(m: Model, e: Edit, maxSize: nat): Outcome {
    if OutsideText(m.text, e) then OutOfRange else Growth(m.capacity, Need(m.text, e), maxSize)
  }

  function After(m: Model, e: Edit, maxSize: nat): Model {
    var r := Result(m, e, maxSize);
    if r == OutOfRange then m
    else if r != Ok then Model(Failed(m.text, e, r), m.capacity)
    else Model(Edited(m.text, e), if e.ShrinkToFit? then Max(MAX_IN_BUFFER, |m.text|) else Grown(m.capacity, Need(m.text, e), maxSize))
  }

  function AfterAll(m: Model, edits: seq<Edit>, maxSize: nat): Model
    decreases |edits|
  {
    if edits == [] then m else AfterAll(After(m, edits[0], maxSize), edits[1..], maxSize)
  }

  function Results(m: Model, edits: seq<Edit>, maxSize: nat): seq<Outcome>
    decreases |edits|
  {
    if edits == [] then [] else [Result(m, edits[0], maxSize)] + Results(After(m, edits[0], maxSize), edits[1..], maxSize)
  }

  predicate NoOverflows(m: Model, edits: seq<Edit>, maxSize: nat)
    decreases |edits|
  {
    edits == [] || (NoOverflow(m.text, edits[0]) && NoOverflows(After(m, edits[0], maxSize), edits[1..], maxSize))
  }

  // Edits with enough room

  /** What a run of edits does to a character sequence. */
  function EditedAll(text: string, edits: seq<Edit>): string
    decreases |edits|
  {
    if edits == [] then text else EditedAll(Edited(text, edits[0]), edits[1..])
  }

  function Refused(text: string, e: Edit): Outcome { if OutsideText(text, e) then OutOfRange else Ok }

  function RefusedAll(text: string, edits: seq<Edit>): seq<Outcome>
    decreases |edits|
  {
    if edits == [] then [] else [Refused(text, edits[0])] + RefusedAll(Edited(text, edits[0]), edits[1..])
  }

  /** Twice the room that any of the edits needs is within the maximum. */
  predicate RoomFor(text: string, edits: seq<Edit>, maxSize: nat)
    decreases |edits|
  {
    || edits == []
    || (&& (OutsideText(text, edits[0]) || 2 * Need(text, edits[0]) <= maxSize)
        && RoomFor(Edited(text, edits[0]), edits[1..], maxSize))
  }

  /** An edit inside the text fails exactly if it needs more than the capacity, and the need or the doubled capacity is too much. */
  lemma FailsIff(m: Model, e: Edit, maxSize: nat)
    requires !OutsideText(m.text, e)
    ensures var need := Need(m.text, e); var r := Result(m, e, maxSize);
            && (r == LengthError <==> need > m.capacity && need > maxSize)
            && (r == BadAlloc <==> need > m.capacity && need <= maxSize < 2 * m.capacity)
            && (r == Ok <==> r != LengthError && r != BadAlloc)
  {
  }

  /** How many of the edits get a larger block. */
  function Reallocations(m: Model, edits: seq<Edit>, maxSize: nat): nat
    decreases |edits|
  {
    if edits == [] then 0
    else
      var m' := After(m, edits[0], maxSize);
      (if m'.capacity != m.capacity then 1 else 0) + Reallocations(m', edits[1..], maxSize)
  }

  lemma ReallocationDoubles(m: Model, e: Edit, maxSize: nat)
    requires !e.ShrinkToFit?
    ensures var m' := After(m, e, maxSize); m'.capacity == m.capacity || m'.capacity >= 2 * m.capacity
  {
  }

  lemma TimesPower(a: nat, b: nat, k: nat)
    requires 2 * a <= b
    ensures a * Bits.Pow2(k + 1) <= b * Bits.Pow2(k)
  {
    var p := Bits.Pow2(k);
    assert Bits.Pow2(k + 1) == 2 * p;
    assert a * (2 * p) == (2 * a) * p;
    assert (b - 2 * a) * p >= 0;
  }

  /** Without shrinking, each reallocation at least doubles the capacity, so their number is logarithmic in the last one. */
  lemma {:induction false} ReallocationsAreFew(m: Model, edits: seq<Edit>, maxSize: nat)
    requires forall e :: e in edits ==> !e.ShrinkToFit?
    ensures m.capacity * Bits.Pow2(Reallocations(m, edits, maxSize)) <= AfterAll(m, edits, maxSize).capacity
    decreases |edits|
  {
    if edits == [] {
      assert Bits.Pow2(0) == 1;
    } else {
      assert edits[0] in edits;
      var m' := After(m, edits[0], maxSize);
      ReallocationDoubles(m, edits[0], maxSize);
      ReallocationsAreFew(m', edits[1..], maxSize);
      if m'.capacity != m.capacity {
        TimesPower(m.capacity, m'.capacity, Reallocations(m', edits[1..], maxSize));
      }
    }
  }

  /** With enough room, a run is the run on a character sequence; only positions outside the text are refused. */
  lemma {:induction false} RefinesCharacterSequence(m: Model, edits: seq<Edit>, maxSize: nat)
    requires RoomFor(m.text, edits, maxSize)
    ensures AfterAll(m, edits, maxSize).text == EditedAll(m.text, edits)
    ensures Results(m, edits, maxSize) == RefusedAll(m.text, edits)
    decreases |edits|
  {
    if edits != [] {
      var e := edits[0];
      assert Result(m, e, maxSize) == Refused(m.text, e);
      assert After(m, e, maxSize).text == Edited(m.text, e);
      RefinesCharacterSequence(After(m, e, maxSize), edits[1..], maxSize);
    }
  }

  /** With enough room no sum overflows, as long as the replaced parts are given by counts that do not. */
  lemma {:induction false} RoomMeansNoOverflow(m: Model, edits: seq<Edit>, maxSize: nat)
    requires RoomFor(m.text, edits, maxSize) && maxSize < SIZE_WORD
    requires forall e :: e in edits ==> (e.Replace? ==> e.pos + e.n < SIZE_WORD) && (e.ReplaceFill? ==> e.pos + e.n < SIZE_WORD)
    ensures NoOverflows(m, edits, maxSize)
    decreases |edits|
  {
    if edits != [] {
      assert edits[0] in edits;
      assert After(m, edits[0], maxSize).text == Edited(m.text, edits[0]);
      RoomMeansNoOverflow(After(m, edits[0], maxSize), edits[1..], maxSize);
    }
  }

  /** The text after a replacement; one that cannot grow the text has overwritten the part. */
  function Replaced(text: string, pos: nat, count: nat, s: string, r: Outcome): string {
    if pos > |text| then text
    else
      var last := Min(|text|, pos + count);
      Spliced(text, pos, last, if r == Ok || |s| < last - pos then s else s[..last - pos])
  }

  lemma ReplacedPart(text: string, pos: nat, count: nat, last: nat, s: string, r: Outcome)
    requires pos <= |text| && last == Min(|text|, pos + count) && (r != Ok ==> |s| >= last - pos)
    ensures Replaced(text, pos, count, s, r) == Spliced(text, pos, last, if r == Ok then s else s[..last - pos])
  {
  }
}
