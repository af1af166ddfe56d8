/**
 The batching message socket: messages are framed into a pooled send buffer, which is sent when it
 is full, when the batch is full, or by a flush task; the receiver walks over the frames.

 Sending is "posted, later completed": a send hands the bytes over or fails. The pool offers a
 buffer or none. Fiber switching and the connection states are not part of this model.
 */
module Batching {
  import opened Bytes
  import opened Bits

  datatype Message = Message(id: nat, kind: nat, payload: seq<Byte>)

  const HEADER_SIZE: nat := 16

  /** What the header fields can carry: 64 bits, 32 bits, and a frame length of 32 bits. */
  ghost predicate Fits(m: Message) {
    m.id < U64 && m.kind < U32 && HEADER_SIZE + |m.payload| < U32
  }

  // Alignment

  /** The number of eight-byte blocks that cover n bytes. */
  function Blocks(n: nat): (k: nat)
    ensures n <= 8 * k < n + 8
  {
    (n + 7) / 8
  }

  function Align8(n: nat): nat { 8 * Blocks(n) }

  const WORD_BITS: nat := 64

  /** The source aligns addresses; on an aligned buffer that is the same as aligning offsets. */
  method AlignedOffset(base: nat, offset: nat) returns (r: nat)
    requires base % 8 == 0 && base + offset + 8 <= U64
    ensures r == Align8(offset)
  {
    WordSize();
    assert Pow2(3) == 8;
    var address := Align(base + offset, 3, WORD_BITS);
    ghost var q := AlignRoundsUp(base + offset, 3, WORD_BITS);
    OneMultipleOf8(base + offset, q, base / 8 + Blocks(offset));
    r := address - base;
  }

  lemma OneMultipleOf8(n: nat, q: nat, r: nat)
    requires n <= 8 * q < n + 8 && n <= 8 * r < n + 8
    ensures q == r
  {
  }

  lemma BlocksShift(k: nat, n: nat)
    ensures Blocks(8 * k + n) == k + Blocks(n)
  {
    OneMultipleOf8(8 * k + n, Blocks(8 * k + n), k + Blocks(n));
  }

  /** Aligning at the end of something that starts on a multiple of eight. */
  method AlignedEnd(base: nat, pos: nat, ghost k: nat, size: nat) returns (r: nat, ghost k': nat)
    requires base % 8 == 0 && base + pos + size + 8 <= U64 && pos == 8 * k
    ensures r == pos + Align8(size) && r == 8 * k'
  {
    r := AlignedOffset(base, pos + size);
    BlocksShift(k, size);
    k' := k + Blocks(size);
  }

  // Frames

  function Header(id: nat, kind: nat, length: nat): (h: seq<Byte>)
    ensures |h| == HEADER_SIZE
  {
    ToBytes(id, 8) + ToBytes(kind, 4) + ToBytes(length, 4)
  }

  function Frame(m: Message): (f: seq<Byte>)
    ensures |f| == HEADER_SIZE + |m.payload|
  {
    Header(m.id, m.kind, |m.payload|) + m.payload
  }

  function FrameSize(m: Message): nat { Align8(HEADER_SIZE + |m.payload|) }

  /** `s` is the frames of `ms`, each padded with arbitrary bytes to a multiple of eight. */
  ghost predicate Frames(s: seq<Byte>, ms: seq<Message>)
    decreases |ms|
  {
    if ms == [] then s == []
    else
      && Fits(ms[0])
      && |s| >= FrameSize(ms[0])
      && s[..|Frame(ms[0])|] == Frame(ms[0])
      && Frames(s[FrameSize(ms[0])..], ms[1..])
  }

  lemma {:induction false} FramesAppend(s: seq<Byte>, ms: seq<Message>, f: seq<Byte>, m: Message)
    requires Frames(s, ms) && Fits(m) && |f| == FrameSize(m) && f[..|Frame(m)|] == Frame(m)
    ensures Frames(s + f, ms + [m])
    decreases |ms|
  {
    if ms == [] {
      assert s + f == f && ms + [m] == [m];
      assert f[FrameSize(m)..] == [] && [m][1..] == [];
    } else {
      var n := FrameSize(ms[0]);
      FramesAppend(s[n..], ms[1..], f, m);
      assert (s + f)[n..] == s[n..] + f;
      assert (s + f)[..|Frame(ms[0])|] == s[..|Frame(ms[0])|];
      assert (ms + [m])[1..] == ms[1..] + [m];
    }
  }

  /** The memory `d` with `bytes` written at `at`. */
  function Overwritten(d: seq<Byte>, at: nat, bytes: seq<Byte>): seq<Byte>
    requires at + |bytes| <= |d|
  {
    d[..at] + bytes + d[at + |bytes|..]
  }

  /** Two writes, one behind the other. */
  lemma OverwrittenTwice(d: seq<Byte>, at: nat, a: seq<Byte>, b: seq<Byte>)
    requires at + |a| + |b| <= |d|
    ensures Overwritten(Overwritten(d, at, a), at + |a|, b) == Overwritten(d, at, a + b)
  {
  }

  /** A header written at `p`, then a payload behind it. */
  lemma FrameWritten(d0: seq<Byte>, d1: seq<Byte>, d2: seq<Byte>, p: nat, m: Message)
    requires p + HEADER_SIZE + |m.payload| <= |d0|
    requires d1 == Overwritten(d0, p, Header(m.id, m.kind, |m.payload|))
    requires d2 == Overwritten(d1, p + HEADER_SIZE, m.payload)
    ensures |d2| == |d0| && d2[..p] == d0[..p] && d2[p..p + |Frame(m)|] == Frame(m)
  {
    OverwrittenTwice(d0, p, Header(m.id, m.kind, |m.payload|), m.payload);
  }

  lemma FrameAppended(d: seq<Byte>, p: nat, q: nat, ms: seq<Message>, m: Message)
    requires p <= q <= |d| && q == p + FrameSize(m) && Fits(m)
    requires Frames(d[..p], ms) && d[p..p + |Frame(m)|] == Frame(m)
    ensures Frames(d[..q], ms + [m])
  {
    assert d[..q] == d[..p] + d[p..q];
    assert d[p..q][..|Frame(m)|] == Frame(m);
    FramesAppend(d[..p], ms, d[p..q], m);
  }

  /** An aligned end of something that fits is within a buffer of whole words. */
  lemma AlignedEndFits(k: nat, size: nat, words: nat)
    requires 8 * k + size <= 8 * words
    ensures 8 * k + Align8(size) <= 8 * words
  {
  }

  lemma {:induction false} FramesAreAligned(s: seq<Byte>, ms: seq<Message>) returns (k: nat)
    requires Frames(s, ms)
    ensures |s| == 8 * k
    ensures ms == [] <==> s == []
    decreases |ms|
  {
    if ms == [] {
      k := 0;
    } else {
      k := FramesAreAligned(s[FrameSize(ms[0])..], ms[1..]);
      k := Blocks(|Frame(ms[0])|) + k;
    }
  }

  // The receiver

  datatype Parsed = Parsed(messages: seq<Message>, ok: bool)

  function Drop(s: seq<Byte>, n: nat): (r: seq<Byte>)
    ensures |r| <= |s| && (n > 0 && |s| > 0 ==> |r| < |s|)
  {
    if n <= |s| then s[n..] else []
  }

  function LengthField(s: seq<Byte>): nat
    requires |s| >= HEADER_SIZE
  {
    FromBytes(s[12..16])
  }

  function First(s: seq<Byte>): Message
    requires |s| >= HEADER_SIZE && LengthField(s) <= |s| - HEADER_SIZE
  {
    Message(FromBytes(s[..8]), FromBytes(s[8..12]), s[HEADER_SIZE..HEADER_SIZE + LengthField(s)])
  }

  /** The messages found in a received buffer, and whether it was well formed. */
  function Parse(s: seq<Byte>): Parsed
    decreases |s|
  {
    if |s| < HEADER_SIZE then Parsed([], true)
    else if LengthField(s) > |s| - HEADER_SIZE then Parsed([], false)
    else
      var rest := Parse(Drop(s, Align8(HEADER_SIZE + LengthField(s))));
      Parsed([First(s)] + rest.messages, rest.ok)
  }

  lemma HeaderRoundTrip(s: seq<Byte>, m: Message)
    requires Fits(m) && |s| >= |Frame(m)| && s[..|Frame(m)|] == Frame(m)
    ensures LengthField(s) == |m.payload| && First(s) == m
  {
    var f, h := Frame(m), Header(m.id, m.kind, |m.payload|);
    assert s[..16] == f[..16] == h && s[16..|f|] == f[16..] == m.payload;
    assert s[..8] == h[..8] == ToBytes(m.id, 8);
    assert s[8..12] == s[..16][8..12] == h[8..12] == ToBytes(m.kind, 4);
    assert s[12..16] == s[..16][12..16] == h[12..16] == ToBytes(|m.payload|, 4);
    assert Pow256(4) == U32 && Pow256(8) == U64;
    NumberRoundTrip(m.id, 8);
    NumberRoundTrip(m.kind, 4);
    NumberRoundTrip(|m.payload|, 4);
  }

  /** The receiver recovers the framed messages, whatever the padding holds. */
  lemma {:induction false} ParseFrames(s: seq<Byte>, ms: seq<Message>)
    requires Frames(s, ms)
    ensures Parse(s) == Parsed(ms, true)
    decreases |ms|
  {
    if ms != [] {
      HeaderRoundTrip(s, ms[0]);
      ParseFrames(s[FrameSize(ms[0])..], ms[1..]);
      assert [ms[0]] + ms[1..] == ms;
    }
  }

  /** Reading at a position of a buffer is reading at the start of what is left of it. */
  lemma ReadAt(buffer: seq<Byte>, pos: nat)
    requires pos + HEADER_SIZE <= |buffer|
    ensures LengthField(Drop(buffer, pos)) == FromBytes(buffer[pos + 12..pos + 16])
    ensures var n := FromBytes(buffer[pos + 12..pos + 16]);
            pos + HEADER_SIZE + n <= |buffer| ==>
              First(Drop(buffer, pos)) == Message(FromBytes(buffer[pos..pos + 8]), FromBytes(buffer[pos + 8..pos + 12]),
                                                  buffer[pos + HEADER_SIZE..pos + HEADER_SIZE + n])
  {
    var s := buffer[pos..];
    assert s[..8] == buffer[pos..pos + 8] && s[8..12] == buffer[pos + 8..pos + 12] && s[12..16] == buffer[pos + 12..pos + 16];
    var n := FromBytes(buffer[pos + 12..pos + 16]);
    if pos + HEADER_SIZE + n <= |buffer| {
      assert s[16..16 + n] == buffer[pos + 16..pos + 16 + n];
    }
  }

  lemma DropTwice(s: seq<Byte>, a: nat, b: nat, c: nat)
    requires c == a + b
    ensures Drop(Drop(s, a), b) == Drop(s, c)
  {
  }

  lemma ReadFirst(buffer: seq<Byte>, pos: nat, n: nat, next: nat, m: Message)
    requires pos + HEADER_SIZE <= |buffer| && LengthField(Drop(buffer, pos)) <= |Drop(buffer, pos)| - HEADER_SIZE
    requires n == Align8(HEADER_SIZE + LengthField(Drop(buffer, pos))) && m == First(Drop(buffer, pos)) && next == pos + n
    ensures Parse(Drop(buffer, pos)) == Before(m, Parse(Drop(buffer, next)))
  {
    ParseStep(Drop(buffer, pos), n, m);
    DropTwice(buffer, pos, n, next);
  }

  /** One message read at `pos`: `length` is the header's length field, the frame ends at `next`. */
  lemma ReadOne(buffer: seq<Byte>, pos: nat, length: nat, n: nat, next: nat, m: Message)
    requires pos + HEADER_SIZE + length <= |buffer| && length == FromBytes(buffer[pos + 12..pos + 16])
    requires n == Align8(HEADER_SIZE + length) && next == pos + n
    requires m == Message(FromBytes(buffer[pos..pos + 8]), FromBytes(buffer[pos + 8..pos + 12]),
                          buffer[pos + HEADER_SIZE..pos + HEADER_SIZE + length])
    ensures Parse(Drop(buffer, pos)) == Before(m, Parse(Drop(buffer, next)))
  {
    ReadAt(buffer, pos);
    ReadFirst(buffer, pos, n, next, m);
  }

  function Before(m: Message, rest: Parsed): Parsed { Parsed([m] + rest.messages, rest.ok) }

  lemma ParseStep(s: seq<Byte>, n: nat, m: Message)
    requires |s| >= HEADER_SIZE && LengthField(s) <= |s| - HEADER_SIZE
    requires n == Align8(HEADER_SIZE + LengthField(s)) && m == First(s)
    ensures Parse(s) == Before(m, Parse(Drop(s, n)))
  {
  }

  /** A log of messages, then the rest. */
  function After(log: seq<Message>, rest: Parsed): Parsed { Parsed(log + rest.messages, rest.ok) }

  lemma AfterOne(log: seq<Message>, m: Message, rest: Parsed)
    ensures After(log, Before(m, rest)) == After(log + [m], rest)
  {
    Associative(log, [m], rest.messages);
  }

  /** The loop body of `onReceive`: a message and where the next header starts, or the end at a bad length. */
  method ReadMessage(base: nat, buffer: seq<Byte>, pos: nat, ghost k: nat)
    returns (m: Message, ok: bool, next: nat, ghost k': nat)
    requires base % 8 == 0 && base + |buffer| + 8 <= U64
    requires pos == 8 * k && pos + HEADER_SIZE <= |buffer|
    ensures next == 8 * k' && next >= pos
    ensures ok ==> next > pos && Parse(Drop(buffer, pos)) == Before(m, Parse(Drop(buffer, next)))
    ensures !ok ==> Parse(Drop(buffer, pos)) == Parsed([], false)
  {
    var id := FromBytes(buffer[pos..pos + 8]);
    var kind := FromBytes(buffer[pos + 8..pos + 12]);
    var length := FromBytes(buffer[pos + 12..pos + 16]);
    if pos + HEADER_SIZE + length > |buffer| {
      ReadAt(buffer, pos);
      return Message(id, kind, []), false, pos, k;
    }
    m := Message(id, kind, buffer[pos + HEADER_SIZE..pos + HEADER_SIZE + length]);
    next, k' := AlignedEnd(base, pos, k, HEADER_SIZE + length);
    ReadOne(buffer, pos, length, Align8(HEADER_SIZE + length), next, m);
    ok := true;
  }

  /** `onReceive`; the log is what `onMessage` is called with. */
  method OnReceive(base: nat, buffer: seq<Byte>) returns (log: seq<Message>, ok: bool)
    requires base % 8 == 0 && base + |buffer| + 8 <= U64
    ensures Parsed(log, ok) == Parse(buffer)
  {
    var pos: nat := 0;
    ghost var k: nat, rest := 0, Parse(buffer);
    log, ok := [], true;
    assert Drop(buffer, 0) == buffer;
    while ok && pos + HEADER_SIZE <= |buffer|
      invariant pos == 8 * k && rest == if ok then Parse(Drop(buffer, pos)) else Parsed([], false)
      invariant Parse(buffer) == After(log, rest)
      decreases |buffer| + 16 - pos, ok
    {
      var m: Message;
      m, ok, pos, k := ReadMessage(base, buffer, pos, k);
      if ok {
        AfterOne(log, m, Parse(Drop(buffer, pos)));
        log := log + [m];
        rest := Parse(Drop(buffer, pos));
      }
    }
  }

  // The sender

  /** What the receiver gets from a run of sent buffers. */
  function ParseAll(buffers: seq<seq<Byte>>): seq<Message> {
    if buffers == [] then [] else ParseAll(buffers[..|buffers| - 1]) + Parse(buffers[|buffers| - 1]).messages
  }

  /** Every sent buffer is well formed and holds at least one and at most `limit` messages. */
  ghost predicate Batches(buffers: seq<seq<Byte>>, limit: nat) {
    forall b :: b in buffers ==> Parse(b).ok && 1 <= |Parse(b).messages| <= limit
  }

  /** Well formed batches went out, and unless a send failed, they and the current buffer hold what was accepted. */
  ghost predicate Delivery(sent: seq<seq<Byte>>, current: seq<Message>, accepted: seq<Message>, failed: bool, limit: nat) {
    && Batches(sent, limit)
    && (!failed ==> ParseAll(sent) + current == accepted)
  }

  lemma SentOneMore(sent: seq<seq<Byte>>, b: seq<Byte>, current: seq<Message>, accepted: seq<Message>, failed: bool, limit: nat)
    requires Delivery(sent, current, accepted, failed, limit)
    requires Frames(b, current) && b != [] && |current| <= limit
    ensures Delivery(sent + [b], [], accepted, failed, limit)
  {
    ParseFrames(b, current);
    assert (sent + [b])[..|sent|] == sent;
    assert ParseAll(sent + [b]) + [] == ParseAll(sent) + current;
  }

  lemma AcceptedOneMore(sent: seq<seq<Byte>>, current: seq<Message>, accepted: seq<Message>, failed: bool, limit: nat, m: Message)
    requires Delivery(sent, current, accepted, failed, limit)
    ensures Delivery(sent, current + [m], accepted + [m], failed, limit)
  {
    Associative(ParseAll(sent), current, [m]);
  }

  lemma NoFrames(ms: seq<Message>)
    requires Frames([], ms)
    ensures ms == []
  {
  }

  /** `mBuffer`: no buffer, or one at an address. */
  datatype Handle = Invalid | At(base: nat)

  /** `mSendBuffer`, as offsets into the buffer. */
  datatype Writer = Writer(pos: nat, end: nat) {
    predicate CanWrite(length: nat) { pos + length <= end }
  }

  /** The 32-bit test agrees with the frame's real size exactly if that does not overflow, or overflows to no fit. */
  lemma LengthTestIff(w: Writer, n: nat)
    requires w.pos <= w.end < U32 && n < U32
    ensures w.CanWrite((HEADER_SIZE + n) % U32) == w.CanWrite(HEADER_SIZE + n)
            <==> HEADER_SIZE + n < U32 || w.end - w.pos < HEADER_SIZE + n - U32
  {
  }

  datatype Error = None | MessageTooBig | InvalidBuffer | SendFailed | FunError

  /** What was accepted into the current buffer, what was accepted in all, and whether a send has failed. */
  datatype Log = Log(current: seq<Message>, accepted: seq<Message>, failed: bool)

  datatype Call = Write(m: Message, funOk: bool, sendOk: bool, offer: Handle) | Flush(sendOk: bool)

  /** The messages whose write succeeded. */
  function Accepted(calls: seq<Call>, results: seq<Error>): seq<Message>
    requires |calls| == |results|
  {
    if calls == [] then []
    else (if calls[0].Write? && results[0] == None then [calls[0].m] else []) + Accepted(calls[1..], results[1..])
  }

  lemma OneMoreResult(before: seq<Message>, calls: seq<Call>, e: Error, rest: seq<Error>)
    requires |calls| == |rest| + 1
    ensures before + Accepted(calls, [e] + rest)
            == before + (if calls[0].Write? && e == None then [calls[0].m] else []) + Accepted(calls[1..], rest)
    ensures SendFailed in [e] + rest <==> e == SendFailed || SendFailed in rest
  {
    assert ([e] + rest)[1..] == rest;
    var first, later := if calls[0].Write? && e == None then [calls[0].m] else [], Accepted(calls[1..], rest);
    assert Accepted(calls, [e] + rest) == first + later;
    Associative(before, first, later);
  }

  lemma Associative(a: seq<Message>, b: seq<Message>, c: seq<Message>)
    ensures a + (b + c) == a + b + c
  {
  }

  class Socket {
    const maxBatch: nat
    const words: nat            // a buffer is `8 * words` bytes long

    var buffer: Handle
    var data: array<Byte>       // the memory of the current buffer
    var writer: Writer
    var batch: nat
    var flush: bool
    var tasks: nat              // flush tasks queued at the processor
    var sent: seq<seq<Byte>>
    ghost var log: Log

    function Capacity(): nat { 8 * words }

    predicate Usable(h: Handle) {
      h.At? ==> h.base % 8 == 0 && h.base + Capacity() + 8 <= U64
    }

    /** What has been written into the current buffer. */
    ghost function Pending(): seq<Byte>
      reads this, data
    {
      if buffer.At? && writer.pos <= data.Length then data[..writer.pos] else []
    }

    ghost predicate BufferOk()
      reads this, data
    {
      && Usable(buffer)
      && (if buffer.At? then data.Length == writer.end == Capacity() && writer.pos <= writer.end else writer == Writer(0, 0))
      && batch == |log.current| <= maxBatch
      && Frames(Pending(), log.current)
    }

    ghost predicate FlushOk()
      reads this
    {
      && (buffer.At? ==> flush)
      && tasks == if flush then 1 else 0
    }

    ghost predicate Valid()
      reads this, data
    {
      && maxBatch >= 1
      && BufferOk()
      && FlushOk()
      && Delivery(sent, log.current, log.accepted, log.failed, maxBatch)
    }

    constructor (maxBatch: nat, words: nat)
      requires maxBatch >= 1
      ensures Valid() && this.maxBatch == maxBatch && this.words == words && fresh(data)
      ensures log == Log([], [], false) && sent == [] && buffer == Invalid && !flush
    {
      this.maxBatch, this.words := maxBatch, words;
      buffer, data, writer := Invalid, new Byte[0], Writer(0, 0);
      batch, flush, tasks, sent, log := 0, false, 0, [], Log([], [], false);
    }

    /** `sendCurrentBuffer`. */
    method SendCurrentBuffer(sendOk: bool) returns (e: Error)
      requires Valid() && (buffer.At? ==> writer.pos > 0)
      modifies this`buffer, this`writer, this`batch, this`sent, this`log
      ensures Valid() && buffer == Invalid
      ensures e == if old(buffer.At?) && !sendOk then SendFailed else None
      ensures sent == if old(buffer.At?) && sendOk then old(sent) + [old(Pending())] else old(sent)
      ensures log == Log([], old(log.accepted), old(log.failed) || e == SendFailed)
    {
      if buffer == Invalid {
        return None;
      }
      var bytes := data[..writer.pos];
      if sendOk {
        SentOneMore(sent, bytes, log.current, log.accepted, log.failed, maxBatch);
        e, sent := None, sent + [bytes];
      } else {
        e := SendFailed;
      }
      buffer, writer, batch := Invalid, Writer(0, 0), 0;
      log := Log([], log.accepted, log.failed || !sendOk);
    }

    /** `scheduleFlush`: queues one task unless one is queued. */
    method ScheduleFlush()
      requires tasks == if flush then 1 else 0
      modifies this`flush, this`tasks
      ensures flush && tasks == 1
    {
      if !flush {
        tasks, flush := tasks + 1, true;
      }
    }

    /** The body of the flush task. */
    method FlushTask(sendOk: bool) returns (e: Error)
      requires Valid() && tasks > 0
      modifies this`buffer, this`writer, this`batch, this`flush, this`tasks, this`sent, this`log
      ensures Valid() && buffer == Invalid && !flush
      ensures e == if old(Pending()) != [] && !sendOk then SendFailed else None
      ensures sent == if old(Pending()) != [] && sendOk then old(sent) + [old(Pending())] else old(sent)
      ensures log == Log([], old(log.accepted), old(log.failed) || e == SendFailed)
    {
      e := None;
      if buffer.At? && writer.pos == 0 {
        NoFrames(log.current);
        buffer, writer := Invalid, Writer(0, 0);
      } else {
        e := SendCurrentBuffer(sendOk);
      }
      tasks, flush := tasks - 1, false;
    }

    /** Copies bytes into the buffer. */
    method Put(at: nat, bytes: seq<Byte>)
      requires at + |bytes| <= data.Length
      modifies data
      ensures data[..] == Overwritten(old(data[..]), at, bytes)
    {
      for i := 0 to |bytes|
        invariant forall j :: 0 <= j < data.Length ==> data[j] == if at <= j < at + i then bytes[j - at] else old(data[j])
      {
        data[at + i] := bytes[i];
      }
    }

    method WriteHeader(id: nat, kind: nat, length: nat)
      requires writer.pos + HEADER_SIZE <= data.Length
      modifies this`writer, data
      ensures writer == Writer(old(writer.pos) + HEADER_SIZE, old(writer.end))
      ensures data[..] == Overwritten(old(data[..]), old(writer.pos), Header(id, kind, length))
    {
      var p, a, b, c := writer.pos, ToBytes(id, 8), ToBytes(kind, 4), ToBytes(length, 4);
      OverwrittenTwice(data[..], p, a, b);
      OverwrittenTwice(data[..], p, a + b, c);
      Put(p, a);
      Put(p + 8, b);
      Put(p + 12, c);
      writer := writer.(pos := p + HEADER_SIZE);
    }

    /** The frame of a message behind those of `ms`; `m.payload` is what `fun` leaves in the region it is given. */
    method WriteFrame(m: Message, ghost ms: seq<Message>)
      requires Fits(m) && data.Length == Capacity() && writer.pos + HEADER_SIZE + |m.payload| <= data.Length
      requires buffer.At? && Usable(buffer) && Frames(data[..writer.pos], ms)
      modifies this`writer, data
      ensures writer == Writer(old(writer.pos) + FrameSize(m), old(writer.end)) && writer.pos <= data.Length
      ensures data[..old(writer.pos)] == old(data[..writer.pos])
      ensures Frames(data[..writer.pos], ms + [m])
    {
      var p := writer.pos;
      ghost var d0 := data[..];
      ghost var k := FramesAreAligned(data[..p], ms);
      WriteHeader(m.id, m.kind, |m.payload|);
      ghost var d1 := data[..];
      var start := writer.pos;
      var next, _ := AlignedEnd(buffer.base, p, k, HEADER_SIZE + |m.payload|);
      AlignedEndFits(k, HEADER_SIZE + |m.payload|, words);
      writer := writer.(pos := next);
      Put(start, m.payload);
      FrameWritten(d0, d1, data[..], p, m);
      assert data[..p] == data[..][..p] == d0[..p];
      FrameAppended(data[..], p, next, ms, m);
      assert data[..][..next] == data[..next];
    }

    /** The part of `writeMessage` after a buffer with room was found. */
    method Append(m: Message, funOk: bool) returns (e: Error)
      requires Valid() && Fits(m) && buffer.At? && batch < maxBatch
      requires writer.CanWrite(HEADER_SIZE + |m.payload|)
      modifies this`writer, this`batch, this`log, data
      ensures Valid()
      ensures e == if funOk then None else FunError
      ensures log == if funOk then Log(old(log.current) + [m], old(log.accepted) + [m], old(log.failed)) else old(log)
      ensures !funOk ==> Pending() == old(Pending())
    {
      var oldOffset := writer.pos;
      WriteFrame(m, log.current);
      if funOk {
        AcceptedOneMore(sent, log.current, log.accepted, log.failed, maxBatch, m);
        e, batch := None, batch + 1;
        log := Log(log.current + [m], log.accepted + [m], log.failed);
      } else {
        e, writer := FunError, Writer(oldOffset, oldOffset + (Capacity() - oldOffset));
      }
    }

    /** Sends the current buffer and acquires an empty one; the pool offers a buffer or none. */
    method NextBuffer(sendOk: bool, offer: Handle) returns (e: Error)
      requires Valid() && (buffer.At? ==> writer.pos > 0) && Usable(offer)
      modifies this
      ensures Valid() && (fresh(data) || data == old(data))
      ensures e == if old(buffer.At?) && !sendOk then SendFailed else if offer == Invalid then InvalidBuffer else None
      ensures e == None ==> buffer == offer && writer == Writer(0, Capacity())
      ensures e != None ==> buffer == Invalid
      ensures sent == if old(buffer.At?) && sendOk then old(sent) + [old(Pending())] else old(sent)
      ensures log == Log([], old(log.accepted), old(log.failed) || e == SendFailed)
    {
      e := SendCurrentBuffer(sendOk);
      if e != None {
        return;
      }
      if offer == Invalid {
        return InvalidBuffer;
      }
      StartBuffer(offer);
    }

    /** Takes an acquired buffer, and makes sure that it will be flushed. */
    method StartBuffer(offer: Handle)
      requires Valid() && buffer == Invalid && offer.At? && Usable(offer)
      modifies this`buffer, this`data, this`writer, this`batch, this`flush, this`tasks
      ensures Valid() && fresh(data) && buffer == offer && writer == Writer(0, Capacity())
    {
      NoFrames(log.current);
      batch, buffer := 0, offer;
      data := new Byte[Capacity()];
      writer := Writer(0, Capacity());
      ScheduleFlush();
    }

    /** A write cannot go into the current buffer. */
    predicate NeedsBuffer(length: nat)
      reads this
    {
      !writer.CanWrite(length) || batch >= maxBatch
    }

    /** There is a current buffer, it can take the frame, and the batch is not full. */
    ghost predicate HasRoom(m: Message)
      reads this
    {
      buffer.At? && writer.pos + HEADER_SIZE + |m.payload| <= Capacity() && |log.current| < maxBatch
    }

    /** A buffer that holds a full batch, or cannot take the frame of a message any more. */
    ghost predicate Crowded(b: seq<Byte>, m: Message) {
      |Parse(b).messages| == maxBatch || |b| + HEADER_SIZE + |m.payload| > Capacity()
    }

    /** `writeMessage`; the length is computed in 32 bits. */
    method WriteMessage(m: Message, funOk: bool, sendOk: bool, offer: Handle) returns (e: Error)
      requires Valid() && Fits(m) && Usable(offer)
      modifies this, data
      ensures Valid() && (fresh(data) || data == old(data))
      ensures e == MessageTooBig ==> HEADER_SIZE + |m.payload| > Capacity()
      ensures HEADER_SIZE + |m.payload| > Capacity() ==> e in {MessageTooBig, SendFailed, InvalidBuffer}
      ensures e == SendFailed ==> !sendOk && old(Pending()) != []
      ensures e == InvalidBuffer ==> offer == Invalid && !old(HasRoom(m))
      ensures e == FunError ==> !funOk
      ensures e == None ==> funOk
      ensures funOk && sendOk && offer.At? && HEADER_SIZE + |m.payload| <= Capacity() ==> e == None
      ensures log.accepted == old(log.accepted) + (if e == None then [m] else [])
      ensures log.failed == (old(log.failed) || e == SendFailed)
      ensures sent == if sendOk && !old(HasRoom(m)) && old(Pending()) != [] then old(sent) + [old(Pending())] else old(sent)
      ensures old(HasRoom(m)) ==> e == (if funOk then None else FunError) && buffer == old(buffer) && data == old(data)
      ensures !old(HasRoom(m)) && old(Pending()) != [] ==> Crowded(old(Pending()), m)
    {
      var length := (HEADER_SIZE + |m.payload|) % U32;
      assert length == HEADER_SIZE + |m.payload|;
      if NeedsBuffer(length) {
        e := AppendToNext(m, funOk, sendOk, offer);
      } else {
        e := Append(m, funOk);
      }
    }

    /** A write for which the current buffer has no room. */
    method AppendToNext(m: Message, funOk: bool, sendOk: bool, offer: Handle) returns (e: Error)
      requires Valid() && Fits(m) && Usable(offer) && NeedsBuffer(HEADER_SIZE + |m.payload|)
      modifies this, data
      ensures Valid() && (fresh(data) || data == old(data))
      ensures !old(HasRoom(m)) && (old(Pending()) != [] ==> Crowded(old(Pending()), m))
      ensures e == MessageTooBig ==> HEADER_SIZE + |m.payload| > Capacity()
      ensures HEADER_SIZE + |m.payload| > Capacity() ==> e in {MessageTooBig, SendFailed, InvalidBuffer}
      ensures e == SendFailed ==> !sendOk && old(Pending()) != []
      ensures e == InvalidBuffer ==> offer == Invalid
      ensures e == FunError ==> !funOk
      ensures e == None ==> funOk
      ensures log.accepted == old(log.accepted) + (if e == None then [m] else [])
      ensures log.failed == (old(log.failed) || e == SendFailed)
      ensures sent == if sendOk && old(Pending()) != [] then old(sent) + [old(Pending())] else old(sent)
    {
      CrowdedNow(m);
      e := MakeRoom(HEADER_SIZE + |m.payload|, sendOk, offer);
      if e == None {
        e := Append(m, funOk);
      }
    }

    lemma CrowdedNow(m: Message)
      requires Valid() && NeedsBuffer(HEADER_SIZE + |m.payload|)
      ensures !HasRoom(m) && (Pending() != [] ==> Crowded(Pending(), m))
    {
      ParseFrames(Pending(), log.current);
    }

    /** The part of `writeMessage` that finds a buffer for a frame; an empty buffer is not exchanged. */
    method MakeRoom(length: nat, sendOk: bool, offer: Handle) returns (e: Error)
      requires Valid() && Usable(offer) && NeedsBuffer(length)
      modifies this
      ensures Valid() && (fresh(data) || data == old(data))
      ensures e in {None, MessageTooBig, SendFailed, InvalidBuffer}
      ensures e == None ==> buffer.At? && writer.CanWrite(length) && batch < maxBatch
      ensures e == MessageTooBig ==> length > Capacity()
      ensures length > Capacity() ==> e != None
      ensures e == SendFailed ==> !sendOk && old(Pending()) != []
      ensures e == InvalidBuffer ==> offer == Invalid
      ensures log.accepted == old(log.accepted) && log.failed == (old(log.failed) || e == SendFailed)
      ensures sent == if sendOk && old(Pending()) != [] then old(sent) + [old(Pending())] else old(sent)
    {
      if buffer.At? && writer.pos == 0 {
        NoFrames(log.current);
        return MessageTooBig;
      }
      e := NextBuffer(sendOk, offer);
      if e == None && !writer.CanWrite(length) {
        e := MessageTooBig;
      }
    }

    /** A write that nothing stands in the way of. */
    predicate Unhindered(c: Call) {
      c.Write? && c.funOk && c.sendOk && c.offer.At? && HEADER_SIZE + |c.m.payload| <= Capacity()
    }

    /** One call, or the processor running the flush task if there is one. */
    method Do(c: Call) returns (e: Error)
      requires Valid() && (c.Write? ==> Fits(c.m) && Usable(c.offer))
      modifies this, data
      ensures Valid() && (fresh(data) || data == old(data))
      ensures log.accepted == old(log.accepted) + (if c.Write? && e == None then [c.m] else [])
      ensures log.failed == (old(log.failed) || e == SendFailed)
      ensures Unhindered(c) ==> e == None
      ensures c.Flush? ==> buffer == Invalid && !flush
      ensures c.Flush? ==> sent == if c.sendOk && old(tasks) > 0 && old(Pending()) != [] then old(sent) + [old(Pending())] else old(sent)
      ensures c.Write? ==> sent == old(sent) || (sent == old(sent) + [old(Pending())] && Crowded(old(Pending()), c.m))
    {
      match c
      case Write(m, funOk, sendOk, offer) =>
        e := WriteMessage(m, funOk, sendOk, offer);
      case Flush(sendOk) =>
        if tasks > 0 {
          e := FlushTask(sendOk);
        } else {
          e := None;
        }
    }

    /** The buffer made way for one of the writes. */
    ghost predicate SentFor(b: seq<Byte>, calls: seq<Call>) {
      exists j :: 0 <= j < |calls| && calls[j].Write? && Crowded(b, calls[j].m)
    }

    lemma SentForLater(b: seq<Byte>, calls: seq<Call>)
      requires calls != [] && SentFor(b, calls[1..])
      ensures SentFor(b, calls)
    {
      var j :| 0 <= j < |calls| - 1 && calls[1..][j].Write? && Crowded(b, calls[1..][j].m);
      assert calls[j + 1] == calls[1..][j];
    }

    /** In a run without flushes, every buffer that went out made way for a write. */
    ghost predicate MadeWay(before: seq<seq<Byte>>, after: seq<seq<Byte>>, calls: seq<Call>) {
      (forall c :: c in calls ==> c.Write?) ==>
        before <= after && forall i :: |before| <= i < |after| ==> SentFor(after[i], calls)
    }

    lemma OneMoreMadeWay(before: seq<seq<Byte>>, b: seq<Byte>, mid: seq<seq<Byte>>, after: seq<seq<Byte>>, calls: seq<Call>)
      requires calls != [] && MadeWay(mid, after, calls[1..])
      requires calls[0].Write? ==> mid == before || (mid == before + [b] && Crowded(b, calls[0].m))
      ensures MadeWay(before, after, calls)
    {
      if forall c :: c in calls ==> c.Write? {
        assert calls[0] in calls;
        forall i | |before| <= i < |after| ensures SentFor(after[i], calls) {
          if i >= |mid| {
            SentForLater(after[i], calls);
          } else {
            assert after[i] == mid[i] == b;
          }
        }
      }
    }

    /** Without flushes, a buffer goes out only when a write finds it full or its batch complete. */
    method Run(calls: seq<Call>) returns (results: seq<Error>)
      requires Valid() && forall c :: c in calls && c.Write? ==> Fits(c.m) && Usable(c.offer)
      modifies this, data
      ensures Valid() && (fresh(data) || data == old(data))
      ensures |results| == |calls|
      ensures log.accepted == old(log.accepted) + Accepted(calls, results)
      ensures log.failed == (old(log.failed) || SendFailed in results)
      ensures forall i :: 0 <= i < |calls| && Unhindered(calls[i]) ==> results[i] == None
      ensures MadeWay(old(sent), sent, calls)
      decreases |calls|
    {
      if calls == [] {
        return [];
      }
      var e := Do(calls[0]);
      ghost var mid := sent;
      var rest := Run(calls[1..]);
      results := [e] + rest;
      OneMoreMadeWay(old(sent), old(Pending()), mid, sent, calls);
      OneMoreResult(old(log.accepted), calls, e, rest);
    }

    /** Any run of writes and flushes: what the receiver gets, then what is still buffered, is what was accepted. */
    method Transfer(calls: seq<Call>) returns (results: seq<Error>)
      requires Valid() && !log.failed && forall c :: c in calls && c.Write? ==> Fits(c.m) && Usable(c.offer)
      modifies this, data
      ensures Valid() && |results| == |calls|
      ensures forall i :: 0 <= i < |calls| && Unhindered(calls[i]) ==> results[i] == None
      ensures SendFailed !in results ==>
                ParseAll(sent) + Parse(Pending()).messages == old(log.accepted) + Accepted(calls, results)
    {
      results := Run(calls);
      ParseFrames(Pending(), log.current);
    }
  }
}
