/**
 The synchronous part of the RPC client: requests wait in a queue, a response completes the request
 whose 32-bit id it carries and aborts the ones queued before it.

 Completing a request resumes its fiber, and popping one may resume a fiber that waits to send.
 Either may send further requests before control returns. So every such point takes the next piece
 of a script: the sends attempted there, each with the outcome of its write.

 Response objects are numbered in the order of the `sendRequest` calls that go ahead. The server
 answers some of the requests it got, in the order it got them.
 */
module RpcClient {
  import opened Bytes

  /** A pending request: the id on the wire and the number of its response object. */
  datatype Entry = Entry(id: nat, response: nat)

  /** How a request ended; `Answered(n)` is the answer to request n. */
  datatype Outcome = Answered(n: nat) | NoResponse | ConnectionAborted | WriteError

  /** The server's side: the requests it may get, its answers in order, and how many were delivered. */
  datatype Server = Server(accepted: set<nat>, answered: seq<nat>, delivered: nat) {
    ghost function Last(): nat
      requires delivered <= |answered|
    {
      if delivered == 0 then 0 else answered[delivered - 1]
    }
  }

  ghost predicate Queued(queue: seq<Entry>, r: nat) {
    exists i :: 0 <= i < |queue| && queue[i].response == r
  }

  /** The queue is in the order of the calls, and an entry's id is its number in 32 bits. */
  ghost predicate QueueOk(queue: seq<Entry>, calls: nat) {
    && (forall i :: 0 <= i < |queue| ==> 1 <= queue[i].response <= calls && queue[i].id == queue[i].response % U32)
    && (forall i, j :: 0 <= i < j < |queue| ==> queue[i].response < queue[j].response)
  }

  /** Every request that was sent is queued, in hand, or completed, and only one of these. */
  ghost predicate Conserved(queue: seq<Entry>, hand: set<nat>, done: map<nat, Outcome>, calls: nat) {
    && (forall r :: r in hand ==> 1 <= r <= calls && r !in done && !Queued(queue, r))
    && (forall r :: r in done ==> 1 <= r <= calls && !Queued(queue, r))
    && (forall r :: 1 <= r <= calls ==> r in done || r in hand || Queued(queue, r))
  }

  ghost predicate ServerOk(server: Server, calls: nat) {
    && server.delivered <= |server.answered|
    && (forall r :: r in server.accepted ==> 1 <= r <= calls)
    && (forall i :: 0 <= i < |server.answered| ==> server.answered[i] in server.accepted)
    && (forall i, j :: 0 <= i < j < |server.answered| ==> server.answered[i] < server.answered[j])
  }

  /** Requests the server may still answer wait in the queue, and so does the one whose answer is arriving. */
  ghost predicate Awaited(queue: seq<Entry>, hand: set<nat>, server: Server, arriving: nat)
    requires server.delivered <= |server.answered|
  {
    && (forall r :: r in server.accepted && r > server.Last() ==> Queued(queue, r))
    && (arriving != 0 ==> Queued(queue, arriving) || arriving in hand)
  }

  /** Delivered answers reached their own requests, and no request got another's. */
  ghost predicate Matched(done: map<nat, Outcome>, server: Server, arriving: nat)
    requires server.delivered <= |server.answered|
  {
    && (forall i :: 0 <= i < server.delivered && server.answered[i] != arriving ==>
          server.answered[i] in done && done[server.answered[i]] == Answered(server.answered[i]))
    && (forall r :: r in done && done[r].Answered? ==> done[r].n == r)
  }

  ghost predicate WasDelivered(server: Server, n: nat) {
    exists i :: 0 <= i < server.delivered && i < |server.answered| && server.answered[i] == n
  }

  /** The answer being delivered is the last delivered one. */
  ghost predicate ArrivingOk(server: Server, arriving: nat) {
    arriving != 0 ==> 0 < server.delivered <= |server.answered| && arriving == server.answered[server.delivered - 1]
  }

  /**
   The reason for an outcome of request r: an answer was delivered, an answer to a later request was
   delivered, the connection was lost, or the request was never written.
   */
  ghost predicate Justified(o: Outcome, r: nat, server: Server, connected: bool, clean: bool)
    requires server.delivered <= |server.answered|
  {
    match o
    case Answered(n) => WasDelivered(server, n)
    case NoResponse => server.delivered > 0 && (clean ==> r < server.Last())
    case ConnectionAborted => !connected
    case WriteError => r !in server.accepted
  }

  ghost predicate AllJustified(done: map<nat, Outcome>, server: Server, connected: bool, clean: bool)
    requires server.delivered <= |server.answered|
  {
    forall r :: r in done ==> Justified(done[r], r, server, connected, clean)
  }

  /** No two queued requests are 2^32 calls apart. */
  ghost predicate Window(queue: seq<Entry>) {
    forall i, j :: 0 <= i < j < |queue| ==> queue[j].response - queue[i].response < U32
  }

  ghost predicate Inv(maxPending: nat, queue: seq<Entry>, connected: bool, calls: nat, done: map<nat, Outcome>,
                      hand: set<nat>, server: Server, arriving: nat, clean: bool)
  {
    && |queue| <= maxPending
    && QueueOk(queue, calls) && Conserved(queue, hand, done, calls) && ServerOk(server, calls)
    && ArrivingOk(server, arriving) && AllJustified(done, server, connected, clean)
    && (clean ==> Window(queue) && Matched(done, server, arriving))
    && (clean && connected ==> Awaited(queue, hand, server, arriving))
  }

  // A request enters the queue

  lemma QueuedAfterPush(queue: seq<Entry>, e: Entry)
    ensures forall r :: Queued(queue + [e], r) <==> Queued(queue, r) || r == e.response
  {
    forall r ensures Queued(queue + [e], r) <==> Queued(queue, r) || r == e.response {
      if Queued(queue, r) {
        var i :| 0 <= i < |queue| && queue[i].response == r;
        assert (queue + [e])[i].response == r;
      }
      if r == e.response {
        assert (queue + [e])[|queue|].response == r;
      }
    }
  }

  lemma PushKeeps(queue: seq<Entry>, hand: set<nat>, done: map<nat, Outcome>, server: Server, calls: nat, e: Entry)
    requires QueueOk(queue, calls) && Conserved(queue, hand, done, calls) && ServerOk(server, calls)
    requires e == Entry((calls + 1) % U32, calls + 1)
    ensures QueueOk(queue + [e], calls + 1) && Conserved(queue + [e], hand, done, calls + 1)
    ensures ServerOk(server.(accepted := server.accepted + {calls + 1}), calls + 1)
  {
    QueuedAfterPush(queue, e);
  }

  lemma PushKeepsAwaited(queue: seq<Entry>, hand: set<nat>, server: Server, arriving: nat, e: Entry)
    requires server.delivered <= |server.answered| && Awaited(queue, hand, server, arriving)
    ensures Awaited(queue + [e], hand, server.(accepted := server.accepted + {e.response}), arriving)
  {
    QueuedAfterPush(queue, e);
  }

  lemma PushKeepsWindow(queue: seq<Entry>, calls: nat, e: Entry)
    requires QueueOk(queue, calls) && Window(queue)
    requires queue != [] ==> e.response - queue[0].response < U32
    ensures Window(queue + [e])
  {
    var q := queue + [e];
    forall i, j | 0 <= i < j < |q| ensures q[j].response - q[i].response < U32 {
      assert queue[0].response <= q[i].response;
    }
  }

  lemma PushKeepsJustified(done: map<nat, Outcome>, server: Server, clean: bool, clean': bool, calls: nat)
    requires server.delivered <= |server.answered| && AllJustified(done, server, true, clean) && (clean' ==> clean)
    requires forall r :: r in done ==> r <= calls
    ensures AllJustified(done, server.(accepted := server.accepted + {calls + 1}), true, clean')
  {
    var server' := server.(accepted := server.accepted + {calls + 1});
    forall r | r in done ensures Justified(done[r], r, server', true, clean') {
      assert Justified(done[r], r, server, true, clean);
      if done[r].Answered? {
        var i :| 0 <= i < server.delivered && i < |server.answered| && server.answered[i] == done[r].n;
        assert server'.answered[i] == done[r].n;
      }
    }
  }

  /** More answers, or one more delivered, take no reason away. */
  lemma AnswersKeepJustified(done: map<nat, Outcome>, server: Server, server': Server, connected: bool, clean: bool, calls: nat)
    requires ServerOk(server, calls) && ServerOk(server', calls) && server'.accepted == server.accepted
    requires server.answered <= server'.answered && server.delivered <= server'.delivered
    requires AllJustified(done, server, connected, clean)
    ensures AllJustified(done, server', connected, clean)
  {
    forall r | r in done ensures Justified(done[r], r, server', connected, clean) {
      assert Justified(done[r], r, server, connected, clean);
      if done[r].Answered? {
        var i :| 0 <= i < server.delivered && i < |server.answered| && server.answered[i] == done[r].n;
        assert server'.answered[i] == done[r].n;
      }
    }
  }

  lemma PushKeepsInv(maxPending: nat, queue: seq<Entry>, calls: nat, done: map<nat, Outcome>,
                     hand: set<nat>, server: Server, arriving: nat, clean: bool, e: Entry)
    requires Inv(maxPending, queue, true, calls, done, hand, server, arriving, clean)
    requires |queue| < maxPending && e == Entry((calls + 1) % U32, calls + 1)
    ensures Inv(maxPending, queue + [e], true, calls + 1, done, hand, server.(accepted := server.accepted + {e.response}), arriving,
                clean && e.response - (queue + [e])[0].response < U32)
  {
    PushKeeps(queue, hand, done, server, calls, e);
    PushKeepsJustified(done, server, clean, clean && e.response - (queue + [e])[0].response < U32, calls);
    if clean {
      PushKeepsAwaited(queue, hand, server, arriving, e);
      if e.response - (queue + [e])[0].response < U32 {
        PushKeepsWindow(queue, calls, e);
      }
    }
  }

  /** A call that fails at once. */
  lemma FailKeeps(queue: seq<Entry>, hand: set<nat>, done: map<nat, Outcome>, server: Server, calls: nat, o: Outcome)
    requires QueueOk(queue, calls) && Conserved(queue, hand, done, calls) && ServerOk(server, calls)
    ensures QueueOk(queue, calls + 1) && Conserved(queue, hand, done[calls + 1 := o], calls + 1) && ServerOk(server, calls + 1)
  {
  }

  lemma NextId(calls: nat)
    ensures (calls % U32 + 1) % U32 == (calls + 1) % U32
  {
  }

  /** Aborting a request that has no outcome yet takes no answer away, unless its answer is arriving. */
  lemma AbortKeepsMatched(done: map<nat, Outcome>, server: Server, arriving: nat, r: nat, o: Outcome)
    requires server.delivered <= |server.answered| && Matched(done, server, arriving) && r !in done && !o.Answered?
    ensures Matched(done[r := o], server, arriving)
  {
  }

  lemma FailKeepsInv(maxPending: nat, queue: seq<Entry>, connected: bool, calls: nat, done: map<nat, Outcome>,
                     hand: set<nat>, server: Server, arriving: nat, clean: bool, o: Outcome)
    requires Inv(maxPending, queue, connected, calls, done, hand, server, arriving, clean)
    requires o == if connected then WriteError else ConnectionAborted
    ensures Inv(maxPending, queue, connected, calls + 1, done[calls + 1 := o], hand, server, arriving, clean)
  {
    FailKeeps(queue, hand, done, server, calls, o);
    if clean {
      AbortKeepsMatched(done, server, arriving, calls + 1, o);
    }
  }

  // A request leaves the queue

  lemma QueuedAfterPop(queue: seq<Entry>)
    requires queue != []
    ensures forall r :: Queued(queue, r) <==> Queued(queue[1..], r) || r == queue[0].response
  {
    forall r ensures Queued(queue, r) <==> Queued(queue[1..], r) || r == queue[0].response {
      if Queued(queue, r) && r != queue[0].response {
        var i :| 0 <= i < |queue| && queue[i].response == r;
        assert queue[1..][i - 1].response == r;
      }
    }
  }

  lemma PopKeeps(queue: seq<Entry>, done: map<nat, Outcome>, calls: nat)
    requires queue != [] && QueueOk(queue, calls) && Conserved(queue, {}, done, calls)
    ensures QueueOk(queue[1..], calls) && Conserved(queue[1..], {queue[0].response}, done, calls)
    ensures Window(queue) ==> Window(queue[1..])
  {
    QueuedAfterPop(queue);
  }

  lemma PopKeepsAwaited(queue: seq<Entry>, server: Server, arriving: nat, calls: nat)
    requires queue != [] && QueueOk(queue, calls) && Window(queue)
    requires server.delivered <= |server.answered| && Awaited(queue, {}, server, arriving) && arriving != 0 && arriving == server.Last()
    ensures Awaited(queue[1..], {queue[0].response}, server, arriving)
    ensures queue[0].response <= arriving
    ensures queue[0].response == arriving <==> queue[0].id == arriving % U32
  {
    QueuedAfterPop(queue);
    var i :| 0 <= i < |queue| && queue[i].response == arriving;
    if queue[0].id == arriving % U32 {
      CloseAndCongruent(queue[0].response, arriving);
    }
  }

  lemma CloseAndCongruent(a: nat, b: nat)
    requires a <= b < a + U32 && a % U32 == b % U32
    ensures a == b
  {
  }

  /** An answer arrives. */
  lemma DeliverKeepsInv(maxPending: nat, queue: seq<Entry>, calls: nat, done: map<nat, Outcome>, server: Server, clean: bool)
    requires Inv(maxPending, queue, true, calls, done, {}, server, 0, clean) && server.delivered < |server.answered|
    ensures Inv(maxPending, queue, true, calls, done, {}, server.(delivered := server.delivered + 1), server.answered[server.delivered], clean)
  {
    AnswersKeepJustified(done, server, server.(delivered := server.delivered + 1), true, clean, calls);
  }

  /** Completed requests stay as they are. */
  ghost predicate Extends(a: map<nat, Outcome>, b: map<nat, Outcome>) {
    forall r :: r in a ==> r in b && b[r] == a[r]
  }

  ghost predicate FirstWith(queue: seq<Entry>, id: nat, i: nat) {
    i < |queue| && queue[i].id == id && forall j :: 0 <= j < i ==> queue[j].id != id
  }

  ghost predicate Lost(queue: seq<Entry>, j: nat, done: map<nat, Outcome>)
    requires j < |queue|
  {
    queue[j].response in done && done[queue[j].response] == NoResponse
  }

  /** Entry i got the answer to request n, and the entries before it got none. */
  ghost predicate Delivered(queue: seq<Entry>, i: nat, done: map<nat, Outcome>, n: nat)
    requires i < |queue|
  {
    && queue[i].response in done && done[queue[i].response] == Answered(n)
    && (forall j :: 0 <= j < i ==> Lost(queue, j, done))
  }

  /** Whoever was first in the queue under the id has the answer. */
  ghost predicate Arrived(queue: seq<Entry>, done: map<nat, Outcome>, id: nat, n: nat) {
    forall i :: FirstWith(queue, id, i) ==> Delivered(queue, i, done, n)
  }

  /** The first k entries of `start` were popped and lost; what is left of it is the front of the queue. */
  ghost predicate Skipped(start: seq<Entry>, k: nat, queue: seq<Entry>, done: map<nat, Outcome>, id: nat) {
    && (k <= |start| ==> start[k..] <= queue)
    && (forall j :: 0 <= j < k && j < |start| ==> start[j].id != id && Lost(start, j, done))
  }

  /** The state of a delivery: still skipping, or arrived. */
  ghost predicate Tracked(start: seq<Entry>, k: nat, queue: seq<Entry>, done: map<nat, Outcome>, id: nat, n: nat, more: bool) {
    if more then Skipped(start, k, queue, done, id) else Arrived(start, done, id, n)
  }

  lemma TrackRound(start: seq<Entry>, k: nat, queue: seq<Entry>, done: map<nat, Outcome>,
                   queue': seq<Entry>, done': map<nat, Outcome>, id: nat, n: nat, first: map<nat, Outcome>)
    requires Tracked(start, k, queue, done, id, n, true) && queue != [] && queue[1..] <= queue'
    requires var r := queue[0].response; r !in done && Extends(done[r := if queue[0].id == id then Answered(n) else NoResponse], done')
    requires Extends(first, done)
    ensures Tracked(start, k + 1, queue', done', id, n, queue[0].id != id) && Extends(first, done')
  {
    if queue[0].id == id {
      forall i | FirstWith(start, id, i) ensures Delivered(start, i, done', n) {
        assert i == k && start[k] == queue[0];
      }
    }
  }

  lemma TrackEnd(start: seq<Entry>, k: nat, done: map<nat, Outcome>, id: nat, n: nat)
    requires Tracked(start, k, [], done, id, n, true)
    ensures Arrived(start, done, id, n)
  {
  }

  /** During a disconnect: the queue is the end of what it was, and the requests before it are aborted. */
  ghost predicate Drained(start: seq<Entry>, queue: seq<Entry>, done: map<nat, Outcome>) {
    forall r :: Queued(start, r) ==> Queued(queue, r) || (r in done && done[r] == ConnectionAborted)
  }

  lemma DrainOne(start: seq<Entry>, queue: seq<Entry>, done: map<nat, Outcome>, done': map<nat, Outcome>)
    requires Drained(start, queue, done) && queue != [] && Extends(done, done')
    requires queue[0].response in done' && done'[queue[0].response] == ConnectionAborted
    ensures Drained(start, queue[1..], done')
  {
    QueuedAfterPop(queue);
  }

  lemma ExtendsAfter(a: map<nat, Outcome>, b: map<nat, Outcome>, c: map<nat, Outcome>, d: map<nat, Outcome>, r: nat)
    requires Extends(a, b) && r in c && c == b[r := c[r]] && Extends(c, d)
    ensures Extends(a[r := c[r]], d)
  {
  }

  class RpcClientSocket {
    const maxPending: nat
    var userId: nat
    var queue: seq<Entry>             // mSyncResponses
    var connected: bool
    var calls: nat
    ghost var done: map<nat, Outcome>
    ghost var hand: set<nat>          // popped, not yet completed
    var server: Server
    var arriving: nat                 // the request whose answer is being delivered, or 0
    ghost var clean: bool             // no request was queued 2^32 calls after one still queued

    ghost predicate Valid()
      reads this
    {
      && (connected ==> userId == calls % U32)
      && Inv(maxPending, queue, connected, calls, done, hand, server, arriving, clean)
    }

    constructor (maxPending: nat)
      requires maxPending > 0
      ensures Valid() && this.maxPending == maxPending && connected && clean && queue == [] && calls == 0
      ensures hand == {} && arriving == 0 && done == map[] && server == Server({}, [], 0)
    {
      this.maxPending, userId, queue, connected, calls := maxPending, 0, [], true, 0;
      done, hand, server, arriving, clean := map[], {}, Server({}, [], 0), 0, true;
    }

    /** The write went through: the request is queued under the next id. */
    method Push(id: nat)
      requires Valid() && |queue| < maxPending && connected && id == (calls + 1) % U32
      modifies this`userId, this`queue, this`calls, this`server, this`clean
      ensures Valid() && queue == old(queue) + [Entry(id, calls)] && calls == old(calls) + 1
      ensures clean == (old(clean) && calls - queue[0].response < U32)
      ensures server == old(server).(accepted := old(server.accepted) + {calls})
    {
      var e := Entry(id, calls + 1);
      PushKeepsInv(maxPending, queue, calls, done, hand, server, arriving, clean, e);
      userId, calls, queue := id, calls + 1, queue + [e];
      server := server.(accepted := server.accepted + {calls});
      clean := clean && calls - queue[0].response < U32;
    }

    /** The request is aborted before it is queued. */
    method Fail(id: nat, o: Outcome)
      requires Valid() && o == (if connected then WriteError else ConnectionAborted) && (connected ==> id == (calls + 1) % U32)
      modifies this`userId, this`calls, this`done
      ensures Valid() && calls == old(calls) + 1 && done == old(done)[calls := o]
    {
      FailKeepsInv(maxPending, queue, connected, calls, done, hand, server, arriving, clean, o);
      userId, calls := id, calls + 1;
      done := done[calls := o];
    }

    /** `sendRequest` once its wait is over; it keeps waiting while the queue is full. */
    method Send(writeOk: bool)
      requires Valid()
      modifies this`userId, this`queue, this`calls, this`done, this`server, this`clean
      ensures Valid()
      ensures |old(queue)| >= maxPending ==> calls == old(calls) && queue == old(queue) && done == old(done) && server == old(server)
      ensures |old(queue)| < maxPending ==> calls == old(calls) + 1
      ensures |old(queue)| < maxPending && connected && writeOk ==>
                && queue == old(queue) + [Entry(calls % U32, calls)] && done == old(done)
                && server == old(server).(accepted := old(server.accepted) + {calls})
      ensures |old(queue)| < maxPending && !(connected && writeOk) ==>
                && queue == old(queue) && server == old(server)
                && done == old(done)[calls := if connected then WriteError else ConnectionAborted]
      ensures Extends(old(done), done)
      ensures clean == (old(clean) && (calls == old(calls) || queue == old(queue) || calls - queue[0].response < U32))
    {
      if |queue| >= maxPending {
        return;
      }
      NextId(calls);
      if !connected {
        Fail(userId, ConnectionAborted);
      } else if !writeOk {
        Fail((userId + 1) % U32, WriteError);
      } else {
        Push((userId + 1) % U32);
      }
    }

    /** A point where other fibers run: the next piece of the script. */
    method Resume(script: seq<seq<bool>>) returns (rest: seq<seq<bool>>)
      requires Valid()
      modifies this`userId, this`queue, this`calls, this`done, this`server, this`clean
      ensures Valid()
      ensures old(queue) <= queue && (!connected || script == [] ==> queue == old(queue))
      ensures Extends(old(done), done)
      ensures clean ==> old(clean)
      ensures server.answered == old(server.answered) && server.delivered == old(server.delivered)
      ensures rest == if script == [] then [] else script[1..]
      ensures calls >= old(calls) && (script == [] ==> calls == old(calls))
      ensures script != [] && script[0] != [] && |old(queue)| < maxPending ==> calls > old(calls)
    {
      if script == [] {
        return [];
      }
      var sends := script[0];
      for i := 0 to |sends|
        invariant Valid()
        invariant old(queue) <= queue && (!connected ==> queue == old(queue))
        invariant Extends(old(done), done)
        invariant clean ==> old(clean)
        invariant server.answered == old(server.answered) && server.delivered == old(server.delivered)
        invariant calls >= old(calls) && (i == 0 ==> queue == old(queue)) && (i > 0 && |old(queue)| < maxPending ==> calls > old(calls))
      {
        Send(sends[i]);
      }
      return script[1..];
    }

    /** Takes the front of the queue in hand; during a delivery the arriving answer is for it or for a later one. */
    method Pop() returns (e: Entry)
      requires Valid() && queue != [] && hand == {}
      requires clean && connected ==> arriving != 0
      modifies this`queue, this`hand
      ensures Valid() && [e] + queue == old(queue) && hand == {e.response}
      ensures clean && connected ==> e.response <= arriving
      ensures clean && connected ==> (e.response == arriving <==> e.id == arriving % U32)
    {
      PopKeeps(queue, done, calls);
      if clean && connected {
        PopKeepsAwaited(queue, server, arriving, calls);
      }
      e := queue[0];
      queue, hand := queue[1..], {e.response};
    }

    /** Completes the request in hand with an error. */
    method Abort(e: Entry, o: Outcome)
      requires Valid() && hand == {e.response} && !o.Answered? && Justified(o, e.response, server, connected, clean)
      requires clean && connected ==> e.response != arriving
      modifies this`done, this`hand
      ensures Valid() && hand == {} && done == old(done)[e.response := o]
    {
      if clean {
        AbortKeepsMatched(done, server, arriving, e.response, o);
      }
      done, hand := done[e.response := o], {};
    }

    /** Completes the request in hand with the arriving answer. */
    method Answer(e: Entry)
      requires Valid() && hand == {e.response} && arriving != 0
      requires clean ==> connected && e.response == arriving
      modifies this`done, this`hand, this`arriving
      ensures Valid() && hand == {} && done == old(done)[e.response := Answered(old(arriving))] && arriving == 0
    {
      done, hand, arriving := done[e.response := Answered(arriving)], {}, 0;
    }

    /** The request in hand gets the arriving answer or is aborted. */
    method Settle(e: Entry, id: nat)
      requires Valid() && hand == {e.response} && arriving != 0
      requires clean ==> connected && e.response <= arriving && (e.id == id <==> e.response == arriving)
      modifies this`done, this`hand, this`arriving
      ensures Valid() && hand == {}
      ensures arriving == if e.id == id then 0 else old(arriving)
      ensures done == old(done)[e.response := if e.id == id then Answered(old(arriving)) else NoResponse]
    {
      if e.id == id {
        Answer(e);
      } else {
        Abort(e, NoResponse);
      }
    }

    /** The front request is popped, which may let another fiber send. */
    method TakeFront(script: seq<seq<bool>>) returns (rest: seq<seq<bool>>, e: Entry)
      requires Valid() && connected && hand == {} && arriving != 0 && queue != []
      modifies this`userId, this`queue, this`calls, this`done, this`server, this`clean, this`hand
      ensures Valid() && hand == {e.response} && e == old(queue[0])
      ensures clean ==> old(clean) && e.response <= arriving && (e.response == arriving <==> e.id == arriving % U32)
      ensures server.answered == old(server.answered) && server.delivered == old(server.delivered)
      ensures old(queue)[1..] <= queue && (script == [] ==> queue == old(queue)[1..])
      ensures rest == if script == [] then [] else script[1..]
      ensures Extends(old(done), done) && e.response !in old(done)
    {
      e := Pop();
      rest := Resume(script);
    }

    /** One round of `onSyncResponse`: the front request gets the arriving answer or is aborted. */
    method Round(id: nat, script: seq<seq<bool>>) returns (rest: seq<seq<bool>>, e: Entry)
      requires Valid() && connected && hand == {} && arriving != 0 && id == arriving % U32 && queue != []
      modifies this`userId, this`queue, this`calls, this`done, this`server, this`clean, this`hand, this`arriving
      ensures Valid() && hand == {} && e == old(queue[0])
      ensures arriving == if e.id == id then 0 else old(arriving)
      ensures clean ==> old(clean)
      ensures server.answered == old(server.answered) && server.delivered == old(server.delivered)
      ensures old(queue)[1..] <= queue && (script == [] ==> queue == old(queue)[1..])
      ensures rest == if |script| >= 2 then script[2..] else []
      ensures Extends(old(done)[e.response := if e.id == id then Answered(old(arriving)) else NoResponse], done)
      ensures e.response !in old(done)
    {
      rest, e := TakeFront(script);
      ghost var d := done;
      Settle(e, id);
      ghost var d' := done;
      rest := Resume(rest);
      ExtendsAfter(old(done), d, d', done, e.response);
    }

    /** The queue ran empty before the answer found its request; with close ids this does not happen. */
    method NobodyWaits()
      requires Valid() && connected && queue == [] && hand == {} && arriving != 0
      modifies this`arriving
      ensures Valid() && arriving == 0 && !clean
    {
      arriving := 0;
    }

    /**
     `onSyncResponse`. The answer goes to the first request queued under its id, and the requests
     before that one end without a response.
     */
    method OnSyncResponse(id: nat, script: seq<seq<bool>>)
      requires Valid() && connected && hand == {} && arriving != 0 && id == arriving % U32
      modifies this`userId, this`queue, this`calls, this`done, this`server, this`clean, this`hand, this`arriving
      ensures Valid() && hand == {} && arriving == 0
      ensures clean ==> old(clean)
      ensures server.answered == old(server.answered) && server.delivered == old(server.delivered)
      ensures Extends(old(done), done)
      ensures Arrived(old(queue), done, id, old(arriving))
    {
      var rest, more := script, true;
      ghost var k := 0;
      while more && queue != []
        invariant Valid() && hand == {} && arriving == if more then old(arriving) else 0
        invariant clean ==> old(clean)
        invariant server.answered == old(server.answered) && server.delivered == old(server.delivered)
        invariant Extends(old(done), done)
        invariant Tracked(old(queue), k, queue, done, id, old(arriving), more)
        decreases |rest|, |queue|
      {
        ghost var q, d := queue, done;
        var e;
        rest, e := Round(id, rest);
        TrackRound(old(queue), k, q, d, queue, done, id, old(arriving), old(done));
        more, k := e.id != id, k + 1;
      }
      if more {
        TrackEnd(old(queue), k, done, id, old(arriving));
        NobodyWaits();
      }
    }

    /** The server answers a request it got, after everything it has answered before. */
    method ServerAnswers(n: nat)
      requires Valid() && n in server.accepted
      requires forall i :: 0 <= i < |server.answered| ==> server.answered[i] < n
      modifies this`server
      ensures Valid() && server == old(server).(answered := old(server.answered) + [n])
    {
      AnswersKeepJustified(done, server, server.(answered := server.answered + [n]), connected, clean, calls);
      server := server.(answered := server.answered + [n]);
    }

    /** The next answer is received. */
    method Deliver(script: seq<seq<bool>>)
      requires Valid() && connected && hand == {} && arriving == 0 && server.delivered < |server.answered|
      modifies this`userId, this`queue, this`calls, this`done, this`server, this`clean, this`hand, this`arriving
      ensures Valid() && hand == {} && arriving == 0
      ensures clean ==> old(clean)
      ensures server.answered == old(server.answered) && server.delivered == old(server.delivered) + 1
      ensures Extends(old(done), done)
      ensures var n := server.answered[old(server.delivered)];
              Arrived(old(queue), done, n % U32, n) && (clean ==> n in done && done[n] == Answered(n))
    {
      DeliverKeepsInv(maxPending, queue, calls, done, server, clean);
      arriving := server.answered[server.delivered];
      server := server.(delivered := server.delivered + 1);
      OnSyncResponse(arriving % U32, script);
    }

    method LoseConnection()
      requires Valid()
      modifies this`connected
      ensures Valid() && !connected
    {
      connected := false;
    }

    /** One round of the disconnect: the front request is aborted. */
    method AbortRound(script: seq<seq<bool>>) returns (rest: seq<seq<bool>>)
      requires Valid() && hand == {} && !connected && queue != []
      modifies this`userId, this`queue, this`calls, this`done, this`server, this`clean, this`hand
      ensures Valid() && hand == {} && queue == old(queue)[1..]
      ensures clean ==> old(clean)
      ensures server.answered == old(server.answered) && server.delivered == old(server.delivered)
      ensures Extends(old(done), done)
      ensures var r := old(queue[0]).response; r !in old(done) && r in done && done[r] == ConnectionAborted
    {
      AbortFront();
      rest := Resume(script);
    }

    method AbortFront()
      requires Valid() && hand == {} && !connected && queue != []
      modifies this`queue, this`done, this`hand
      ensures Valid() && hand == {} && queue == old(queue)[1..]
      ensures old(queue[0]).response !in old(done) && done == old(done)[old(queue[0]).response := ConnectionAborted]
    {
      var e := Pop();
      Abort(e, ConnectionAborted);
    }

    /** `onSocketDisconnected`, its synchronous part: every pending request is aborted. */
    method OnSocketDisconnected(script: seq<seq<bool>>)
      requires Valid() && hand == {} && arriving == 0
      modifies this`userId, this`queue, this`calls, this`done, this`server, this`clean, this`hand, this`connected
      ensures Valid() && hand == {} && !connected && queue == []
      ensures clean ==> old(clean)
      ensures server.answered == old(server.answered) && server.delivered == old(server.delivered)
      ensures Extends(old(done), done)
      ensures forall r :: Queued(old(queue), r) ==> r in done && done[r] == ConnectionAborted
    {
      LoseConnection();
      var rest := Resume(script);
      while queue != []
        invariant Valid() && hand == {} && !connected
        invariant clean ==> old(clean)
        invariant server.answered == old(server.answered) && server.delivered == old(server.delivered)
        invariant Extends(old(done), done)
        invariant Drained(old(queue), queue, done)
        decreases |queue|
      {
        ghost var q, d := queue, done;
        rest := AbortRound(rest);
        DrainOne(old(queue), q, d, done);
      }
    }

    /** One event; one that cannot happen in this state is skipped. */
    method Do(e: Event)
      requires Valid() && hand == {} && arriving == 0
      modifies this`userId, this`queue, this`calls, this`done, this`server, this`clean, this`hand, this`arriving, this`connected
      ensures Valid() && hand == {} && arriving == 0
      ensures Extends(old(done), done) && (clean ==> old(clean))
      ensures e.SendRequest? ==> calls == old(calls) + if |old(queue)| < maxPending then 1 else 0
      ensures e.ServerSide? && e.n in old(server.accepted) && (forall k :: k in old(server.answered) ==> k < e.n) ==>
                server.answered == old(server.answered) + [e.n]
      ensures e.Receive? && old(connected) && old(server.delivered) < |server.answered| ==> server.delivered == old(server.delivered) + 1
      ensures e.Disconnect? ==> !connected && queue == []
    {
      match e
      case SendRequest(writeOk) => Send(writeOk);
      case ServerSide(n) =>
        assert server.answered != [] ==> server.answered[|server.answered| - 1] in server.answered;
        if n in server.accepted && (server.answered == [] || server.answered[|server.answered| - 1] < n) {
          ServerAnswers(n);
        }
      case Receive(script) =>
        if connected && server.delivered < |server.answered| {
          Deliver(script);
        }
      case Disconnect(script) => OnSocketDisconnected(script);
    }

    /**
     Any run. Requests complete once: a request is pending or completed, and an outcome never
     changes. An answer is one that was delivered, and an abort has its reason. No request gets
     another's answer, and while connected no answered request is aborted.
     */
    method Run(events: seq<Event>)
      requires Valid() && hand == {} && arriving == 0
      modifies this`userId, this`queue, this`calls, this`done, this`server, this`clean, this`hand, this`arriving, this`connected
      ensures Valid() && hand == {} && arriving == 0
      ensures Extends(old(done), done) && |queue| <= maxPending
      ensures forall r :: 1 <= r <= calls ==> (r in done) != Queued(queue, r)
      ensures forall r :: r in done && done[r].Answered? ==> done[r].n in server.answered[..server.delivered]
      ensures AllJustified(done, server, connected, clean)
      ensures clean ==> forall r :: r in done && done[r].Answered? ==> done[r] == Answered(r)
      ensures clean && connected ==> forall r :: r in server.answered && r in done ==> done[r] == Answered(r)
    {
      for i := 0 to |events|
        invariant Valid() && hand == {} && arriving == 0
        invariant Extends(old(done), done)
      {
        Do(events[i]);
      }
      forall r | r in done && done[r].Answered? ensures done[r].n in server.answered[..server.delivered] {
        assert Justified(done[r], r, server, connected, clean);
        var i :| 0 <= i < server.delivered && server.answered[i] == done[r].n;
        assert server.answered[..server.delivered][i] == done[r].n;
      }
    }
  }

  datatype Event =
    | SendRequest(writeOk: bool)
    | ServerSide(n: nat)
    | Receive(script: seq<seq<bool>>)
    | Disconnect(script: seq<seq<bool>>)

  // The response object

  datatype Result = Unset | Value(bytes: seq<Byte>) | Error(code: nat)

  const ERROR_TYPE: nat := 0xFFFF_FFFF
  const WRONG_TYPE: nat := 1
  const BROKEN_PROMISE: nat := 2

  class Response {
    const messageType: nat
    var pending: bool
    var waiting: bool
    var result: Result
    var resumed: nat            // how often the fiber was resumed

    ghost predicate Valid()
      reads this
    {
      pending <==> result == Unset
    }

    constructor (messageType: nat)
      ensures Valid() && pending && !waiting && resumed == 0 && this.messageType == messageType
    {
      this.messageType, pending, waiting, result, resumed := messageType, true, false, Unset, 0;
    }

    /** `setInternalResult`: the first result stays, and its waiting fiber is resumed; a second one is refused. */
    method SetInternalResult(r: Result) returns (accepted: bool)
      requires Valid() && r != Unset
      modifies this`pending, this`result, this`resumed
      ensures Valid() && !pending && accepted == old(pending)
      ensures result == if old(pending) then r else old(result)
      ensures resumed == old(resumed) + if old(pending) && waiting then 1 else 0
    {
      if !pending {
        return false;
      }
      result := r;
      pending := false;
      if waiting {
        resumed := resumed + 1;
      }
      return true;
    }

    /** `onResponse`; `processed` is the result that the handler sets, if it sets one. */
    method OnResponse(kind: nat, code: nat, processed: Result)
      requires Valid() && pending
      modifies this`pending, this`result, this`resumed
      ensures Valid() && !pending && resumed == old(resumed) + if waiting then 1 else 0
      ensures kind == ERROR_TYPE ==> result == Error(code)
      ensures kind != ERROR_TYPE && kind != messageType ==> result == Error(WRONG_TYPE)
      ensures kind == messageType != ERROR_TYPE ==> result == if processed == Unset then Error(BROKEN_PROMISE) else processed
    {
      if kind == ERROR_TYPE {
        var _ := SetInternalResult(Error(code));
        return;
      }
      if kind != messageType {
        var _ := SetInternalResult(Error(WRONG_TYPE));
        return;
      }
      if processed != Unset {
        var _ := SetInternalResult(processed);
      }
      if result == Unset {
        var _ := SetInternalResult(Error(BROKEN_PROMISE));
      }
    }
  }

  // The 32-bit ids

  /** An answer is taken by its own request exactly if no older pending request is a multiple of 2^32 calls away. */
  lemma OwnAnswerIff(queue: seq<Entry>, calls: nat, k: nat)
    requires QueueOk(queue, calls) && k < |queue|
    ensures FirstWith(queue, queue[k].response % U32, k)
            <==> forall i :: 0 <= i < k ==> (queue[k].response - queue[i].response) % U32 != 0
  {
    forall i | 0 <= i < k
      ensures queue[i].id == queue[k].id <==> (queue[k].response - queue[i].response) % U32 == 0
    {
      Congruent(queue[i].response, queue[k].response);
    }
  }

  lemma Congruent(a: nat, b: nat)
    requires a <= b
    ensures a % U32 == b % U32 <==> (b - a) % U32 == 0
  {
    assert a == a / U32 * U32 + a % U32 && b == b / U32 * U32 + b % U32;
    if (b - a) % U32 == 0 {
      assert b - a == (b - a) / U32 * U32;
    }
  }

  /**
   2^32 calls after a request that is still pending, the answer goes to the old request: one
   request, 2^32 - 1 failed writes, another request, and the answer to that one.
   */
  method OldRequestTakesAnswer(maxPending: nat) returns (c: RpcClientSocket)
    requires maxPending >= 2
    ensures c.Valid() && c.server.answered == [U32 + 1] && 1 in c.done && c.done[1] == Answered(U32 + 1)
  {
    c := TwoRequestsApart(maxPending);
    c.ServerAnswers(U32 + 1);
    assert FirstWith(c.queue, 1, 0);
    assert (U32 + 1) % U32 == 1;
    c.Deliver([]);
  }

  method FailedWrites(c: RpcClientSocket, n: nat)
    requires c.Valid() && c.connected && |c.queue| < c.maxPending
    modifies c`userId, c`queue, c`calls, c`done, c`server, c`clean
    ensures c.Valid() && c.calls == old(c.calls) + n && c.queue == old(c.queue) && c.server == old(c.server)
  {
    for i := 0 to n
      invariant c.Valid() && c.calls == old(c.calls) + i && c.queue == old(c.queue) && c.server == old(c.server)
    {
      c.Send(false);
    }
  }

  method TwoRequestsApart(maxPending: nat) returns (c: RpcClientSocket)
    requires maxPending >= 2
    ensures fresh(c) && c.Valid() && c.connected && c.hand == {} && c.arriving == 0
    ensures c.queue == [Entry(1, 1), Entry(1, U32 + 1)] && c.server == Server({1, U32 + 1}, [], 0)
  {
    c := new RpcClientSocket(maxPending);
    assert 1 % U32 == 1 && (U32 + 1) % U32 == 1;
    c.Send(true);
    FailedWrites(c, U32 - 1);
    c.Send(true);
  }
}
