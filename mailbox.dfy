/** The Fable runtime's `MailboxProcessor`: an inbox of messages kept in a
    singly linked queue (`MailboxQueue`), one pending-continuation slot, and
    the reply channel of `postAndAsyncReply`.  JavaScript runs all of it on
    one thread, so it is modelled as sequential state changes; a
    continuation is an opaque token, and calling one is reported as an
    `Invocation` the caller then carries out. */
module Mailbox {
  import opened Wrappers

  /** The JavaScript values a message or a reply can be.  Numbers are
      integers here, so `NaN` and `-0` are not represented; `Obj` stands for
      any object or function. */
  datatype JsValue = Undefined | Null | Bool(b: bool) | Num(n: int) | Str(s: string) | Obj(ref: object)

  /** JavaScript's ToBoolean, which `if (value)` applies. */
  predicate Truthy(v: JsValue)
  {
    match v
    case Undefined => false
    case Null => false
    case Bool(b) => b
    case Num(n) => n != 0
    case Str(s) => s != ""
    case Obj(_) => true
  }

  // ---------------------------------------------------------------------
  // MailboxQueue: a linked FIFO updated in place

  class QueueCell<T> {
    const value: T
    var next: QueueCell?<T>

    constructor (message: T)
      ensures value == message && next == null
    {
      value := message;
      next := null;
    }
  }

  /** `firstAndLast` is absent when the queue is empty and otherwise holds
      its first and last cells; the ghost `cells` lists the chain between. */
  class MailboxQueue<T> {
    var firstAndLast: Option<(QueueCell<T>, QueueCell<T>)>
    ghost var cells: seq<QueueCell<T>>
    ghost var Contents: seq<T>
    ghost var Repr: set<object>

    ghost predicate Valid()
      reads this, Repr
    {
      && this in Repr
      && |cells| == |Contents|
      && (forall i :: 0 <= i < |cells| ==> cells[i] in Repr && cells[i].value == Contents[i])
      && (forall i :: 0 <= i < |cells| - 1 ==> cells[i].next == cells[i + 1])
      && (cells == [] <==> firstAndLast.None?)
      && (cells != [] ==>
            && firstAndLast.value.0 == cells[0]
            && firstAndLast.value.1 == cells[|cells| - 1]
            && cells[|cells| - 1].next == null)
    }

    constructor ()
      ensures Valid() && fresh(Repr) && Contents == []
    {
      firstAndLast := None;
      cells := [];
      Contents := [];
      Repr := {this};
    }

    /** `add(message)`: link a new cell after the last one. */
    method Add(message: T)
      requires Valid()
      modifies Repr
      ensures Valid() && fresh(Repr - old(Repr))
      ensures Contents == old(Contents) + [message]
    {
      var itCell := new QueueCell(message);
      if firstAndLast.Some? {
        var last := firstAndLast.value.1;
        assert forall i :: 0 <= i < |cells| - 1 ==> cells[i] != last by {
          forall i | 0 <= i < |cells| - 1 ensures cells[i] != last {
            assert cells[i].next == cells[i + 1];
          }
        }
        last.next := itCell;
        firstAndLast := Some((firstAndLast.value.0, itCell));
      } else {
        firstAndLast := Some((itCell, itCell));
      }
      cells := cells + [itCell];
      Contents := Contents + [message];
      Repr := Repr + {itCell};
    }

    /** `tryGet()`: the first message, unlinking its cell; `undefined`
        (here `None`) on an empty queue.  Taking the last cell deletes
        `firstAndLast`. */
    method TryGet() returns (r: Option<T>)
      requires Valid()
      modifies this
      ensures Valid() && Repr == old(Repr)
      ensures old(Contents) == [] ==> r == None && Contents == []
      ensures old(Contents) != [] ==> r == Some(old(Contents)[0]) && Contents == old(Contents)[1..]
      ensures firstAndLast.None? <==> Contents == []
    {
      if firstAndLast.Some? {
        var first := firstAndLast.value.0;
        var value := first.value;
        assert |cells| > 1 ==> first.next == cells[1];
        if first.next != null {
          firstAndLast := Some((first.next, firstAndLast.value.1));
        } else {
          firstAndLast := None;
        }
        cells := cells[1..];
        Contents := Contents[1..];
        return Some(value);
      }
      return None;
    }
  }

  // ---------------------------------------------------------------------
  // The processor's state machine, as values

  /** A continuation called with a message. */
  datatype Invocation = Invoked(cont: nat, arg: JsValue)

  /** A message `__processEvents` dequeued, and the continuation it was
      handed to (`None` when the message was falsy and so dropped). */
  datatype Taken = Taken(message: JsValue, deliveredTo: Option<nat>)

  /** The processor's state: the pending continuation (at most one) and
      the inbox contents, oldest first. */
  datatype Inbox = Inbox(continuation: Option<nat>, messages: seq<JsValue>) {

    /** `__processEvents()`: only with a pending continuation, dequeue one
        message; if it is truthy, clear the slot and call the continuation
        with it. */
    function ProcessEvents(): (r: (Inbox, Option<Taken>))
      ensures continuation.None? || messages == [] ==> r == (this, None)
      ensures continuation.Some? && messages != [] ==>
        && r.0.messages == messages[1..]
        && r.1.Some? && r.1.value.message == messages[0]
      ensures r.1.Some? ==> (r.1.value.deliveredTo.Some? <==> Truthy(r.1.value.message))
      ensures r.1.Some? && r.1.value.deliveredTo.Some? ==>
        r.1.value.deliveredTo == continuation && r.0.continuation.None?
      ensures !(r.1.Some? && r.1.value.deliveredTo.Some?) ==> r.0.continuation == continuation
    {
      if continuation.None? || messages == [] then
        (this, None)
      else if Truthy(messages[0]) then
        (Inbox(None, messages[1..]), Some(Taken(messages[0], continuation)))
      else
        (Inbox(continuation, messages[1..]), Some(Taken(messages[0], None)))
    }

    /** Running `receive()` with continuation `k`: refused while another
        continuation is pending; otherwise fill the slot and process. */
    function Receive(k: nat): (r: Result<(Inbox, Option<Taken>)>)
      ensures r.Failure? <==> continuation.Some?
      ensures r.Failure? ==> r.error == "Receive can only be called once!"
      ensures r.Success? ==> r.value == Inbox(Some(k), messages).ProcessEvents()
    {
      if continuation.Some? then Failure("Receive can only be called once!")
      else Success(Inbox(Some(k), messages).ProcessEvents())
    }

    /** `post(message)`: enqueue, then process. */
    function Post(message: JsValue): (r: (Inbox, Option<Taken>))
      ensures continuation.None? ==> r == (Inbox(None, messages + [message]), None)
      ensures continuation.Some? ==>
        r.1.Some? && [r.1.value.message] + r.0.messages == messages + [message]
      ensures continuation.Some? ==>
        && (r.1.value.deliveredTo.Some? <==> Truthy(r.1.value.message))
        && (Truthy(r.1.value.message) ==> r.1.value.deliveredTo == continuation && r.0.continuation.None?)
        && (!Truthy(r.1.value.message) ==> r.0.continuation == continuation)
    {
      Inbox(continuation, messages + [message]).ProcessEvents()
    }
  }

  /** No continuation waits while a message that could be handed to it
      sits in the inbox. */
  ghost predicate Settled(s: Inbox)
  {
    s.continuation.Some? ==> s.messages == []
  }

  ghost predicate AllTruthy(ms: seq<JsValue>)
  {
    forall i :: 0 <= i < |ms| ==> Truthy(ms[i])
  }

  /** With truthy messages only, `post` and `receive` keep the processor
      settled, and a message is dropped only if falsy. */
  lemma SettledPreserved(s: Inbox, m: JsValue, k: nat)
    requires Settled(s) && AllTruthy(s.messages) && Truthy(m)
    ensures Settled(s.Post(m).0) && AllTruthy(s.Post(m).0.messages)
    ensures s.Receive(k).Success? ==>
      Settled(s.Receive(k).value.0) && AllTruthy(s.Receive(k).value.0.messages)
  {
    if s.continuation.None? {
      assert s.Post(m).0.messages == s.messages + [m];
      assert AllTruthy(s.messages + [m]) by {
        forall i | 0 <= i < |s.messages + [m]| ensures Truthy((s.messages + [m])[i]) {
          if i < |s.messages| {
            assert (s.messages + [m])[i] == s.messages[i];
          }
        }
      }
      if s.messages != [] {
        assert s.Receive(k).value.0.messages == s.messages[1..];
        assert Truthy(s.messages[0]);
        assert AllTruthy(s.messages[1..]) by {
          forall i | 0 <= i < |s.messages[1..]| ensures Truthy(s.messages[1..][i]) {
            assert s.messages[1..][i] == s.messages[i + 1];
          }
        }
      }
    }
  }

  /** A falsy message at the head stalls the inbox: `receive` dequeues and
      drops it, the receiver keeps waiting, and the messages behind it, even
      truthy ones, stay queued until something else calls `__processEvents`. */
  lemma FalsyMessageStalls(s: Inbox, k: nat)
    requires s.continuation.None? && s.messages != [] && !Truthy(s.messages[0])
    ensures s.Receive(k) == Success((Inbox(Some(k), s.messages[1..]), Some(Taken(s.messages[0], None))))
  {
  }

  // ---------------------------------------------------------------------
  // Runs of posts and receives

  datatype Op = PostOp(message: JsValue) | ReceiveOp(cont: nat)

  function Apply(s: Inbox, op: Op): (r: (Inbox, Option<Taken>))
  {
    match op
    case PostOp(m) => s.Post(m)
    case ReceiveOp(k) =>
      match s.Receive(k)
      case Failure(_) => (s, None)
      case Success(r) => r
  }

  function Posted(ops: seq<Op>): seq<JsValue>
  {
    if ops == [] then [] else PostedBy(ops[0]) + Posted(ops[1..])
  }

  function Messages(ts: seq<Taken>): seq<JsValue>
  {
    if ts == [] then [] else [ts[0].message] + Messages(ts[1..])
  }

  /** The dequeued message of one step, as a sequence of zero or one. */
  function TakenSeq(t: Option<Taken>): seq<Taken>
  {
    if t.Some? then [t.value] else []
  }

  /** Apply the operations in turn (a refused `receive` changes nothing),
      collecting every dequeued message. */
  function Run(s: Inbox, ops: seq<Op>): (r: (Inbox, seq<Taken>))
    decreases |ops|
  {
    if ops == [] then (s, [])
    else
      var a := Apply(s, ops[0]);
      var rest := Run(a.0, ops[1..]);
      (rest.0, TakenSeq(a.1) + rest.1)
  }

  function PostedBy(op: Op): seq<JsValue>
  {
    if op.PostOp? then [op.message] else []
  }

  /** One step is FIFO: what it dequeues, followed by the new inbox, is the
      old inbox followed by what it posted. */
  lemma ApplyConserves(s: Inbox, op: Op)
    ensures Messages(TakenSeq(Apply(s, op).1)) + Apply(s, op).0.messages == s.messages + PostedBy(op)
  {
    if op.ReceiveOp? && s.continuation.None? && s.messages != [] {
      assert s.messages == [s.messages[0]] + s.messages[1..];
    }
  }

  lemma {:induction false} MessagesAppend(a: seq<Taken>, b: seq<Taken>)
    ensures Messages(a + b) == Messages(a) + Messages(b)
  {
    if a != [] {
      assert (a + b)[1..] == a[1..] + b;
      assert (a + b)[0] == a[0];
      MessagesAppend(a[1..], b);
      assert Messages(a + b) == [a[0].message] + Messages(a[1..] + b);
    } else {
      assert a + b == b;
    }
  }

  /** The inbox is FIFO over any run: the messages dequeued, in order,
      followed by those still queued, are the initial messages followed by
      the posted ones; nothing is lost or reordered. */
  lemma {:induction false} RunConserves(s: Inbox, ops: seq<Op>)
    ensures Messages(Run(s, ops).1) + Run(s, ops).0.messages == s.messages + Posted(ops)
    decreases |ops|
  {
    if ops != [] {
      var a := Apply(s, ops[0]);
      var rest := Run(a.0, ops[1..]);
      ApplyConserves(s, ops[0]);
      RunConserves(a.0, ops[1..]);
      MessagesAppend(TakenSeq(a.1), rest.1);
      assert Posted(ops) == PostedBy(ops[0]) + Posted(ops[1..]);
      ConcatShift(Messages(TakenSeq(a.1)), Messages(rest.1), rest.0.messages,
                  a.0.messages, s.messages, PostedBy(ops[0]), Posted(ops[1..]));
    }
  }

  /** Regrouping of concatenations used by the FIFO proofs. */
  lemma ConcatShift<T>(x: seq<T>, y: seq<T>, z: seq<T>, m: seq<T>, s: seq<T>, p: seq<T>, q: seq<T>)
    requires x + m == s + p
    requires y + z == m + q
    ensures (x + y) + z == s + (p + q)
  {
    calc {
      (x + y) + z;
      x + (y + z);
      x + (m + q);
      (x + m) + q;
      (s + p) + q;
    }
  }

  /** Over any run, a dequeued message reaches a continuation exactly when
      it is truthy. */
  lemma {:induction false} RunDeliversTruthy(s: Inbox, ops: seq<Op>)
    ensures forall i :: 0 <= i < |Run(s, ops).1| ==>
      (Run(s, ops).1[i].deliveredTo.Some? <==> Truthy(Run(s, ops).1[i].message))
    decreases |ops|
  {
    if ops != [] {
      var a := Apply(s, ops[0]);
      RunDeliversTruthy(a.0, ops[1..]);
      var t, ts := a.1, Run(a.0, ops[1..]).1;
      var all := TakenSeq(t) + ts;
      forall i | 0 <= i < |all|
        ensures all[i].deliveredTo.Some? <==> Truthy(all[i].message)
      {
        if t.Some? && i > 0 {
          assert all[i] == ts[i - 1];
        }
      }
    }
  }

  // ---------------------------------------------------------------------
  // The processor object

  /** `MailboxProcessor`: the continuation slot `continuation` and the
      inbox `messages`. */
  class MailboxProcessor {
    var continuation: Option<nat>
    const messages: MailboxQueue<JsValue>
    ghost var Repr: set<object>

    ghost predicate Valid()
      reads this, Repr
    {
      && this in Repr && messages in Repr && messages.Repr <= Repr
      && this !in messages.Repr && messages.Valid()
    }

    ghost function State(): Inbox
      reads this, messages
    {
      Inbox(continuation, messages.Contents)
    }

    constructor ()
      ensures Valid() && fresh(Repr) && State() == Inbox(None, [])
    {
      continuation := None;
      messages := new MailboxQueue();
      new;
      Repr := {this} + messages.Repr;
    }

    /** `__processEvents()`. */
    method ProcessEvents() returns (t: Option<Taken>)
      requires Valid()
      modifies Repr
      ensures Valid() && fresh(Repr - old(Repr))
      ensures (State(), t) == old(State()).ProcessEvents()
    {
      t := None;
      if continuation.Some? {
        var value := messages.TryGet();
        if value.Some? && Truthy(value.value) {
          var cont := continuation.value;
          continuation := None;
          t := Some(Taken(value.value, Some(cont)));
        } else if value.Some? {
          t := Some(Taken(value.value, None));
        }
      }
    }

    /** Running the computation `receive()` returns, with continuation `k`. */
    method Receive(k: nat) returns (r: Result<Option<Taken>>)
      requires Valid()
      modifies Repr
      ensures Valid() && fresh(Repr - old(Repr))
      ensures match old(State()).Receive(k)
        case Failure(e) => r == Failure(e) && State() == old(State())
        case Success((s, t)) => r == Success(t) && State() == s
    {
      if continuation.Some? {
        return Failure("Receive can only be called once!");
      }
      continuation := Some(k);
      var t := ProcessEvents();
      r := Success(t);
    }

    /** `post(message)`. */
    method Post(message: JsValue) returns (t: Option<Taken>)
      requires Valid()
      modifies Repr
      ensures Valid() && fresh(Repr - old(Repr))
      ensures (State(), t) == old(State()).Post(message)
    {
      messages.Add(message);
      Repr := Repr + messages.Repr;
      t := ProcessEvents();
    }

    /** `postAndAsyncReply(buildMessage)`: make a reply channel, post the
        message built around it, and hand back the channel, whose `Await`
        is the computation returned to the caller. */
    method PostAndAsyncReply(buildMessage: ReplyChannel -> JsValue) returns (channel: ReplyChannel, t: Option<Taken>)
      requires Valid()
      modifies Repr
      ensures Valid() && fresh(Repr - old(Repr))
      ensures fresh(channel) && channel.result == Undefined && channel.continuation.None?
      ensures (State(), t) == old(State()).Post(buildMessage(channel))
    {
      channel := new ReplyChannel();
      messages.Add(buildMessage(channel));
      Repr := Repr + messages.Repr;
      t := ProcessEvents();
    }
  }

  // ---------------------------------------------------------------------
  // The reply channel of postAndAsyncReply

  /** What `checkCompletion()` does: call the waiting continuation with the
      result only when both are set and the result is truthy. */
  function Completion(result: JsValue, continuation: Option<nat>): (f: Option<Invocation>)
    ensures f.Some? <==> Truthy(result) && continuation.Some?
    ensures f.Some? ==> f.value == Invoked(continuation.value, result)
  {
    if Truthy(result) && continuation.Some? then Some(Invoked(continuation.value, result)) else None
  }

  /** The closure state of one `postAndAsyncReply` call: `result` (set by
      `reply`) and `continuation` (set when the returned computation runs). */
  class ReplyChannel {
    var result: JsValue
    var continuation: Option<nat>

    constructor ()
      ensures result == Undefined && continuation.None?
    {
      result := Undefined;
      continuation := None;
    }

    method CheckCompletion() returns (fired: Option<Invocation>)
      ensures fired == Completion(result, continuation)
    {
      fired := Completion(result, continuation);
    }

    /** `reply.reply(res)`. */
    method Reply(res: JsValue) returns (fired: Option<Invocation>)
      modifies this
      ensures result == res && continuation == old(continuation)
      ensures fired == Completion(res, old(continuation))
    {
      result := res;
      fired := CheckCompletion();
    }

    /** Running the computation `postAndAsyncReply` returned, with
        continuation `k`. */
    method Await(k: nat) returns (fired: Option<Invocation>)
      modifies this
      ensures continuation == Some(k) && result == old(result)
      ensures fired == Completion(old(result), Some(k))
    {
      continuation := Some(k);
      fired := CheckCompletion();
    }
  }

  /** A reply that arrives before the caller waits completes when the
      caller waits, and only if it is truthy. */
  method ReplyThenAwait(v: JsValue, k: nat) returns (first: Option<Invocation>, second: Option<Invocation>)
    ensures first == None
    ensures second == if Truthy(v) then Some(Invoked(k, v)) else None
  {
    var channel := new ReplyChannel();
    first := channel.Reply(v);
    second := channel.Await(k);
  }

  /** A caller that waits first is called when the reply arrives, and only
      if it is truthy: a reply of `0`, `false`, `""`, `null` or `undefined`
      never completes. */
  method AwaitThenReply(v: JsValue, k: nat) returns (first: Option<Invocation>, second: Option<Invocation>)
    ensures first == None
    ensures second == if Truthy(v) then Some(Invoked(k, v)) else None
  {
    var channel := new ReplyChannel();
    first := channel.Await(k);
    second := channel.Reply(v);
  }
}
