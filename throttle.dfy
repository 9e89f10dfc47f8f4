/** The rate-limiting actor of Fable.EdIlyin.Core.Throttle, as a pure state
    transition.  Its state `Model{quantity, millisecond, queue}` records the
    clock reading of every recent dispatch in a persistent queue; a dispatch
    runs at once while fewer than `quantity` readings are queued, and
    otherwise first sleeps until the oldest reading is `millisecond` old. */
module Throttle {
  import opened Wrappers
  import opened JsNumber
  import Q = Queue

  /** The actor's state.  `quantity` and `millisecond` pass through `| 0`
      in the record's constructor, hence `Int32`. */
  datatype Model = Model(quantity: Int32, millisecond: Int32, queue: Q.Queue<Int32>)

  /** The two clock readings (`nowMilliseconds()`, an `Int32`) that one
      `Fetch` may take: `atCheck` in `_fetch`, read only when a reading is
      pulled, and `atPush` in `execute`, after the work has run. */
  datatype Readings = Readings(atCheck: Int32, atPush: Int32)

  /** What `func()` does when `execute` calls it: return a value or throw. */
  datatype Work<V> = Returns(value: V) | Throws(error: string)

  /** The inbox message: `Die` (tag 0) or `Fetch(func, channel)` (tag 1);
      the reply channel is the dispatch's `reply` below. */
  datatype Msg<V> = Die | Fetch(work: Work<V>)

  /** A message as the loop receives it, with the clock readings taken
      while it is processed. */
  datatype Event<V> = Event(msg: Msg<V>, clock: Readings)

  /** `start(quantity, millisecond)`: the initial model, with an empty queue. */
  function Start(quantity: int, millisecond: int): (m: Model)
    ensures m.quantity == ToInt32(quantity) && m.millisecond == ToInt32(millisecond)
    ensures Q.Contents(m.queue) == [] && Q.Length(m.queue) == 0
  {
    Model(ToInt32(quantity), ToInt32(millisecond), Q.Empty())
  }

  /** What the first half of `_fetch` decides: run the work with the model
      as it is, or pull the oldest reading `was` and sleep for `delay`. */
  datatype Admission = RunNow(model: Model) | SleepFirst(was: Int32, delay: int, model: Model)

  function Admit(model: Model, now: Int32): (a: Admission)
    ensures Q.Length(model.queue) < model.quantity ==> a == RunNow(model)
    ensures Q.Length(model.queue) >= model.quantity && Q.Contents(model.queue) == [] ==> a == RunNow(model)
    ensures Q.Length(model.queue) >= model.quantity && Q.Contents(model.queue) != [] ==>
      && a.SleepFirst?
      && a.was == Q.Contents(model.queue)[0]
      && a.delay == model.millisecond - (now - a.was)
      && a.model.quantity == model.quantity && a.model.millisecond == model.millisecond
      && Q.Contents(a.model.queue) == Q.Contents(model.queue)[1..]
  {
    if ToInt32(Q.Length(model.queue)) < model.quantity then
      RunNow(model)
    else
      match Q.Pull(model.queue)
      case None => RunNow(model)
      case Some((was, tail)) =>
        SleepFirst(ToInt32(was), model.millisecond - (now - ToInt32(was)),
                   Model(model.quantity, model.millisecond, tail))
  }

  /** `execute(func, channel, model)`: reply with `func()`'s value, then push
      the clock reading.  A throwing `func` leaves before either happens. */
  function Execute<V>(work: Work<V>, model: Model, now: Int32): (r: Result<(V, Model)>)
    ensures work.Throws? ==> r == Failure(work.error)
    ensures work.Returns? ==> r.Success? && r.value.0 == work.value
    ensures r.Success? ==>
      && r.value.1.quantity == model.quantity && r.value.1.millisecond == model.millisecond
      && Q.Contents(r.value.1.queue) == Q.Contents(model.queue) + [now]
  {
    match work
    case Throws(e) => Failure(e)
    case Returns(v) => Success((v, Model(model.quantity, model.millisecond, Q.Push(model.queue, now))))
  }

  /** One served `Fetch`: the reply sent, the delay slept (if any), and the
      two clock readings. */
  datatype Dispatch<V> = Dispatch(reply: V, slept: Option<int>, checkedAt: Int32, stamp: Int32)

  /** `_fetch(model, func, channel)`: admission, then `execute`. */
  function FetchStep<V>(model: Model, work: Work<V>, clock: Readings): (r: Result<(Dispatch<V>, Model)>)
    ensures work.Throws? <==> r.Failure?
    ensures r.Success? ==>
      && r.value.0.reply == work.value
      && r.value.0.stamp == clock.atPush && r.value.0.checkedAt == clock.atCheck
      && r.value.1.quantity == model.quantity && r.value.1.millisecond == model.millisecond
    ensures r.Success? && Q.Length(model.queue) < model.quantity ==>
      && r.value.0.slept.None?
      && Q.Contents(r.value.1.queue) == Q.Contents(model.queue) + [clock.atPush]
    ensures r.Success? && Q.Length(model.queue) >= model.quantity && Q.Contents(model.queue) == [] ==>
      && r.value.0.slept.None?
      && Q.Contents(r.value.1.queue) == [clock.atPush]
    ensures r.Success? && Q.Length(model.queue) >= model.quantity && Q.Contents(model.queue) != [] ==>
      && r.value.0.slept == Some(model.millisecond - (clock.atCheck - Q.Contents(model.queue)[0]))
      && Q.Contents(r.value.1.queue) == Q.Contents(model.queue)[1..] + [clock.atPush]
  {
    var a := Admit(model, clock.atCheck);
    match Execute(work, a.model, clock.atPush)
    case Failure(e) => Failure(e)
    case Success((reply, next)) =>
      Success((Dispatch(reply, if a.SleepFirst? then Some(a.delay) else None, clock.atCheck, clock.atPush), next))
  }

  /** How the loop of `body` stands after the events given to it: waiting in
      `receive`, ended by `Die`, or stopped by an exception from the work
      (the error reaches the loop's empty error continuation). */
  datatype End = Waiting | Died | Crashed(error: string)

  datatype Trace<V> = Trace(dispatches: seq<Dispatch<V>>, model: Model, end: End)

  /** `body`'s `loop`: receive a message; on `Fetch` run `_fetch` and loop
      with the new model, on any other tag stop. */
  function Loop<V>(state: Model, events: seq<Event<V>>): (t: Trace<V>)
    ensures |t.dispatches| <= |events|
    ensures t.model.quantity == state.quantity && t.model.millisecond == state.millisecond
    decreases |events|
  {
    if events == [] then Trace([], state, Waiting)
    else
      match events[0].msg
      case Die => Trace([], state, Died)
      case Fetch(work) =>
        match FetchStep(state, work, events[0].clock)
        case Failure(e) => Trace([], state, Crashed(e))
        case Success((d, next)) =>
          var rest := Loop(next, events[1..]);
          Trace([d] + rest.dispatches, rest.model, rest.end)
  }

  /** `t` serves `events` faithfully: every `Fetch` before the first `Die`
      or throwing work is served in order, replying with exactly the work's
      value and recording the reading taken after it; the loop ends exactly
      where it says. */
  ghost predicate Serves<V>(events: seq<Event<V>>, t: Trace<V>)
  {
    && |t.dispatches| <= |events|
    && (forall i :: 0 <= i < |t.dispatches| ==>
          && events[i].msg == Fetch(Returns(t.dispatches[i].reply))
          && t.dispatches[i].stamp == events[i].clock.atPush)
    && (t.end == Waiting <==> |t.dispatches| == |events|)
    && (t.end == Died ==> events[|t.dispatches|].msg == Die)
    && (t.end.Crashed? ==> events[|t.dispatches|].msg == Fetch(Throws(t.end.error)))
  }

  lemma {:induction false} LoopReplies<V>(state: Model, events: seq<Event<V>>)
    ensures Serves(events, Loop(state, events))
    decreases |events|
  {
    if events != [] && events[0].msg.Fetch? && events[0].msg.work.Returns? {
      var r := FetchStep(state, events[0].msg.work, events[0].clock);
      LoopServes(state, events);
      LoopReplies(r.value.1, events[1..]);
      ServesCons(events, r.value.0, Loop(r.value.1, events[1..]));
    }
  }

  lemma ServesCons<V>(events: seq<Event<V>>, d: Dispatch<V>, rest: Trace<V>)
    requires events != [] && events[0].msg == Fetch(Returns(d.reply)) && d.stamp == events[0].clock.atPush
    requires Serves(events[1..], rest)
    ensures Serves(events, Trace([d] + rest.dispatches, rest.model, rest.end))
  {
    var ds := [d] + rest.dispatches;
    forall i | 1 <= i < |ds|
      ensures events[i] == events[1..][i - 1] && ds[i] == rest.dispatches[i - 1]
    {
    }
  }

  // ---------------------------------------------------------------------
  // Window discipline and the rate limit

  function Min(a: int, b: int): (r: int)
    ensures r <= a && r <= b && (r == a || r == b)
  {
    if a <= b then a else b
  }

  function Max(a: int, b: int): (r: int)
    ensures r >= a && r >= b && (r == a || r == b)
  {
    if a >= b then a else b
  }

  /** The number of readings the queue settles at: `quantity`, or 1 when
      `quantity <= 0` (every dispatch then pulls the previous reading). */
  function Cap(m: Model): (c: nat)
    ensures c >= 1 && c >= m.quantity && c < TwoTo31
  {
    Max(m.quantity, 1)
  }

  /** The last `k` elements of `h` (all of `h` when it is shorter). */
  function Window<T>(h: seq<T>, k: nat): (w: seq<T>)
    ensures |w| == Min(|h|, k)
  {
    h[|h| - Min(|h|, k)..]
  }

  /** The model's queue holds exactly the latest `Cap` readings of `h`. */
  ghost predicate Tracks(m: Model, h: seq<Int32>)
  {
    Q.Contents(m.queue) == Window(h, Cap(m))
  }

  /** The readings the dispatches pushed, in order. */
  function Stamps<V>(ds: seq<Dispatch<V>>): (s: seq<Int32>)
    ensures |s| == |ds|
  {
    seq(|ds|, i requires 0 <= i < |ds| => ds[i].stamp)
  }

  /** The host clock kept every sleep: the reading after the work is at
      least the reading before the sleep plus the requested delay. */
  ghost predicate SleepsHonoured<V>(ds: seq<Dispatch<V>>)
  {
    forall i :: 0 <= i < |ds| && ds[i].slept.Some? ==> ds[i].stamp >= ds[i].checkedAt + ds[i].slept.value
  }

  /** One `Fetch` keeps the queue on the latest readings; once `Cap`
      readings exist it sleeps, having pulled the one `Cap` dispatches back. */
  lemma StepTracks<V>(state: Model, work: Work<V>, clock: Readings, h: seq<Int32>)
    requires Tracks(state, h)
    requires work.Returns?
    ensures var r := FetchStep(state, work, clock);
      && r.Success?
      && Tracks(r.value.1, h + [clock.atPush])
      && (|h| >= Cap(state) ==>
            && r.value.0.slept.Some?
            && r.value.0.slept.value == state.millisecond - (clock.atCheck - h[|h| - Cap(state)]))
  {
    var c := Q.Contents(state.queue);
    var cap := Cap(state);
    var a := Admit(state, clock.atCheck);
    var hs := h + [clock.atPush];
    assert Q.Length(state.queue) == |c|;
    if |c| < state.quantity {
      assert |h| < cap;
      assert c == h;
      assert Window(hs, cap) == hs;
    } else if c == [] {
      assert |h| == 0 && cap == 1;
      assert hs == [clock.atPush];
    } else {
      assert |c| == cap && |h| >= cap;
      assert a.SleepFirst? && a.was == h[|h| - cap];
      assert Window(hs, cap) == c[1..] + [clock.atPush];
    }
  }

  /** Readings from index `from` on are each at least `w` after the one
      `cap` positions earlier. */
  ghost predicate SpacedFrom(all: seq<Int32>, from: nat, cap: nat, w: int)
  {
    forall n :: from <= n < |all| && cap <= n ==> SpacedAt(all, n, cap, w)
  }

  /** Reading `n` is at least `w` after reading `n - cap`. */
  ghost predicate SpacedAt(all: seq<Int32>, n: nat, cap: nat, w: int)
    requires cap <= n < |all|
  {
    all[n] >= all[n - cap] + w
  }

  lemma SpacedExtend(h: seq<Int32>, s: Int32, rest: seq<Int32>, cap: nat, w: int)
    requires cap >= 1
    requires |h| >= cap ==> s >= h[|h| - cap] + w
    requires SpacedFrom((h + [s]) + rest, |h| + 1, cap, w)
    ensures SpacedFrom(h + ([s] + rest), |h|, cap, w)
  {
    var all := h + ([s] + rest);
    assert all == (h + [s]) + rest;
    forall n | |h| <= n < |all| && cap <= n
      ensures SpacedAt(all, n, cap, w)
    {
      if n == |h| {
        assert all[n] == s && all[n - cap] == h[|h| - cap];
      } else {
        assert SpacedAt((h + [s]) + rest, n, cap, w);
      }
    }
  }

  lemma HonouredTail<V>(ds: seq<Dispatch<V>>)
    requires ds != [] && SleepsHonoured(ds)
    ensures SleepsHonoured(ds[1..])
    ensures ds[0].slept.Some? ==> ds[0].stamp >= ds[0].checkedAt + ds[0].slept.value
  {
    forall i | 0 <= i < |ds[1..]| && ds[1..][i].slept.Some?
      ensures ds[1..][i].stamp >= ds[1..][i].checkedAt + ds[1..][i].slept.value
    {
      assert ds[1..][i] == ds[i + 1];
    }
  }

  /** Induction over the events: the queue tracks the readings, and each
      new reading is at least `millisecond` after the one `Cap` dispatches
      earlier. */
  lemma {:induction false} LoopTracks<V>(state: Model, events: seq<Event<V>>, h: seq<Int32>)
    requires Tracks(state, h)
    ensures var t := Loop(state, events);
      && Tracks(t.model, h + Stamps(t.dispatches))
      && (SleepsHonoured(t.dispatches) ==> SpacedFrom(h + Stamps(t.dispatches), |h|, Cap(state), state.millisecond))
    decreases |events|
  {
    if events != [] && events[0].msg.Fetch? && events[0].msg.work.Returns? {
      var e := events[0];
      StepTracks(state, e.msg.work, e.clock, h);
      var r := FetchStep(state, e.msg.work, e.clock);
      var d, next := r.value.0, r.value.1;
      LoopTracks(next, events[1..], h + [d.stamp]);
      LoopServes(state, events);
      var rest := Loop(next, events[1..]).dispatches;
      assert Cap(next) == Cap(state) && next.millisecond == state.millisecond;
      assert SleepsHonoured(rest) ==>
        SpacedFrom((h + [d.stamp]) + Stamps(rest), |h| + 1, Cap(state), state.millisecond);
      LoopStepSpaced(state, h, d, rest);
      StampsCons(h, d, rest);
    } else {
      LoopStops(state, events);
      assert h + [] == h;
    }
  }

  lemma StampsCons<V>(h: seq<Int32>, d: Dispatch<V>, rest: seq<Dispatch<V>>)
    ensures h + Stamps([d] + rest) == (h + [d.stamp]) + Stamps(rest)
  {
    assert Stamps([d] + rest) == [d.stamp] + Stamps(rest);
  }

  lemma LoopServes<V>(state: Model, events: seq<Event<V>>)
    requires events != [] && events[0].msg.Fetch? && events[0].msg.work.Returns?
    ensures var r := FetchStep(state, events[0].msg.work, events[0].clock);
      && r.Success?
      && var rest := Loop(r.value.1, events[1..]);
         Loop(state, events) == Trace([r.value.0] + rest.dispatches, rest.model, rest.end)
  {
  }

  lemma LoopStops<V>(state: Model, events: seq<Event<V>>)
    requires !(events != [] && events[0].msg.Fetch? && events[0].msg.work.Returns?)
    ensures Loop(state, events).dispatches == [] && Loop(state, events).model == state
  {
  }

  lemma LoopStepSpaced<V>(state: Model, h: seq<Int32>, d: Dispatch<V>, rest: seq<Dispatch<V>>)
    requires |h| >= Cap(state) ==> d.slept.Some? && d.slept.value == state.millisecond - (d.checkedAt - h[|h| - Cap(state)])
    requires SleepsHonoured(rest) ==> SpacedFrom((h + [d.stamp]) + Stamps(rest), |h| + 1, Cap(state), state.millisecond)
    ensures Stamps([d] + rest) == [d.stamp] + Stamps(rest)
    ensures SleepsHonoured([d] + rest) ==> SpacedFrom(h + Stamps([d] + rest), |h|, Cap(state), state.millisecond)
  {
    assert ([d] + rest)[1..] == rest;
    if SleepsHonoured([d] + rest) {
      HonouredTail([d] + rest);
      SpacedExtend(h, d.stamp, Stamps(rest), Cap(state), state.millisecond);
    }
  }

  /** Rate limit: from `start`, every recorded reading is at least
      `millisecond` after the one `Cap` dispatches before it, so no more
      than `Cap` dispatches fall in any window shorter than `millisecond`. */
  lemma RateLimit<V>(quantity: int, millisecond: int, events: seq<Event<V>>)
    ensures var m := Start(quantity, millisecond);
      var t := Loop(m, events);
      SleepsHonoured(t.dispatches) ==>
        forall i, j :: 0 <= i && i + Cap(m) == j < |t.dispatches| ==>
          t.dispatches[j].stamp >= t.dispatches[i].stamp + m.millisecond
  {
    var m := Start(quantity, millisecond);
    LoopTracks(m, events, []);
    var ds := Loop(m, events).dispatches;
    if SleepsHonoured(ds) {
      SpacedDispatches(ds, Cap(m), m.millisecond);
    }
  }

  lemma SpacedPairs(all: seq<Int32>, cap: nat, w: int)
    requires SpacedFrom(all, 0, cap, w)
    ensures forall i, j :: 0 <= i && i + cap == j < |all| ==> all[j] >= all[i] + w
  {
    forall i, j | 0 <= i && i + cap == j < |all|
      ensures all[j] >= all[i] + w
    {
      assert SpacedAt(all, j, cap, w);
    }
  }

  lemma SpacedDispatches<V>(ds: seq<Dispatch<V>>, cap: nat, w: int)
    requires SpacedFrom([] + Stamps(ds), 0, cap, w)
    ensures forall i, j :: 0 <= i && i + cap == j < |ds| ==> ds[j].stamp >= ds[i].stamp + w
  {
    var all := Stamps(ds);
    assert [] + all == all;
    SpacedPairs(all, cap, w);
    forall i, j | 0 <= i && i + cap == j < |ds|
      ensures ds[j].stamp >= ds[i].stamp + w
    {
      assert all[i] == ds[i].stamp && all[j] == ds[j].stamp;
    }
  }

  /** From `start`, the queue never holds more than `max(quantity, 1)`
      readings, and its `length` is that count (no 32-bit wrap). */
  lemma LengthBounded<V>(quantity: int, millisecond: int, events: seq<Event<V>>)
    ensures var m := Start(quantity, millisecond);
      var t := Loop(m, events);
      && |Q.Contents(t.model.queue)| <= Max(m.quantity, 1)
      && Q.Length(t.model.queue) == |Q.Contents(t.model.queue)|
      && t.model.quantity == m.quantity && t.model.millisecond == m.millisecond
  {
    var m := Start(quantity, millisecond);
    LoopTracks(m, events, []);
  }
}
