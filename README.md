# Fable.EdIlyin.Core throttle, in Dafny

A model of the rate-limiting actor of Fable.EdIlyin.Core (`Throttle`) and
the pieces of the compiled bundle it stands on:

- the Fable runtime's immutable cons list `List$1` (its `length` walk,
  `reverse`, `initialize`) — module `FableList`;
- the persistent two-list FIFO queue `Queue(front, back)` with `empty`,
  `push`, `ofList`, `pull` and `length` — module `Queue`, whose abstraction
  function is `front ++ reverse(back)`;
- the runtime's `MailboxProcessor`: the linked `MailboxQueue` that is
  updated in place, the single pending-continuation slot with `receive`,
  `post`, `__processEvents`, and the reply channel of `postAndAsyncReply` —
  module `Mailbox`, with classes where the source mutates objects and a
  value-level state machine (`Inbox`) that the class methods are proved
  against;
- the throttle itself: `Model{quantity, millisecond, queue}`, `start`,
  `_fetch`, `execute` and `body`'s receive loop, as pure step functions
  with the clock as input and the sleep as a recorded delay — module
  `Throttle`;
- JavaScript's `x | 0` coercion (`JsNumber.ToInt32`) and Option/Result
  types (`Wrappers`).

The main results: `pull` is FIFO on the abstraction and never needs more
than one reversal; the mailbox queue and the inbox are FIFO over any run of
posts and receives; a falsy message is dequeued and dropped and a falsy
reply never completes; the throttle never changes `quantity` or
`millisecond`, replies with exactly the work's value, keeps at most
`max(quantity, 1)` readings queued, and — when the host clock honours each
requested sleep — records every dispatch at least `millisecond` after the
dispatch `max(quantity, 1)` places before it (`Throttle.RateLimit`).

Time is an input: each processed `Fetch` comes with the two 32-bit clock
readings `_fetch` and `execute` may take (`Throttle.Readings`). The work
`func()` is an input too: the value it returns, or the error it throws
(`Throttle.Work`). A continuation is an opaque number; calling one is
returned as a `Mailbox.Invocation` or a `Mailbox.Taken` value.

Behaviour of the code worth noting:

- A `func()` that throws leaves `execute` before `channel.reply` and before
  the push. The exception reaches the body's error continuation, which is
  empty. So the loop stops, that caller never gets a reply, and later
  messages are never received (`Throttle.End.Crashed`). The caller is not
  told of the failure, and the actor stops serving.
- Work that returns an asynchronous computation is not awaited.
  `execute` replies with the computation itself, and the caller runs it.
- The sleep is `millisecond - (now - was)` as written, not clamped at 0.
- `quantity` is any 32-bit value after `| 0`. A `quantity <= 0` behaves
  like 1, so the bound is `max(quantity, 1)`, not `quantity`.
- A second `receive` while one is pending throws to that receive's caller
  only. The processor's state is left as it was.
- A throttled `func()` that returns `0`, `false`, `""`, `null` or
  `undefined` is still passed to `channel.reply`, but `checkCompletion`
  calls the waiting caller only with a truthy result. That caller's `add`
  never completes (`Mailbox.AwaitThenReply`, `Mailbox.ReplyThenAwait`).

## Model

| member | source | states |
|---|---|---|
| `JsNumber.ToInt32` | build/tests.bundle.js:2004-2009 | ToInt32, the coercion of a bitwise or with 0: the result is congruent to `x` modulo 2^32 and in the signed 32-bit range; it is `x` when `x` is already in range |
| `FableList.Length` | build/tests.bundle.js:353-361 | the counting walk to the empty sentinel returns the number of elements of the list |
| `FableList.FoldCons` | build/tests.bundle.js:453-468 | folding `(acc, x) => new List$1(x, acc)` over `xs` yields the elements of `xs` reversed, followed by `acc` |
| `FableList.Reverse` | build/tests.bundle.js:620-622 | `reverse` yields the elements in reverse order; it is empty exactly when its input is |
| `FableList.Initialize` | build/tests.bundle.js:606-615 | fails with "List length must be non-negative" exactly when `n < 0`; otherwise the list has `n` elements and element `k` is `f(k)` |
| `Queue.Empty` | build/tests.bundle.js:657-659 | `empty()` holds no elements and has length 0 |
| `Queue.Push` | build/tests.bundle.js:661-663 | `push` leaves `front` unchanged, puts the item at the head of `back`, appends it at the end of the abstraction, and increases `length` by exactly 1 while no 32-bit wrap occurs |
| `Queue.OfList` | build/tests.bundle.js:664-666 | `ofList(list)` is a queue of exactly the list's elements, with an empty back |
| `Queue.Pull` | build/tests.bundle.js:668-679 | `pull` returns `null` exactly when both lists are empty, i.e. the queue is logically empty; otherwise it returns the oldest element and a queue holding exactly the rest; the termination measure shows at most one reversal of `back` |
| `Queue.Length` | build/tests.bundle.js:680-682 | `length` is the element count coerced to 32 bits (ToInt32), so the count itself below 2^31 |
| `Queue.PullReversesOnce` | build/tests.bundle.js:668-679 | with an empty front and a non-empty back, one reversal settles the pull: the head of the reversed back and a queue with an empty back |
| `Queue.Drain` | build/tests.bundle.js:668-679 | pulling until `null` yields the queue's elements in FIFO order |
| `Queue.PushAll` | build/tests.bundle.js:661-663 | pushing a sequence appends it, in order, to the abstraction |
| `Queue.FifoRoundTrip` | build/tests.bundle.js:657-679 | pushing any sequence onto `empty()` and pulling until `null` returns the same sequence |
| `Throttle.Start` | build/tests.bundle.js:2106-2115 | the initial model has `quantity` and `millisecond` coerced to 32 bits (ToInt32) and an empty queue of length 0 |
| `Throttle.Admit` | build/tests.bundle.js:2068-2088 | when `length < quantity` the work runs at once with the model unchanged; otherwise, with an empty queue, also at once and unchanged; otherwise the oldest reading `was` is pulled, the delay is `millisecond - (now - was)`, and the model keeps its parameters and holds the rest of the queue |
| `Throttle.Execute` | build/tests.bundle.js:2059-2066 | replies with exactly the work's value and pushes the clock reading onto the queue, keeping the parameters; a throwing work produces neither the reply nor the push |
| `Throttle.FetchStep` | build/tests.bundle.js:2068-2094 | `_fetch` fails exactly when the work throws; otherwise it replies with the work's value, records the two readings, and keeps `quantity` and `millisecond`; below `quantity` it does not sleep and the queue gains the push reading; at capacity with an empty queue it does not sleep and the queue holds only the push reading; at capacity otherwise it sleeps `millisecond - (now - was)` for the oldest reading `was`, which leaves the queue, and the push reading is appended |
| `Throttle.Loop` | build/tests.bundle.js:2096-2104 | the receive loop serves at most one dispatch per message and never changes `quantity` or `millisecond` |
| `Throttle.LoopReplies` | build/tests.bundle.js:2096-2104 | every `Fetch` before the first `Die` or throwing work is served in order, replying with exactly its work's value and recording its push reading; the loop is still waiting exactly when all messages were served, and it ends on `Die` or on the throwing work |
| `Throttle.StepTracks` | build/tests.bundle.js:2068-2094 | if the queue holds the latest `max(quantity, 1)` readings, one `Fetch` keeps that true with the new reading; once that many readings exist, it sleeps, having pulled the reading `max(quantity, 1)` dispatches back |
| `Throttle.LoopTracks` | build/tests.bundle.js:2096-2104 | over any run the queue keeps exactly the latest `max(quantity, 1)` readings, and with honoured sleeps each new reading is at least `millisecond` after the one `max(quantity, 1)` dispatches earlier |
| `Throttle.RateLimit` | build/tests.bundle.js:2068-2115 | from `start`, with honoured sleeps, dispatch `n` is recorded at least `millisecond` after dispatch `n - max(quantity, 1)` |
| `Throttle.LengthBounded` | build/tests.bundle.js:2064-2115 | from `start`, after any messages the queue holds at most `max(quantity, 1)` readings, `length` equals that count, and the parameters are those of `start` |
| `Mailbox.Truthy` | build/tests.bundle.js:1951-1953 | JavaScript's ToBoolean as `if (value)` applies it: `undefined`, `null`, `false`, `0` and `""` are falsy, everything else is truthy |
| `Mailbox.QueueCell.constructor` | build/tests.bundle.js:1914-1918 | a new cell holds the message and links to no next cell |
| `Mailbox.MailboxQueue.constructor` | build/tests.bundle.js:1919-1943 | a new mailbox queue is valid and empty |
| `Mailbox.MailboxQueue.Add` | build/tests.bundle.js:1920-1929 | `add` links a new cell after the last one: the contents gain the message at the end |
| `Mailbox.MailboxQueue.TryGet` | build/tests.bundle.js:1930-1942 | `tryGet` returns `undefined` on an empty queue and otherwise the oldest message, and leaves the rest; `firstAndLast` is absent exactly when the queue is empty |
| `Mailbox.Inbox.ProcessEvents` | build/tests.bundle.js:1950-1959 | nothing happens without a pending continuation or without messages; otherwise the oldest message is dequeued, and it is handed to the continuation, with the slot cleared, exactly when it is truthy; a falsy one is dropped and the slot stays |
| `Mailbox.Inbox.Receive` | build/tests.bundle.js:1963-1971 | `receive` fails with "Receive can only be called once!" exactly when a continuation is pending; otherwise it fills the slot and processes events |
| `Mailbox.Inbox.Post` | build/tests.bundle.js:1950-1975 | `post` always enqueues; with no continuation pending the message waits at the end of the inbox; with one pending, the oldest message is taken and the rest is the inbox with the message appended; that message goes to the pending continuation, which is cleared, exactly when it is truthy, and a falsy one is dropped with the continuation left waiting |
| `Mailbox.SettledPreserved` | build/tests.bundle.js:1950-1975 | with truthy messages only, `post` and `receive` never leave a continuation waiting while a message is queued |
| `Mailbox.FalsyMessageStalls` | build/tests.bundle.js:1950-1971 | for any inbox with no pending continuation and a falsy message at its head, `receive` dequeues and drops that message, keeps the receiver waiting, and leaves every later message queued, truthy or not |
| `Mailbox.ApplyConserves` | build/tests.bundle.js:1950-1975 | one `post` or `receive` is FIFO: what it dequeues followed by the new inbox is the old inbox followed by what it posted |
| `Mailbox.RunConserves` | build/tests.bundle.js:1950-1975 | over any run of posts and receives, the dequeued messages followed by those still queued are the initial messages followed by the posted ones |
| `Mailbox.RunDeliversTruthy` | build/tests.bundle.js:1950-1959 | over any run, a dequeued message reaches a continuation exactly when it is truthy |
| `Mailbox.MailboxProcessor.constructor` | build/tests.bundle.js:1945-1949 | a new processor has no pending continuation and an empty inbox |
| `Mailbox.MailboxProcessor.ProcessEvents` | build/tests.bundle.js:1950-1959 | the object's slot, inbox and result change as `Inbox.ProcessEvents` says |
| `Mailbox.MailboxProcessor.Receive` | build/tests.bundle.js:1963-1971 | the object changes as `Inbox.Receive` says, and is unchanged when the receive is refused |
| `Mailbox.MailboxProcessor.Post` | build/tests.bundle.js:1972-1975 | the object changes as `Inbox.Post` says |
| `Mailbox.MailboxProcessor.PostAndAsyncReply` | build/tests.bundle.js:1976-1996 | a fresh reply channel with no result and no waiter; the message built around it is posted as by `Inbox.Post` |
| `Mailbox.Completion` | build/tests.bundle.js:1979-1983 | `checkCompletion` calls the waiting continuation with the result exactly when a continuation waits and the result is truthy |
| `Mailbox.ReplyChannel.constructor` | build/tests.bundle.js:1977-1978 | a new channel has an undefined result and no waiting continuation |
| `Mailbox.ReplyChannel.CheckCompletion` | build/tests.bundle.js:1979-1983 | fires as `Completion` of the channel's current state |
| `Mailbox.ReplyChannel.Reply` | build/tests.bundle.js:1984-1989 | `reply(res)` stores the result and fires as `Completion` says |
| `Mailbox.ReplyChannel.Await` | build/tests.bundle.js:1992-1995 | running the returned computation stores the continuation and fires as `Completion` says |
| `Mailbox.ReplyThenAwait` | build/tests.bundle.js:1976-1996 | a reply given before the caller waits completes once the caller waits, exactly when it is truthy |
| `Mailbox.AwaitThenReply` | build/tests.bundle.js:1976-1996 | a waiting caller is called when the reply arrives, exactly when it is truthy: a reply of `0`, `false`, `""`, `null` or `undefined` never completes |

## Left out

- The vendored 64-bit `Long` class: third-party long.js code that relies on floating-point steps.
- The clock (`now`, `ticks`, `fromTicks`, `create`, `nowMilliseconds`): it uses JavaScript `Date` and time zones. The model takes the 32-bit readings as input.
- Throttle.RateLimit: holds for the readings as given. Its premise (each sleep honoured) can fail when the 32-bit millisecond clock wraps, which happens every 2^32 ms.
- The asynchronous runtime (`Trampoline`, `AsyncBuilder`, `protectedCont`, `sleep`, `parallel`, `start*`, cancellation tokens): continuation plumbing over timers and promises. A sleep is recorded as its requested delay, and cancellation does not appear.
- `MailboxProcessor.start` and `start$2`: they only launch the body through the asynchronous runtime. The body's loop is `Throttle.Loop`.
- `add`: it is `postAndAsyncReply` with a `Fetch` message. The mailbox (`Mailbox.MailboxProcessor.PostAndAsyncReply`) and the throttle (`Throttle.Msg.Fetch`) are modelled separately and not joined in one object.
- Continuation bodies: a continuation called from `__processEvents` or `checkCompletion` runs inside that call in JavaScript. The model returns the call instead. The slot is already cleared and the message already dequeued when the call happens, so the state is the same. Exceptions a continuation throws are not modelled.
- The JavaScript values `NaN`, `-0` and non-integral numbers: `Mailbox.JsValue` has integer numbers only.
- JsNumber.ToInt32: takes integers only, so the truncation of a non-integral number by `| 0` (as in `start(2.5, 1000.7)`) and the mapping of `NaN` and infinities to 0 are not modelled.
- Throttle.Start: its parameters are integers, for the same reason as `JsNumber.ToInt32`.
- Reflection, structural equality, comparison and formatting (`setType`, `equals`, `compare`, `toString`, ...): runtime infrastructure.
- The lazy sequence helpers and the timing tests `multipleFunTest`: they depend on wall-clock scheduling.
- The build configuration files.
