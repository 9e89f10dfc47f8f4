/** The persistent two-list FIFO queue `Queue(front, back)` of
    Fable.EdIlyin.Core.Queue.  `front` holds the next elements to pull, in
    order; `back` holds the most recently pushed ones, newest first. */
module Queue {
  import opened Wrappers
  import opened JsNumber
  import opened FableList

  datatype Queue<T> = Queue(front: List<T>, back: List<T>)

  /** The abstraction function: the queue's elements, oldest first. */
  function Contents<T>(q: Queue<T>): seq<T>
  {
    Elems(q.front) + SeqReverse(Elems(q.back))
  }

  /** `empty()`: both lists are the empty sentinel. */
  function Empty<T>(): (q: Queue<T>)
    ensures Contents(q) == []
    ensures Length(q) == 0
  {
    Queue(Nil, Nil)
  }

  /** `push(q, item)`: cons `item` onto `back`, leaving `front` alone. */
  function Push<T>(q: Queue<T>, item: T): (r: Queue<T>)
    ensures r.front == q.front && r.back.Cons? && r.back.head == item && r.back.tail == q.back
    ensures Contents(r) == Contents(q) + [item]
    ensures |Contents(q)| + 1 < TwoTo31 ==> Length(r) == Length(q) + 1
  {
    var r := Queue(q.front, Cons(item, q.back));
    SeqReverseAppend([item], Elems(q.back));
    assert Elems(r.back) == [item] + Elems(q.back);
    r
  }

  /** `ofList(list)`: a queue whose front is `list` and whose back is empty. */
  function OfList<T>(list: List<T>): (q: Queue<T>)
    ensures Contents(q) == Elems(list) && q.back.Nil?
  {
    Queue(list, Nil)
  }

  /** `pull(q)`: the head of `front` and the rest; when `front` is empty,
      reverse `back` into a new front and try again; `null` (here `None`)
      when both lists are empty.  The measure shows that the retry happens
      at most once: after it, `front` is non-empty. */
  function Pull<T>(q: Queue<T>): (r: Option<(T, Queue<T>)>)
    ensures r.None? <==> q.front.Nil? && q.back.Nil?
    ensures r.None? <==> Contents(q) == []
    ensures r.Some? ==> r.value.0 == Contents(q)[0] && Contents(r.value.1) == Contents(q)[1..]
    decreases if q.front.Nil? then 1 else 0
  {
    if q.front.Cons? then
      Some((q.front.head, Queue(q.front.tail, q.back)))
    else if q.back.Nil? then
      None
    else
      SeqReverseLength(Elems(q.back));
      Pull(OfList(Reverse(q.back)))
  }

  /** `length(q)`: the two list lengths added, then coerced with `| 0`. */
  function Length<T>(q: Queue<T>): (n: Int32)
    ensures n == ToInt32(|Contents(q)|)
    ensures |Contents(q)| < TwoTo31 ==> n == |Contents(q)|
  {
    SeqReverseLength(Elems(q.back));
    ToInt32(Len(q.front) + Len(q.back))
  }

  /** When `front` is empty, one reversal of `back` settles the pull: the
      result comes from the reversed list's head, with an empty back. */
  lemma PullReversesOnce<T>(q: Queue<T>)
    requires q.front.Nil? && q.back.Cons?
    ensures Reverse(q.back).Cons?
    ensures Pull(q) == Some((Reverse(q.back).head, Queue(Reverse(q.back).tail, Nil)))
  {
  }

  /** A client that pulls until `pull` answers `null`, collecting the
      elements in the order they come out. */
  function Drain<T>(q: Queue<T>): (out: seq<T>)
    ensures out == Contents(q)
    decreases |Contents(q)|
  {
    match Pull(q)
    case None => []
    case Some((x, rest)) => [x] + Drain(rest)
  }

  /** A client that pushes every element of `xs` in turn. */
  function PushAll<T>(q: Queue<T>, xs: seq<T>): (r: Queue<T>)
    ensures Contents(r) == Contents(q) + xs
    decreases |xs|
  {
    if xs == [] then q
    else
      assert Contents(q) + xs == (Contents(q) + [xs[0]]) + xs[1..];
      PushAll(Push(q, xs[0]), xs[1..])
  }

  /** FIFO round trip: pushing `xs` onto an empty queue and pulling until
      empty yields `xs` again, in order. */
  lemma FifoRoundTrip<T>(xs: seq<T>)
    ensures Drain(PushAll(Empty(), xs)) == xs
  {
  }
}
