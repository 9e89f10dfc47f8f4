/** The immutable cons list of the Fable runtime (`List$1`).  A node whose
    `tail` is `null` is the empty list; every other node carries a `head`
    and a `tail`.  `Nil` is that sentinel node. */
module FableList {
  import opened Wrappers

  datatype List<T> = Nil | Cons(head: T, tail: List<T>)

  /** The elements of a list, in order (what its iterator yields). */
  function Elems<T>(xs: List<T>): seq<T>
  {
    match xs
    case Nil => []
    case Cons(h, t) => [h] + Elems(t)
  }

  /** The number of non-sentinel nodes. */
  function Len<T>(xs: List<T>): (n: nat)
    ensures n == |Elems(xs)|
  {
    match xs
    case Nil => 0
    case Cons(_, t) => 1 + Len(t)
  }

  /** Reference reversal of a sequence. */
  function SeqReverse<T>(s: seq<T>): (r: seq<T>)
  {
    if s == [] then [] else SeqReverse(s[1..]) + [s[0]]
  }

  lemma {:induction false} SeqReverseAt<T>(s: seq<T>, k: nat)
    requires k < |s|
    ensures |SeqReverse(s)| == |s| && SeqReverse(s)[k] == s[|s| - 1 - k]
  {
    SeqReverseLength(s);
    if k < |s| - 1 {
      SeqReverseAt(s[1..], k);
    }
  }

  lemma {:induction false} SeqReverseLength<T>(s: seq<T>)
    ensures |SeqReverse(s)| == |s|
  {
    if s != [] {
      SeqReverseLength(s[1..]);
    }
  }

  /** Reversing a concatenation reverses and swaps the parts. */
  lemma {:induction false} SeqReverseAppend<T>(a: seq<T>, b: seq<T>)
    ensures SeqReverse(a + b) == SeqReverse(b) + SeqReverse(a)
  {
    if a == [] {
      assert a + b == b;
    } else {
      assert (a + b)[1..] == a[1..] + b;
      assert (a + b)[0] == a[0];
      SeqReverseAppend(a[1..], b);
    }
  }

  /** `get length()` of `List$1`: walk the nodes until the sentinel,
      counting them. */
  method Length<T>(xs: List<T>) returns (n: nat)
    ensures n == |Elems(xs)|
  {
    var cur := xs;
    n := 0;
    while cur.Cons?
      invariant n + Len(cur) == Len(xs)
      decreases Len(cur)
    {
      cur := cur.tail;
      n := n + 1;
    }
  }

  /** The step of `reverse`'s fold: `fold$1((acc, x) => new List$1(x, acc), acc, xs)`. */
  function FoldCons<T>(acc: List<T>, xs: List<T>): (r: List<T>)
    ensures Elems(r) == SeqReverse(Elems(xs)) + Elems(acc)
    decreases xs
  {
    match xs
    case Nil => acc
    case Cons(h, t) =>
      var r := FoldCons(Cons(h, acc), t);
      assert Elems(xs) == [h] + Elems(t);
      SeqReverseAppend([h], Elems(t));
      r
  }

  /** `reverse(xs)`: fold the list into a fresh one, consing each element. */
  function Reverse<T>(xs: List<T>): (r: List<T>)
    ensures Elems(r) == SeqReverse(Elems(xs))
    ensures r.Nil? <==> xs.Nil?
  {
    SeqReverseLength(Elems(xs));
    FoldCons(Nil, xs)
  }

  /** `List.initialize(n, f)`: throws when `n < 0`; otherwise a `for` loop
      conses `f(n - i)` for `i = 1 .. n`, giving `[f(0), ..., f(n - 1)]`. */
  method Initialize<T>(n: int, f: int -> T) returns (r: Result<List<T>>)
    ensures n < 0 <==> r.Failure?
    ensures n < 0 ==> r.error == "List length must be non-negative"
    ensures r.Success? ==> |Elems(r.value)| == n
    ensures r.Success? ==> forall k :: 0 <= k < n ==> Elems(r.value)[k] == f(k)
  {
    if n < 0 {
      return Failure("List length must be non-negative");
    }
    var xs: List<T> := Nil;
    for i := 1 to n + 1
      invariant |Elems(xs)| == i - 1
      invariant forall k :: 0 <= k < i - 1 ==> Elems(xs)[k] == f(n - (i - 1) + k)
    {
      xs := Cons(f(n - i), xs);
    }
    r := Success(xs);
  }
}
