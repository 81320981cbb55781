/** The FIFO queue over a ring of external storage, and its circular indices. */
module FifoQueue {
  import opened Common

  /** (d + i) modulo m, for d < m and i <= m. */
  function Slot(d: nat, i: nat, m: nat): nat
    requires d < m && i <= m
  {
    if d + i < m then d + i else d + i - m
  }

  function Wrap(x: nat, m: nat): nat
    requires m > 0
  {
    x % m
  }

  /** n elements of a ring from position d on. */
  function Ring<T>(s: seq<T>, d: nat, n: nat): (r: seq<T>)
    requires d < |s| && n <= |s|
    ensures |r| == n
  {
    seq(n, i requires 0 <= i < n => s[Slot(d, i, |s|)])
  }

  lemma RingEmpty<T>(s: seq<T>, d: nat)
    requires d < |s|
    ensures Ring(s, d, 0) == []
  {
  }

  lemma RingTail<T>(s: seq<T>, d: nat, n: nat)
    requires d < |s| && 0 < n <= |s|
    ensures Slot(d, 1, |s|) < |s| && Ring(s, d, n)[1..] == Ring(s, Slot(d, 1, |s|), n - 1)
  {
  }

  lemma RingSnoc<T>(s: seq<T>, d: nat, n: nat, e: T)
    requires d < |s| && n < |s|
    ensures Ring(s[Slot(d, n, |s|) := e], d, n + 1) == Ring(s, d, n) + [e]
  {
  }

  lemma SlotIsMod(d: nat, i: nat, m: nat)
    requires d < m && i <= m
    ensures Slot(d, i, m) < m && Slot(d, i, m) == Wrap(d + i, m)
  {
    if d + i < m { ModUnique(d + i, 0, d + i, m); } else { ModUnique(d + i, 1, d + i - m, m); }
  }

  class CircularIndex {
    var value: nat
    var modulus: nat

    predicate Valid()
      reads this
    {
      value < modulus
    }

    constructor ()
      ensures Valid() && value == 0 && modulus == 1
    {
      value, modulus := 0, 1;
    }

    constructor Copy(ci: CircularIndex)
      ensures value == ci.value && modulus == ci.modulus
    {
      value, modulus := ci.value, ci.modulus;
    }

    method SetValue(v: nat)
      requires modulus > 0
      modifies this`value
      ensures Valid() && value == Wrap(v, modulus)
    {
      value := v % modulus;
    }

    method SetModulus(m: nat)
      requires m > 0
      modifies this
      ensures Valid() && modulus == m && value == Wrap(old(value), m)
    {
      modulus := m;
      SetValue(value);
    }

    method Increment(amount: nat) returns (r: nat)
      requires Valid()
      modifies this`value
      ensures Valid() && r == value == Wrap(old(value) + amount, modulus)
    {
      var offset := amount % modulus;
      ModSum(value, amount, modulus);
      SetValue(value + offset);
      r := value;
    }

    /** The inverse of Increment. */
    method Decrement(amount: nat) returns (r: nat)
      requires Valid()
      modifies this`value
      ensures Valid() && r == value && Wrap(value + amount, modulus) == old(value)
    {
      hide Wrap;
      var offset := amount % modulus;
      ModSum(Wrap(value + modulus - offset, modulus), amount, modulus);
      BackAndForth(value, offset, modulus);
      SetValue(value + modulus - offset);
      r := value;
    }
  }

  /** The remainder is the only r below m with a = q m + r. */
  lemma ModUnique(a: nat, q: nat, r: nat, m: nat)
    requires r < m && a == q * m + r
    ensures Wrap(a, m) == r
  {
    RemainderUnique(a, q, r, m);
  }

  lemma ModSum(a: nat, b: nat, m: nat)
    requires m > 0
    ensures Wrap(a + b % m, m) == Wrap(a + b, m)
  {
    var c := a + b % m;
    ModSumParts(a, b, b / m, b % m, c / m, c % m, m);
  }

  lemma ModSumParts(a: nat, b: nat, q: nat, r: nat, u: nat, v: nat, m: nat)
    requires b == q * m + r && a + r == u * m + v && v < m
    ensures Wrap(a + b, m) == v
  {
    Distribute(q, u, m);
    ModUnique(a + b, q + u, v, m);
  }

  lemma Distribute(q: nat, u: nat, m: nat)
    ensures (q + u) * m == q * m + u * m
  {
  }

  lemma BackAndForth(v: nat, offset: nat, m: nat)
    requires v < m && offset < m
    ensures Wrap(Wrap(v + m - offset, m) + offset, m) == v
  {
    if v >= offset {
      ModUnique(v + m - offset, 1, v - offset, m);
      ModUnique(v, 0, v, m);
    } else {
      ModUnique(v + m - offset, 0, v + m - offset, m);
      ModUnique(v + m, 1, v, m);
    }
  }

  class FifoQueue<T(0)> {
    var items: array<T>
    const enqueueIndex: CircularIndex
    const dequeueIndex: CircularIndex
    var size: nat

    /** The enqueue index is the dequeue index moved on by the size, through wraparound. */
    ghost predicate Valid()
      reads this, enqueueIndex, dequeueIndex
    {
      && enqueueIndex != dequeueIndex && enqueueIndex.Valid() && dequeueIndex.Valid()
      && size <= items.Length
      && (items.Length > 0 ==>
            && enqueueIndex.modulus == items.Length && dequeueIndex.modulus == items.Length
            && enqueueIndex.value == Wrap(dequeueIndex.value + size, items.Length))
    }

    /** The items from left to right. */
    ghost function Contents(): (s: seq<T>)
      reads this, enqueueIndex, dequeueIndex, items
      requires Valid()
      ensures |s| == size
    {
      if size == 0 then [] else Ring(items[..], dequeueIndex.value, size)
    }

    constructor (items: array<T>)
      ensures Valid() && Contents() == [] && this.items == items && dequeueIndex.value == 0
      ensures fresh(enqueueIndex) && fresh(dequeueIndex)
    {
      this.items := items;
      enqueueIndex := new CircularIndex();
      dequeueIndex := new CircularIndex();
      size := 0;
      new;
      if items.Length > 0 {
        enqueueIndex.SetModulus(items.Length);
        dequeueIndex.SetModulus(items.Length);
      }
      Clear();
    }

    lemma IndicesFit()
      requires Valid()
      ensures enqueueIndex != dequeueIndex && enqueueIndex.modulus > 0 && dequeueIndex.modulus > 0
      ensures items.Length > 0 ==> enqueueIndex.modulus == items.Length && dequeueIndex.modulus == items.Length
    {
    }

    method Clear()
      requires enqueueIndex != dequeueIndex && enqueueIndex.modulus > 0 && dequeueIndex.modulus > 0
      requires items.Length > 0 ==> enqueueIndex.modulus == items.Length && dequeueIndex.modulus == items.Length
      modifies this`size, enqueueIndex`value, dequeueIndex`value
      ensures Valid() && Contents() == [] && dequeueIndex.value == 0
    {
      enqueueIndex.SetValue(0);
      dequeueIndex.SetValue(0);
      size := 0;
    }

    method Enqueue(e: T) returns (ok: bool)
      requires Valid()
      modifies this`size, enqueueIndex`value, items
      ensures Valid() && ok == (old(size) < items.Length) && size == old(size) + (if ok then 1 else 0)
      ensures Contents() == if ok then old(Contents()) + [e] else old(Contents())
      ensures items[..] == if ok then old(items[..])[old(enqueueIndex.value) := e] else old(items[..])
    {
      hide Ring, Wrap;
      ok := false;
      if size < items.Length {
        var i := enqueueIndex.value;
        SlotIsMod(dequeueIndex.value, size, items.Length);
        RingSnoc(items[..], dequeueIndex.value, size, e);
        RingEmpty(items[..], dequeueIndex.value);
        items[i] := e;
        var next := enqueueIndex.Increment(1);
        NextSlot(dequeueIndex.value, size, items.Length);
        size := size + 1;
        ok := true;
      }
    }

    method At(index: nat) returns (e: T)
      requires Valid() && index < size
      ensures e == Contents()[index]
    {
      SlotIsMod(dequeueIndex.value, index, items.Length);
      hide Wrap;
      var ci := new CircularIndex.Copy(dequeueIndex);
      var i := ci.Increment(index);
      e := items[i];
    }

    /** On an empty queue the output keeps its old value. */
    method Dequeue(was: T) returns (ok: bool, e: T)
      requires Valid()
      modifies this`size, dequeueIndex`value
      ensures Valid() && ok == (old(size) > 0)
      ensures ok ==> e == old(Contents())[0] && Contents() == old(Contents())[1..]
      ensures ok ==> dequeueIndex.value == Wrap(old(dequeueIndex.value) + 1, items.Length)
      ensures !ok ==> e == was && Contents() == old(Contents())
    {
      hide Ring, Wrap;
      ok, e := false, was;
      if size > 0 {
        e := At(0);
        ghost var d := dequeueIndex.value;
        RingTail(items[..], d, size);
        RingEmpty(items[..], Slot(d, 1, items.Length));
        var next := dequeueIndex.Increment(1);
        SlotIsMod(d, 1, items.Length);
        SameEnd(d, size, items.Length);
        size := size - 1;
        ok := true;
      }
    }

    /** Another queue's items, as many as there is room for, the other queue staying as it was.  Two queues
        over the same storage are accepted too: then the copy overwrites what it has yet to read once the
        other queue wraps around, and repeats the items before that place. */
    method CopyDataFrom(queue: FifoQueue<T>)
      requires Valid() && queue.Valid()
      requires queue != this ==> {enqueueIndex, dequeueIndex} !! {queue.enqueueIndex, queue.dequeueIndex}
      modifies this`size, enqueueIndex`value, dequeueIndex`value, items
      ensures Valid() && queue.Valid()
      ensures queue == this || queue.items != items ==> queue.Contents() == old(queue.Contents())
      ensures queue != this && queue.items != items ==>
        Contents() == queue.Contents()[..if queue.size <= items.Length then queue.size else items.Length]
      ensures queue != this && queue.items == items ==>
        Contents() == Folded(old(queue.Contents()), old(queue.BeforeWrap()))
      ensures queue != this && queue.items == items && queue.size <= old(queue.BeforeWrap()) ==>
        Contents() == old(queue.Contents())
    {
      hide Ring, Wrap, Folded;
      if queue != this {
        if queue.size <= queue.BeforeWrap() {
          FoldedShort(queue.Contents(), queue.BeforeWrap());
        }
        Clear();
        Refill(queue, if queue.size <= items.Length then queue.size else items.Length);
        assert queue.items == items ==> Contents()[..size] == Contents();
      }
    }

    /** Slots from the left end of the queue to the end of its storage. */
    ghost function BeforeWrap(): (n: nat)
      reads this, enqueueIndex, dequeueIndex
      requires Valid()
      ensures n > 0
    {
      if items.Length == 0 then 1 else items.Length - dequeueIndex.value
    }

    /** The loop of copyDataFrom: n items of the other queue, one by one. */
    method Refill(queue: FifoQueue<T>, n: nat)
      requires Valid() && queue.Valid() && Contents() == [] && size == 0 && n <= queue.size && n <= items.Length
      requires queue != this && dequeueIndex.value == 0
      requires {enqueueIndex, dequeueIndex} !! {queue.enqueueIndex, queue.dequeueIndex}
      modifies this`size, enqueueIndex`value, items
      ensures Valid() && queue.Valid() && size == n
      ensures queue.items != items ==> queue.Contents() == old(queue.Contents()) && Contents() == queue.Contents()[..n]
      ensures queue.items == items ==> Contents() == Folded(old(queue.Contents()), old(queue.BeforeWrap()))[..n]
    {
      hide Valid, Contents, Ring, Folded, Wrap, BeforeWrap;
      ghost var s, was, p := queue.Contents(), items[..], queue.BeforeWrap();
      ghost var copy := if queue.items == items then Folded(s, p) else s;
      assert copy[..0] == [];
      IndicesFit();
      if queue.size > 0 { queue.IsRing(); }
      for i := 0 to n
        invariant Valid() && queue.Valid() && size == i && dequeueIndex.value == 0
        invariant queue.items != items ==> queue.Contents() == s
        invariant queue.items == items ==> items[..] == copy[..i] + was[i..]
        invariant Contents() == copy[..i]
      {
        if queue.items == items {
          SharedNext(queue, was, s, i);
        }
        CopyOne(queue, i);
        NextOfCopy(copy, was, i);
      }
    }

    /** One round: item i of the other queue goes to the right end, in slot i. */
    method CopyOne(queue: FifoQueue<T>, i: nat)
      requires Valid() && queue.Valid() && size == i < items.Length && i < queue.size
      requires queue != this && enqueueIndex != dequeueIndex && dequeueIndex.value == 0
      requires {enqueueIndex, dequeueIndex} !! {queue.enqueueIndex, queue.dequeueIndex}
      modifies this`size, enqueueIndex`value, items
      ensures Valid() && queue.Valid() && size == i + 1
      ensures Contents() == old(Contents()) + [old(queue.Contents()[i])]
      ensures items[..] == old(items[..])[i := old(queue.Contents()[i])]
      ensures queue.items != items ==> queue.Contents() == old(queue.Contents())
    {
      FrontIndex(i);
      hide Valid, Contents, Ring, Wrap;
      var e := queue.At(i);
      var ok := Enqueue(e);
    }

    lemma SizeOfContents()
      requires Valid()
      ensures size == |Contents()|
    {
    }

    lemma IsRing()
      requires Valid() && size > 0
      ensures dequeueIndex.value < items.Length && Contents() == Ring(items[..], dequeueIndex.value, size)
    {
    }

    /** A queue that starts at slot 0 enqueues at the slot of its size. */
    lemma FrontIndex(i: nat)
      requires Valid() && size == i < items.Length && dequeueIndex.value == 0
      ensures enqueueIndex.value == i
    {
      ModUnique(i, 0, i, items.Length);
    }

    /** While this queue refills the storage it shares, what it reads next is the next item of the copy. */
    lemma SharedNext(queue: FifoQueue<T>, was: seq<T>, s: seq<T>, i: nat)
      requires queue.Valid() && i < queue.size == |s| && |was| == queue.items.Length
      requires queue.dequeueIndex.value < |was| && s == Ring(was, queue.dequeueIndex.value, |s|)
      requires var copy := Folded(s, queue.BeforeWrap()); queue.items[..] == copy[..i] + was[i..]
      ensures queue.Contents()[i] == Folded(s, queue.BeforeWrap())[i]
    {
      queue.IsRing();
      RereadNext(was, s, Folded(s, queue.BeforeWrap()), queue.dequeueIndex.value, i);
    }
  }

  lemma NextOfCopy<T>(copy: seq<T>, was: seq<T>, i: nat)
    requires i < |copy| && i < |was|
    ensures copy[..i + 1] == copy[..i] + [copy[i]]
    ensures (copy[..i] + was[i..])[i := copy[i]] == copy[..i + 1] + was[i + 1..]
  {
  }

  lemma RereadNext<T>(was: seq<T>, s: seq<T>, copy: seq<T>, d: nat, i: nat)
    requires d < |was| && i < |s| <= |was| && s == Ring(was, d, |s|) && copy == Folded(s, |was| - d)
    ensures Ring(copy[..i] + was[i..], d, |s|)[i] == copy[i]
  {
    var p := |was| - d;
    var now := copy[..i] + was[i..];
    if i < p {
      assert now[d + i] == was[d + i] == s[i];
    } else {
      assert now[i - p] == copy[i - p] == s[Fold(i - p, p)];
    }
  }

  /** i modulo p, by subtraction. */
  function Fold(i: nat, p: nat): (j: nat)
    requires p > 0
    ensures j <= i && j < p
  {
    if i < p then i else Fold(i - p, p)
  }

  /** The first p items over and over. */
  function Folded<T>(s: seq<T>, p: nat): (r: seq<T>)
    requires p > 0
    ensures |r| == |s|
  {
    seq(|s|, i requires 0 <= i < |s| => s[Fold(i, p)])
  }

  lemma FoldedShort<T>(s: seq<T>, p: nat)
    requires 0 < p && |s| <= p
    ensures Folded(s, p) == s
  {
  }

  /** Copying within one storage is right for all contents exactly when the other queue does not wrap. */
  lemma SharedCopyExact<T>(n: nat, p: nat, x: T, y: T)
    requires p > 0 && x != y
    ensures (forall s: seq<T> :: |s| == n ==> Folded(s, p) == s) <==> n <= p
  {
    if n <= p {
      forall s: seq<T> | |s| == n ensures Folded(s, p) == s {
        FoldedShort(s, p);
      }
    } else {
      var s := seq(n, i => if i == p then y else x);
      assert Fold(p, p) == Fold(0, p) == 0;
      assert Folded(s, p)[p] == s[0] != s[p];
    }
  }

  lemma SameEnd(d: nat, i: nat, m: nat)
    requires d < m && 0 < i <= m
    ensures Slot(d, 1, m) < m && Wrap(Slot(d, 1, m) + (i - 1), m) == Wrap(d + i, m)
  {
    SlotIsMod(d, 1, m);
    SlotIsMod(d, i, m);
    SlotIsMod(Slot(d, 1, m), i - 1, m);
    hide Wrap;
  }

  lemma NextSlot(d: nat, i: nat, m: nat)
    requires d < m && i < m
    ensures Wrap(Wrap(d + i, m) + 1, m) == Wrap(d + (i + 1), m)
  {
    SlotIsMod(d, i, m);
    SlotIsMod(Slot(d, i, m), 1, m);
    SlotIsMod(d, i + 1, m);
    hide Wrap;
  }

  // ------------------------------------------------------------------ whole runs of the bounded sequence

  datatype Op<T> = Enq(e: T) | Deq | Reset

  /** What the methods above do to the contents, with the items accepted, delivered by dequeue, and gone
      (delivered or cleared away) on record. */
  datatype Run<T> = Run(contents: seq<T>, accepted: seq<T>, delivered: seq<T>, gone: seq<T>)

  function Next<T>(capacity: nat, r: Run<T>, op: Op<T>): Run<T> {
    match op
    case Enq(e) =>
      if |r.contents| < capacity then r.(contents := r.contents + [e], accepted := r.accepted + [e]) else r
    case Deq =>
      if r.contents == [] then r
      else r.(contents := r.contents[1..], delivered := r.delivered + [r.contents[0]], gone := r.gone + [r.contents[0]])
    case Reset => r.(contents := [], gone := r.gone + r.contents)
  }

  function After<T>(capacity: nat, ops: seq<Op<T>>, n: nat): Run<T>
    requires n <= |ops|
  {
    if n == 0 then Run([], [], [], []) else Next(capacity, After(capacity, ops, n - 1), ops[n - 1])
  }

  /** Every run of the ring queue from empty is a run of the bounded sequence, in what it holds and in what
      its dequeues delivered; so what left it and what it holds are the accepted items in order. */
  method RunQueue<T(0)>(q: FifoQueue<T>, ops: seq<Op<T>>, blank: T) returns (delivered: seq<T>)
    requires q.Valid() && q.Contents() == []
    modifies q, q.enqueueIndex, q.dequeueIndex, q.items
    ensures q.Valid() && q.items == old(q.items)
    ensures q.Contents() == After(q.items.Length, ops, |ops|).contents
    ensures delivered == After(q.items.Length, ops, |ops|).delivered
    ensures var r := After(q.items.Length, ops, |ops|);
      r.accepted == r.gone + q.Contents() && ((forall i :: 0 <= i < |ops| ==> ops[i] != Reset) ==> delivered == r.gone)
  {
    hide FifoQueue.Valid, FifoQueue.Contents, After;
    ghost var capacity := q.items.Length;
    AfterNothing(capacity, ops);
    delivered := [];
    for i := 0 to |ops|
      invariant q.Valid() && q.items == old(q.items) && q.items.Length == capacity
      invariant q.Contents() == After(capacity, ops, i).contents && delivered == After(capacity, ops, i).delivered
    {
      AfterOne(capacity, ops, i);
      FirstInFirstOut(capacity, ops, i);
      match ops[i]
      case Enq(e) =>
        var ok := q.Enqueue(e);
      case Deq =>
        var ok, e := q.Dequeue(blank);
        if ok { delivered := delivered + [e]; }
      case Reset =>
        q.IndicesFit();
        q.Clear();
    }
    FirstInFirstOut(capacity, ops, |ops|);
  }

  lemma AfterNothing<T>(capacity: nat, ops: seq<Op<T>>)
    ensures After(capacity, ops, 0) == Run([], [], [], [])
  {
  }

  lemma AfterOne<T>(capacity: nat, ops: seq<Op<T>>, i: nat)
    requires i < |ops|
    ensures After(capacity, ops, i + 1) == Next(capacity, After(capacity, ops, i), ops[i])
  {
  }

  /** First in, first out: what left the queue and what is still in it are the accepted items in order,
      the queue never outgrows its storage, and without a clear all that left was delivered. */
  lemma {:induction false} FirstInFirstOut<T>(capacity: nat, ops: seq<Op<T>>, n: nat)
    requires n <= |ops|
    ensures var r := After(capacity, ops, n); r.accepted == r.gone + r.contents && |r.contents| <= capacity
    ensures (forall i :: 0 <= i < n ==> ops[i] != Reset) ==>
      After(capacity, ops, n).delivered == After(capacity, ops, n).gone
  {
    if n > 0 {
      FirstInFirstOut(capacity, ops, n - 1);
      OneStepInOrder(capacity, After(capacity, ops, n - 1), ops[n - 1]);
    }
  }

  lemma OneStepInOrder<T>(capacity: nat, r: Run<T>, op: Op<T>)
    requires r.accepted == r.gone + r.contents && |r.contents| <= capacity
    ensures var r' := Next(capacity, r, op);
      && r'.accepted == r'.gone + r'.contents && |r'.contents| <= capacity
      && (r.delivered == r.gone && op != Reset ==> r'.delivered == r'.gone)
  {
    match op
    case Enq(e) =>
      assert r.gone + r.contents + [e] == r.gone + (r.contents + [e]);
    case Deq =>
      if r.contents != [] {
        assert r.gone + r.contents == (r.gone + [r.contents[0]]) + r.contents[1..];
      }
    case Reset =>
      assert r.gone + r.contents == (r.gone + r.contents) + [];
  }

  /** A queue of two items that wraps around in a storage of three, copied by a queue over the same storage:
      the second item is lost. */
  method WrappedCopyGoesWrong() returns (first: int, second: int, copied: int, wrong: int)
    ensures first == copied == 3 && second == 4 && wrong == 3
  {
    hide FifoQueue.Contents, FifoQueue.Valid, FifoQueue.BeforeWrap, Ring, Folded, Wrap;
    var items := new int[3](_ => 0);
    var q := WrappedQueue(items);
    q.SizeOfContents();
    first := q.At(0);
    second := q.At(1);
    var other := new FifoQueue<int>(items);
    FoldedPair(3, 4);
    other.CopyDataFrom(q);
    other.SizeOfContents();
    copied := other.At(0);
    wrong := other.At(1);
  }

  lemma FoldedPair(x: int, y: int)
    ensures Folded([x, y], 1) == [x, x]
  {
    assert Fold(1, 1) == Fold(0, 1) == 0;
  }

  method WrappedQueue(items: array<int>) returns (q: FifoQueue<int>)
    requires items.Length == 3
    modifies items
    ensures fresh(q) && fresh(q.enqueueIndex) && fresh(q.dequeueIndex)
    ensures q.items == items && q.Valid() && q.Contents() == [3, 4] && q.BeforeWrap() == 1
  {
    hide FifoQueue.Contents, Ring;
    q := new FifoQueue<int>(items);
    var ok := q.Enqueue(1);
    ok := q.Enqueue(2);
    ok := q.Enqueue(3);
    var e: int;
    ok, e := q.Dequeue(0);
    ok, e := q.Dequeue(0);
    ok := q.Enqueue(4);
    assert q.dequeueIndex.value == 2;
  }
}
