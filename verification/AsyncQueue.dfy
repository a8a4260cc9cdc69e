/**
 The bounded ring of the asynchronous stream edge (src/runtime/async_stream.c): each method
 is the body of one critical section, proved against a function on the ring's contents.
 */
module AsyncQueue {

  datatype Slot<T> = Empty | Full(batch: T)

  /** What the mutex protects. */
  datatype Queue<T> = Queue(ring: seq<Slot<T>>, head: nat, n: nat, eof: bool, stop: bool, err: bool)

  /** betl_async_wrap clamps the requested depth. */
  function Depth(requested: nat): (d: nat)
    ensures 1 <= d <= 64
  {
    if requested < 1 then 1 else if requested > 64 then 64 else requested
  }

  function NewQueue<T>(depth: nat): Queue<T> {
    Queue(seq(depth, _ => Empty), 0, 0, false, false, false)
  }

  /** Slot of the `k`-th batch counted from the head. */
  function SlotAt<T>(q: Queue<T>, k: nat): nat
    requires q.ring != []
  {
    (q.head + k) % |q.ring|
  }

  /** Exactly the `n` slots from the head on are occupied. */
  ghost predicate Wellformed<T>(q: Queue<T>) {
    && q.ring != [] && q.head < |q.ring| && q.n <= |q.ring|
    && (forall k :: 0 <= k < |q.ring| ==> (q.ring[SlotAt(q, k)].Full? <==> k < q.n))
  }

  /** The queued batches, oldest first. */
  ghost function Contents<T>(q: Queue<T>): (c: seq<T>)
    requires Wellformed(q)
    ensures |c| == q.n
  {
    seq(q.n, k requires 0 <= k < q.n => q.ring[SlotAt(q, k)].batch)
  }

  // ---------------------------------------------------------------- critical sections

  datatype Room = Sleep | Leave | Proceed

  /** The producer's wait for a free slot. */
  function CheckRoom<T>(q: Queue<T>): Room {
    if q.stop then Leave else if q.n == |q.ring| then Sleep else Proceed
  }

  /** The producer's push; nothing is stored once the consumer asked to stop. */
  function Push<T>(q: Queue<T>, batch: T): Queue<T>
    requires q.ring != []
  {
    if q.stop then q else q.(ring := q.ring[SlotAt(q, q.n) := Full(batch)], n := q.n + 1)
  }

  predicate Ready<T>(q: Queue<T>) { q.n > 0 || q.eof || q.err }

  /** Taking the oldest batch out, for the consumer or for the final drain. */
  function Pop<T>(q: Queue<T>): Queue<T>
    requires q.ring != [] && q.head < |q.ring| && q.n > 0
  {
    q.(ring := q.ring[q.head := Empty], head := (q.head + 1) % |q.ring|, n := q.n - 1)
  }

  // ---------------------------------------------------------------- effect on the contents

  lemma ModBelowTwice(x: nat, c: nat)
    requires 0 < c && x < 2 * c
    ensures x % c == if x < c then x else x - c
  {
    var k := x / c;
    assert x == c * k + x % c;
    assert k >= 2 ==> c * k >= c * 2;
    assert k == 1 ==> c * k == c;
  }

  lemma SlotIs<T>(q: Queue<T>, k: nat)
    requires q.head < |q.ring| && k <= |q.ring|
    ensures SlotAt(q, k) == if q.head + k < |q.ring| then q.head + k else q.head + k - |q.ring|
  {
    ModBelowTwice(q.head + k, |q.ring|);
  }

  /** A push into a queue with room lands on an empty slot and appends. */
  lemma PushAppends<T>(q: Queue<T>, batch: T)
    requires Wellformed(q) && !q.stop && q.n < |q.ring|
    ensures q.ring[SlotAt(q, q.n)].Empty?
    ensures Wellformed(Push(q, batch)) && Contents(Push(q, batch)) == Contents(q) + [batch]
  {
    var r := Push(q, batch);
    SlotIs(q, q.n);
    forall k | 0 <= k < |q.ring|
      ensures SlotAt(r, k) == SlotAt(q, k)
      ensures r.ring[SlotAt(r, k)] == if k == q.n then Full(batch) else q.ring[SlotAt(q, k)]
    {
      SlotIs(q, k);
    }
  }

  /** Popping hands out the oldest batch, empties its slot and keeps the rest in order. */
  lemma PopTakesFirst<T>(q: Queue<T>)
    requires Wellformed(q) && q.n > 0
    ensures q.ring[q.head] == Full(Contents(q)[0])
    ensures Wellformed(Pop(q)) && Contents(Pop(q)) == Contents(q)[1..]
  {
    var r, c := Pop(q), |q.ring|;
    SlotIs(q, 0);
    ModBelowTwice(q.head + 1, c);
    forall k | 0 <= k < c
      ensures SlotAt(r, k) == if k < c - 1 then SlotAt(q, k + 1) else q.head
      ensures r.ring[SlotAt(r, k)] == if k < c - 1 then q.ring[SlotAt(q, k + 1)] else Empty
    {
      SlotIs(r, k);
      SlotIs(q, k + 1);
    }
  }

  lemma FlagsKeepContents<T>(q: Queue<T>, eof: bool, stop: bool, err: bool)
    requires Wellformed(q)
    ensures var r := q.(eof := eof, stop := stop, err := err); Wellformed(r) && Contents(r) == Contents(q)
  {
    var r := q.(eof := eof, stop := stop, err := err);
    assert forall k: nat :: SlotAt(r, k) == SlotAt(q, k);
    hide SlotAt;
  }

  lemma NewQueueIsEmpty<T>(depth: nat)
    requires depth > 0
    ensures Wellformed(NewQueue<T>(depth)) && Contents(NewQueue<T>(depth)) == []
  {}

  // ---------------------------------------------------------------- the shared object

  datatype Taken<T> = Batch(batch: T) | Terminal(failed: bool) | Wait

  class AsyncStream<T> {
    var ring: array<Slot<T>>
    var cap: nat
    var head: nat
    var n: nat
    var eof: bool
    var stop: bool
    var err: bool

    ghost function View(): Queue<T>
      reads this, ring
    {
      Queue(ring[..], head, n, eof, stop, err)
    }

    ghost predicate Valid()
      reads this, ring
    {
      cap == ring.Length && Wellformed(View())
    }

    /** betl_async_wrap. */
    constructor (depth: nat)
      ensures Valid() && View() == NewQueue(Depth(depth)) && fresh(ring)
    {
      cap := Depth(depth);
      ring := new Slot<T>[Depth(depth)](_ => Empty);
      head, n, eof, stop, err := 0, 0, false, false, false;
      new;
      assert ring[..] == seq(Depth(depth), _ => Empty);
      NewQueueIsEmpty<T>(Depth(depth));
    }

    method ProducerChecksRoom() returns (room: Room)
      requires Valid()
      ensures room == CheckRoom(View())
    {
      if !stop && n == cap { return Sleep; }
      return if stop then Leave else Proceed;
    }

    method ProducerPushes(batch: T) returns (accepted: bool)
      requires Valid() && (stop || n < cap)
      modifies this`n, ring
      ensures View() == old(Push(View(), batch)) && accepted == !stop
      ensures Valid() && Contents(View()) == old(Contents(View())) + (if accepted then [batch] else [])
    {
      if stop { return false; }
      PushAppends(View(), batch);
      var tail := (head + n) % cap;
      ring[tail] := Full(batch);
      n := n + 1;
      assert View() == old(Push(View(), batch));
      return true;
    }

    method ProducerPostsEof()
      requires Valid()
      modifies this`eof
      ensures Valid() && View() == old(View()).(eof := true) && Contents(View()) == old(Contents(View()))
    {
      hide Wellformed, Contents;
      FlagsKeepContents(View(), true, stop, err);
      eof := true;
      assert View() == old(View()).(eof := true);
    }

    method ProducerPostsError()
      requires Valid()
      modifies this`err
      ensures Valid() && View() == old(View()).(err := true) && Contents(View()) == old(Contents(View()))
    {
      hide Wellformed, Contents;
      FlagsKeepContents(View(), eof, stop, true);
      err := true;
      assert View() == old(View()).(err := true);
    }

    /** The host's cancellation and the consumer's release both only set the stop flag. */
    method SetStop()
      requires Valid()
      modifies this`stop
      ensures Valid() && View() == old(View()).(stop := true) && Contents(View()) == old(Contents(View()))
    {
      hide Wellformed, Contents;
      FlagsKeepContents(View(), eof, true, err);
      stop := true;
      assert View() == old(View()).(stop := true);
    }

    /** One pass of the consumer's wait loop: take the oldest batch, or report the terminal
        when nothing is queued, or wait. */
    method ConsumerTakes() returns (r: Taken<T>)
      requires Valid()
      modifies this`head, this`n, ring
      ensures Valid()
      ensures old(n) > 0 ==> r == Batch(old(Contents(View()))[0]) && View() == old(Pop(View()))
      ensures old(n) > 0 ==> Contents(View()) == old(Contents(View()))[1..]
      ensures old(n) == 0 ==> r == (if Ready(old(View())) then Terminal(err) else Wait) && View() == old(View())
    {
      if n == 0 && !eof && !err { return Wait; }
      if n > 0 {
        PopTakesFirst(View());
        assert head < ring.Length;
        hide Wellformed, Contents;
        r := Batch(ring[head].batch);
        ring[head] := Empty;
        head := (head + 1) % cap;
        n := n - 1;
        assert View() == old(Pop(View()));
        return;
      }
      return Terminal(err);
    }

    /** The drain of async_release: abandoned batches are released oldest first. */
    method Drain() returns (released: seq<T>)
      requires Valid()
      modifies this`head, this`n, ring
      ensures Valid() && n == 0 && released == old(Contents(View()))
      ensures forall i :: 0 <= i < ring.Length ==> ring[i].Empty?
    {
      released := [];
      while n > 0
        invariant Valid() && old(Contents(View())) == released + Contents(View())
      {
        PopTakesFirst(View());
        assert head < ring.Length;
        hide Wellformed, Contents;
        ghost var before := View();
        released := released + [ring[head].batch];
        ring[head] := Empty;
        head := (head + 1) % cap;
        n := n - 1;
        assert View() == Pop(before);
      }
      AllSlotsEmpty(View());
    }
  }

  lemma AllSlotsEmpty<T>(q: Queue<T>)
    requires Wellformed(q) && q.n == 0
    ensures forall i :: 0 <= i < |q.ring| ==> q.ring[i].Empty?
  {
    forall i | 0 <= i < |q.ring|
      ensures q.ring[i].Empty?
    {
      var k := if i >= q.head then i - q.head else i + |q.ring| - q.head;
      SlotIs(q, k);
      assert SlotAt(q, k) == i;
    }
  }
}
