/** ConcurrentRingBuffer: the locked ring under the stream processor.  Every public
    operation holds the mutex throughout, so each is one atomic step. */
module ConcurrentRing {
  import opened Bits
  import opened Wrappers
  import SpscRing

  /** The constructor's test on `capacity`, with `capacity - 1` computed on `size_t`. */
  predicate Accepts(capacity: nat) {
    BitAnd(capacity, Sub64(capacity, 1)) == 0
  }

  /** The constructor accepts the powers of two, and also 0.  With capacity 0 there is no
      slot, and yet the full test of the first `try_push` passes: it writes out of bounds. */
  lemma {:induction false} AcceptedCapacities(capacity: nat)
    requires capacity < TWO_64
    ensures Accepts(capacity) <==> capacity == 0 || IsPow2(capacity)
    ensures capacity == 0 ==> BitAnd(0 + 1, Sub64(capacity, 1)) != 0
  {
    if capacity > 0 {
      PowerOfTwoTest(capacity);
    } else {
      assert BitAnd(1, TWO_64 - 1) == 1;
    }
  }

  /** What the ring holds, oldest first. */
  function Held<T>(slots: seq<T>, head: nat, tail: nat): (q: seq<T>)
    requires head < |slots| && tail < |slots|
    ensures |q| == (head - tail) % |slots| < |slots|
  {
    seq((head - tail) % |slots|, i requires 0 <= i => slots[(tail + i) % |slots|])
  }

  predicate HasRoom<T>(q: seq<T>, capacity: nat) { |q| < capacity - 1 }

  lemma {:induction false} HeldLength(head: nat, tail: nat, c: nat)
    requires head < c && tail < c
    ensures (head - tail) % c == if head >= tail then head - tail else head - tail + c
    ensures (tail + (head - tail) % c) % c == head
    ensures head == tail <==> (head - tail) % c == 0
  {
    if head >= tail {
      DivModUnique(head - tail, c, 0, head - tail);
      DivModUnique(head, c, 0, head);
    } else {
      DivModUnique(head - tail, c, -1, head - tail + c);
      DivModUnique(head + c, c, 1, head);
    }
  }

  /** Where the advanced indices land. */
  lemma {:induction false} Advance(index: nat, c: nat)
    requires index < c && IsPow2(c)
    ensures SpscRing.Next(index, c) == if index + 1 == c then 0 else index + 1
  {
    DivModUnique(index, c, 0, index);
    SpscRing.NextIsSucc(index, c);
    if index + 1 == c { DivModUnique(c, c, 1, 0); } else { DivModUnique(index + 1, c, 0, index + 1); }
  }

  lemma {:induction false} AfterPush<T>(slots: seq<T>, head: nat, tail: nat, value: T)
    requires head < |slots| && tail < |slots| && IsPow2(|slots|)
    ensures var next := SpscRing.Next(head, |slots|);
            && next < |slots|
            && (next == tail <==> !HasRoom(Held(slots, head, tail), |slots|))
            && (next != tail ==> Held(slots[head := value], next, tail) == Held(slots, head, tail) + [value])
  {
    var c, next := |slots|, SpscRing.Next(head, |slots|);
    Advance(head, c);
    HeldLength(head, tail, c);
    HeldLength(next, tail, c);
    if next != tail {
      var q, q' := Held(slots, head, tail), Held(slots[head := value], next, tail);
      forall i | 0 <= i < |q| ensures q'[i] == q[i] { ModDistinct(tail + i, tail + |q|, c); }
      assert q'[|q|] == value;
    }
  }

  lemma {:induction false} AfterPop<T>(slots: seq<T>, head: nat, tail: nat)
    requires head < |slots| && tail < |slots| && IsPow2(|slots|) && head != tail
    ensures var next := SpscRing.Next(tail, |slots|);
            && next < |slots|
            && Held(slots, head, tail) == [slots[tail]] + Held(slots, head, next)
  {
    var c, next := |slots|, SpscRing.Next(tail, |slots|);
    Advance(tail, c);
    HeldLength(head, tail, c);
    HeldLength(head, next, c);
    var q, q' := Held(slots, head, tail), Held(slots, head, next);
    DivModUnique(tail, c, 0, tail);
    assert q[0] == slots[tail];
    forall i | 0 <= i < |q'| ensures q[i + 1] == q'[i] {
      if next == 0 { ModShift(i, 1, c); }
    }
  }

  class ConcurrentRingBuffer<T(0)> {
    const buffer: array<T>
    const capacity: nat
    var head: nat
    var tail: nat

    ghost predicate Valid()
      reads this
    {
      && 0 < capacity < TWO_64 && IsPow2(capacity)
      && buffer.Length == capacity && head < capacity && tail < capacity
    }

    ghost function Contents(): (q: seq<T>)
      requires Valid()
      reads this, buffer
      ensures |q| < capacity
    {
      Held(buffer[..], head, tail)
    }

    constructor (capacity: nat)
      requires 0 < capacity < TWO_64 && Accepts(capacity)
      ensures Valid() && fresh(buffer) && this.capacity == capacity && Contents() == []
    {
      this.capacity := capacity;
      buffer := new T[capacity];
      head, tail := 0, 0;
      new;
      AcceptedCapacities(capacity);
      HeldLength(0, 0, capacity);
    }

    method TryPush(value: T) returns (ok: bool)
      requires Valid()
      modifies this`head, buffer
      ensures Valid()
      ensures ok <==> HasRoom(old(Contents()), capacity)
      ensures Contents() == if ok then old(Contents()) + [value] else old(Contents())
    {
      var nextHead := BitAnd(head + 1, capacity - 1);
      AfterPush(buffer[..], head, tail, value);
      if nextHead == tail { return false; }
      ghost var was := buffer[..];
      buffer[head] := value;
      assert buffer[..] == was[head := value];
      head := nextHead;
      return true;
    }

    method TryPop() returns (r: Option<T>)
      requires Valid()
      modifies this`tail
      ensures Valid()
      ensures r.None? <==> old(Contents()) == []
      ensures old(Contents()) == (if r.Some? then [r.value] else []) + Contents()
    {
      HeldLength(head, tail, capacity);
      if head == tail { return None; }
      AfterPop(buffer[..], head, tail);
      var value := buffer[tail];
      tail := BitAnd(tail + 1, capacity - 1);
      return Some(value);
    }

    method Size() returns (n: nat)
      requires Valid()
      ensures n == |Contents()|
    {
      HeldLength(head, tail, capacity);
      n := SpscRing.Size(head, tail, capacity);
      ghost var k: nat :| k <= capacity && capacity == Pow2(k);
      if k > 64 { TwoTo64(); Pow2Mono(64, k); }
      SizeMask(head, tail, k);
    }

    method Empty() returns (b: bool)
      requires Valid()
      ensures b <==> Contents() == []
    {
      HeldLength(head, tail, capacity);
      b := head == tail;
    }
  }
}
