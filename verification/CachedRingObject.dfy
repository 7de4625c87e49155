/** The fixed-slot queue in the source's form, and the loop that drops what is left in it. */
module CachedRingObject {
  import opened Bits
  import opened Wrappers
  import opened RingIndex
  import opened CachedRing

  /** The least power of two at or above `least`, doubling from the power `p`. */
  function NextPow2(least: nat, p: nat): (cap: nat)
    requires p > 0
    ensures cap >= least && cap >= p
    decreases least - p
  {
    if p >= least then p else NextPow2(least, 2 * p)
  }

  lemma {:induction false} NextPow2Least(least: nat, k: nat, j: nat)
    ensures IsPow2(NextPow2(least, Pow2(k)))
    ensures Pow2(j) >= least && j >= k ==> NextPow2(least, Pow2(k)) <= Pow2(j)
    decreases least - Pow2(k)
  {
    hide IsPow2, Pow2;
    Pow2Passes(k);
    Pow2Orders(k, j);
    Pow2Doubles(k);
    if Pow2(k) < least {
      NextPow2Least(least, k + 1, j);
    }
  }

  // ----- one side alone, as record updates -----

  lemma ShapeOf<T>(m: Machine<T>, c: Counts)
    requires Inv(m, c)
    ensures Shape(m)
  {
  }

  lemma {:induction false} RefreshHead<T>(m: Machine<T>, c: Counts, f: T -> T)
    requires Inv(m, c) && m.prod.AtRest? && LooksFull(m)
    ensures var m1, c1 := m.(cachedHead := m.head), c.(cachedHead := c.head);
            && m1.(prod := Step(Step(m, CachedRing.Push(f)).0, Produce).0.prod)
               == Step(Step(m, CachedRing.Push(f)).0, Produce).0
            && Inv(m1, c1) && Queue(m1, c1) == Queue(m, c)
            && (LooksFull(m1) <==> |Queue(m, c)| == |m.slots|)
  {
    hide IsPow2, Slot, Wrap64;
    LooksFullExact(m.(cachedHead := m.head), c.(cachedHead := c.head));
  }

  lemma {:induction false} WriteAlone<T>(m: Machine<T>, c: Counts, f: T -> T)
    requires Inv(m, c) && m.prod.AtRest? && !LooksFull(m)
    ensures var s, t := Slot(m.localTail, |m.slots|), Wrap64(m.localTail + 1);
            var m' := m.(slots := m.slots[s := f(m.slots[s])], tail := t, localTail := t);
            var c' := c.(tail := c.tail + 1);
            && m' == Step(Step(Step(m, CachedRing.Push(f)).0, Produce).0, Produce).0
            && s == Slot(c.tail, |m.slots|)
            && |Queue(m, c)| < |m.slots|
            && Inv(m', c') && Queue(m', c') == Queue(m, c) + [f(m.slots[s])]
  {
    hide IsPow2, Slot, Wrap64;
    LooksFullExact(m, c);
    WrappedSlot(c.tail, |m.slots|);
    var m1 := Step(m, CachedRing.Push(f)).0;
    StepRefines(m, c, CachedRing.Push(f));
    var m2 := Step(m1, Produce).0;
    WriteSlotRefines(m1, c);
    StoreTailRefines(m2, c);
  }

  lemma {:induction false} RefreshTail<T>(m: Machine<T>, c: Counts)
    requires Inv(m, c) && m.cons.Resting? && m.localHead == m.cachedTail
    ensures var m1, c1 := m.(cachedTail := m.tail), c.(cachedTail := c.tail);
            && m1.(cons := Step(Step(m, CachedRing.Pop).0, Consume).0.cons)
               == Step(Step(m, CachedRing.Pop).0, Consume).0
            && Inv(m1, c1) && Queue(m1, c1) == Queue(m, c)
            && (m1.localHead == m1.cachedTail <==> Queue(m, c) == [])
  {
    EqualExact(c.tail, c.head);
    hide IsPow2, Slot, Wrap64;
  }

  lemma {:induction false} RemoveAlone<T>(m: Machine<T>, c: Counts)
    requires Inv(m, c) && m.cons.Resting? && m.localHead != m.cachedTail
    ensures var h := Wrap64(m.localHead + 1);
            var m', c' := m.(head := h, localHead := h), c.(head := c.head + 1);
            && m' == Step(Step(m, CachedRing.Pop).0, Consume).0
            && Queue(m, c) != []
            && Inv(m', c') && Queue(m', c') == Queue(m, c)[1..]
  {
    EqualExact(c.cachedTail, c.head);
    hide IsPow2, Slot, Wrap64;
    StoreHeadRefines(m.(cons := CachedRing.StoreHead), c);
  }

  lemma LiveNone<T>(slots: seq<T>, i: nat)
    requires |slots| > 0
    ensures Live(slots, i, i) == []
  {
  }

  class RingBuffer<T(0)> {
    const buffer: array<T>
    const mask: u64
    var tail: u64
    var head: u64
    var localTail: u64
    var cachedHead: u64
    var localHead: u64
    var cachedTail: u64
    ghost var counts: Counts

    ghost function View(prod: Producer<T>, cons: Consumer): Machine<T>
      reads this, buffer
    {
      Machine(buffer[..], tail, head, localTail, cachedHead, localHead, cachedTail, prod, cons)
    }

    ghost predicate Valid()
      reads this, buffer
    {
      mask == buffer.Length - 1 && Inv(View(AtRest, Resting), counts)
    }

    ghost function Contents(): seq<T>
      requires Valid()
      reads this, buffer
    {
      Queue(View(AtRest, Resting), counts)
    }

    constructor (capacity: nat)
      requires 0 < capacity && NextPow2(capacity, 1) < TWO_64
      ensures Valid() && Contents() == [] && fresh(buffer)
      ensures buffer.Length == NextPow2(capacity, 1)
    {
      var cap := NextPow2(capacity, 1);
      NextPow2Least(capacity, 0, 0);
      buffer := new T[cap];
      mask := cap - 1;
      tail, head, localTail, cachedHead, localHead, cachedTail := 0, 0, 0, 0, 0, 0;
      counts := Counts(0, 0, 0, 0);
    }

    method Offset(i: u64) returns (s: nat)
      requires 0 < buffer.Length && IsPow2(buffer.Length) && mask == buffer.Length - 1
      ensures s == Slot(i, buffer.Length) < buffer.Length
    {
      MaskIsSlot(i, buffer.Length);
      s := BitAnd(i, mask);
    }

    /** `push_write`: fails exactly when the queue is full; otherwise the slot, changed in place by
        `f`, becomes the last value. */
    method PushWrite(f: T -> T) returns (ok: bool)
      requires Valid()
      modifies this`tail, this`localTail, this`cachedHead, this`counts, buffer
      ensures Valid()
      ensures ok <==> |old(Contents())| < buffer.Length
      ensures !ok ==> Contents() == old(Contents()) && buffer[..] == old(buffer[..])
      ensures ok ==> Contents() == old(Contents()) + [f(old(buffer[Slot(counts.tail, buffer.Length)]))]
    {
      hide Slot, Wrap64, Inv, Queue, BitAnd, IsPow2;
      ShapeOf(View(AtRest, Resting), counts);
      var t := localTail;
      if Wrap64(t as int - cachedHead) > mask {
        RefreshHead(View(AtRest, Resting), counts, f);
        cachedHead := head;
        counts := counts.(cachedHead := counts.head);
        if Wrap64(t as int - cachedHead) > mask {
          return false;
        }
      }
      WriteAlone(View(AtRest, Resting), counts, f);
      var at := Offset(t);
      buffer[at] := f(buffer[at]);
      var newTail := Wrap64(t as int + 1);
      tail := newTail;
      localTail := newTail;
      counts := counts.(tail := counts.tail + 1);
      return true;
    }

    /** `push`: a full queue hands the value back, otherwise it is queued last. */
    method Push(value: T) returns (ok: bool)
      requires Valid()
      modifies this`tail, this`localTail, this`cachedHead, this`counts, buffer
      ensures Valid()
      ensures ok <==> |old(Contents())| < buffer.Length
      ensures Contents() == old(Contents()) + if ok then [value] else []
    {
      ok := PushWrite(_ => value);
    }

    /** `pop`: fails exactly when the queue is empty; otherwise the first value leaves it. */
    method Pop() returns (popped: Option<u64>)
      requires Valid()
      modifies this`head, this`localHead, this`cachedTail, this`counts
      ensures Valid()
      ensures popped == if old(Contents()) == [] then None else Some(0)
      ensures Contents() == if popped.Some? then old(Contents())[1..] else old(Contents())
    {
      hide Slot, Wrap64, Inv, Queue;
      var h := localHead;
      if h == cachedTail {
        RefreshTail(View(AtRest, Resting), counts);
        cachedTail := tail;
        counts := counts.(cachedTail := counts.tail);
        if h == cachedTail {
          return None;
        }
      }
      RemoveAlone(View(AtRest, Resting), counts);
      var newHead := Wrap64(h as int + 1);
      head := newHead;
      localHead := newHead;
      counts := counts.(head := counts.head + 1);
      return Some(0);
    }

    /** The drop loop terminates and visits each live slot once, oldest first, also when the counter
        wraps between head and tail. `visited` lists the slots, `dropped` the values in them. */
    method Drop() returns (visited: seq<nat>, dropped: seq<T>)
      requires Valid()
      ensures dropped == Contents()
      ensures |visited| == counts.tail - counts.head
      ensures forall k :: 0 <= k < |visited| ==> visited[k] == Slot(counts.head + k, buffer.Length)
      ensures forall j, k :: 0 <= j < k < |visited| ==> visited[j] != visited[k]
    {
      hide Slot, IsPow2, BitAnd, Live;
      LiveNone(buffer[..], counts.head);
      var i := head;
      visited, dropped := [], [];
      ghost var at := counts.head;
      EqualExact(counts.tail, at);
      while i != tail
        invariant counts.head <= at <= counts.tail && i == Wrap64(at)
        invariant i == tail <==> at == counts.tail
        invariant |visited| == at - counts.head
        invariant forall k :: 0 <= k < |visited| ==> visited[k] == Slot(counts.head + k, buffer.Length)
        invariant dropped == Live(buffer[..], counts.head, at)
        decreases counts.tail - at
      {
        WrappedSlot(at, buffer.Length);
        WrapNext(at);
        EqualExact(counts.tail, at + 1);
        LiveSnoc(buffer[..], counts.head, at);
        var s := Offset(i);
        visited, dropped := visited + [s], dropped + [buffer[s]];
        i := Wrap64(i as int + 1);
        at := at + 1;
      }
      forall j, k | 0 <= j < k < |visited|
        ensures visited[j] != visited[k]
      {
        SlotDistinct(counts.head + j, counts.head + k, buffer.Length);
      }
    }
  }
}
