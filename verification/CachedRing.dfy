/** The fixed-slot queue with cached indices, as a machine of atomic steps.

    Four 64-bit indices wrap; each side keeps a private copy of its own index and a stale copy of
    the other's. `Counts` follows the same four values without wrapping.
  */
module CachedRing {
  import opened Bits
  import opened RingIndex

  /** A push applies `f` to the slot in place; pushing a value v is the case `_ => v`. */
  datatype Producer<!T> =
    | AtRest
    | LoadHead(f: T -> T)     // cache says full: about to load `head`
    | WriteSlot(f: T -> T)
    | StoreTail(v: T)         // slot written, about to publish

  datatype Consumer = Resting | LoadTail | StoreHead

  datatype Machine<!T> = Machine(
    slots: seq<T>,
    tail: u64, head: u64,             // shared
    localTail: u64, cachedHead: u64,  // producer
    localHead: u64, cachedTail: u64,  // consumer
    prod: Producer<T>, cons: Consumer)

  datatype Action<!T> = Push(f: T -> T) | Produce | Pop | Consume

  datatype Event<+T> =
    | Pushed(slot: nat, v: T)
    | Full
    | Popped(slot: nat)
    | Empty

  predicate Shape<T>(m: Machine<T>) { 0 < |m.slots| < TWO_64 && IsPow2(|m.slots|) }

  predicate LooksFull<T>(m: Machine<T>) { Wrap64(m.localTail - m.cachedHead) > |m.slots| - 1 }

  function ProducerStep<T>(m: Machine<T>): (Machine<T>, seq<Event<T>>)
    requires Shape(m)
  {
    match m.prod
    case AtRest => (m, [])
    case LoadHead(f) =>
      var m1 := m.(cachedHead := m.head);
      if LooksFull(m1) then (m1.(prod := AtRest), [Full]) else (m1.(prod := WriteSlot(f)), [])
    case WriteSlot(f) =>
      var s := Slot(m.localTail, |m.slots|);
      var v := f(m.slots[s]);
      (m.(slots := m.slots[s := v], prod := StoreTail(v)), [])
    case StoreTail(v) =>
      var t := Wrap64(m.localTail + 1);
      (m.(tail := t, localTail := t, prod := AtRest), [Pushed(Slot(m.localTail, |m.slots|), v)])
  }

  function ConsumerStep<T>(m: Machine<T>): (Machine<T>, seq<Event<T>>)
    requires Shape(m)
  {
    match m.cons
    case Resting => (m, [])
    case LoadTail =>
      var m1 := m.(cachedTail := m.tail);
      if m1.localHead == m1.cachedTail then (m1.(cons := Resting), [Empty])
      else (m1.(cons := StoreHead), [])
    case StoreHead =>
      var h := Wrap64(m.localHead + 1);
      (m.(head := h, localHead := h, cons := Resting), [Popped(Slot(m.localHead, |m.slots|))])
  }

  function Step<T>(m: Machine<T>, a: Action<T>): (s: (Machine<T>, seq<Event<T>>))
    requires Shape(m)
    ensures Shape(s.0) && |s.0.slots| == |m.slots|
  {
    match a
    case Push(f) =>
      if !m.prod.AtRest? then (m, [])
      else (m.(prod := if LooksFull(m) then LoadHead(f) else WriteSlot(f)), [])
    case Produce => ProducerStep(m)
    case Pop =>
      if !m.cons.Resting? then (m, [])
      else (m.(cons := if m.localHead == m.cachedTail then LoadTail else StoreHead), [])
    case Consume => ConsumerStep(m)
  }

  function Init<T>(slots: seq<T>): Machine<T> { Machine(slots, 0, 0, 0, 0, 0, 0, AtRest, Resting) }

  // ----- the same indices, unwrapped -----

  datatype Counts = Counts(head: nat, tail: nat, cachedHead: nat, cachedTail: nat)

  /** How a step moves the unwrapped indices. */
  function Count<T>(m: Machine<T>, c: Counts, a: Action<T>): Counts
  {
    if a.Produce? && m.prod.LoadHead? then c.(cachedHead := c.head)
    else if a.Produce? && m.prod.StoreTail? then c.(tail := c.tail + 1)
    else if a.Consume? && m.cons.LoadTail? then c.(cachedTail := c.tail)
    else if a.Consume? && m.cons.StoreHead? then c.(head := c.head + 1)
    else c
  }

  ghost predicate Inv<T>(m: Machine<T>, c: Counts)
  {
    && Shape(m)
    && m.tail == m.localTail == Wrap64(c.tail)
    && m.head == m.localHead == Wrap64(c.head)
    && m.cachedHead == Wrap64(c.cachedHead)
    && m.cachedTail == Wrap64(c.cachedTail)
    && c.cachedHead <= c.head <= c.cachedTail <= c.tail <= c.cachedHead + |m.slots|
    && (m.prod.WriteSlot? || m.prod.StoreTail? ==> c.tail < c.cachedHead + |m.slots|)
    && (m.prod.StoreTail? ==> m.slots[Slot(c.tail, |m.slots|)] == m.prod.v)
    && (m.cons.StoreHead? ==> c.head < c.cachedTail)
  }

  /** The values in the slots [from, to), oldest first. */
  function Live<T>(slots: seq<T>, from: nat, to: nat): (q: seq<T>)
    requires 0 < |slots| && from <= to
  {
    seq(to - from, i requires 0 <= i < to - from => slots[Slot(from + i, |slots|)])
  }

  ghost function Queue<T>(m: Machine<T>, c: Counts): seq<T>
    requires Inv(m, c)
  {
    Live(m.slots, c.head, c.tail)
  }

  /** One step of a plain queue of at most `cap` values, with the events it may emit. `slot` of the
      k-th push and of the k-th pop is k modulo the capacity. */
  ghost predicate BoundedStep<T>(cap: nat, c: Counts, q: seq<T>, q': seq<T>, events: seq<Event<T>>)
    requires cap > 0
  {
    if events == [] then q' == q
    else
      |events| == 1 &&
      match events[0]
      case Pushed(slot, v) => |q| < cap && q' == q + [v] && slot == Slot(c.tail, cap)
      case Full => |q| == cap && q' == q
      case Popped(slot) => q != [] && q' == q[1..] && slot == Slot(c.head, cap)
      case Empty => q == q' == []
  }

  // ----- wrapped comparisons decide the unwrapped ones -----

  lemma {:induction false} WrappedDistance(a: nat, b: nat)
    requires b <= a < b + TWO_64
    ensures Wrap64(Wrap64(a) - Wrap64(b)) == a - b
  {
  }

  lemma {:induction false} WrappedSlot(i: nat, cap: nat)
    requires cap > 0 && IsPow2(cap) && cap <= TWO_64
    ensures Slot(Wrap64(i), cap) == Slot(i, cap)
  {
    hide IsPow2, Slot, Wrap64;
    SlotIsMod(i, cap);
    SlotIsMod(Wrap64(i), cap);
    WrapKeepsMod(i, cap);
  }

  lemma {:induction false} LooksFullExact<T>(m: Machine<T>, c: Counts)
    requires Inv(m, c)
    ensures LooksFull(m) <==> c.tail == c.cachedHead + |m.slots|
  {
    hide IsPow2, Slot;
    WrappedDistance(c.tail, c.cachedHead);
  }

  lemma {:induction false} EqualExact(a: nat, b: nat)
    requires b <= a < b + TWO_64
    ensures Wrap64(a) == Wrap64(b) <==> a == b
  {
  }

  /** A push writes no slot that holds a live value. */
  lemma {:induction false} WriteOutside<T>(m: Machine<T>, c: Counts, i: nat)
    requires Inv(m, c) && m.prod.WriteSlot? && c.head <= i < c.tail
    ensures Slot(m.localTail, |m.slots|) == Slot(c.tail, |m.slots|) != Slot(i, |m.slots|)
  {
    hide IsPow2, Slot;
    WrappedSlot(c.tail, |m.slots|);
    SlotDistinct(i, c.tail, |m.slots|);
  }

  lemma {:induction false} LiveFrame<T>(slots: seq<T>, slots': seq<T>, from: nat, to: nat)
    requires 0 < |slots| == |slots'| && from <= to
    requires forall i :: from <= i < to ==> slots[Slot(i, |slots|)] == slots'[Slot(i, |slots|)]
    ensures Live(slots, from, to) == Live(slots', from, to)
  {
    hide Slot;
  }

  lemma {:induction false} LiveSnoc<T>(slots: seq<T>, from: nat, to: nat)
    requires 0 < |slots| && from <= to
    ensures Live(slots, from, to + 1) == Live(slots, from, to) + [slots[Slot(to, |slots|)]]
  {
    hide Slot;
  }

  // ----- refinement -----

  ghost predicate Refines<T>(m: Machine<T>, c: Counts, a: Action<T>)
    requires Inv(m, c)
  {
    var (m', events) := Step(m, a);
    var c' := Count(m, c, a);
    Inv(m', c') && BoundedStep(|m.slots|, c, Queue(m, c), Queue(m', c'), events)
  }

  lemma {:induction false} WrapNext(x: nat)
    ensures Wrap64(Wrap64(x) + 1) == Wrap64(x + 1)
  {
  }

  lemma {:induction false} LoadHeadRefines<T>(m: Machine<T>, c: Counts)
    requires Inv(m, c) && m.prod.LoadHead?
    ensures Refines(m, c, Produce)
  {
    hide IsPow2, Slot, Wrap64;
    LooksFullExact(m.(cachedHead := m.head, prod := AtRest), c.(cachedHead := c.head));
  }

  lemma {:induction false} WriteSlotRefines<T>(m: Machine<T>, c: Counts)
    requires Inv(m, c) && m.prod.WriteSlot?
    ensures Refines(m, c, Produce)
  {
    hide IsPow2, Slot, Wrap64;
    WrappedSlot(c.tail, |m.slots|);
    var m' := Step(m, Produce).0;
    forall i | c.head <= i < c.tail
      ensures m.slots[Slot(i, |m.slots|)] == m'.slots[Slot(i, |m.slots|)]
    {
      WriteOutside(m, c, i);
    }
    LiveFrame(m.slots, m'.slots, c.head, c.tail);
  }

  lemma {:induction false} StoreTailRefines<T>(m: Machine<T>, c: Counts)
    requires Inv(m, c) && m.prod.StoreTail?
    ensures Refines(m, c, Produce)
  {
    hide IsPow2, Slot, Wrap64;
    WrappedSlot(c.tail, |m.slots|);
    LiveSnoc(m.slots, c.head, c.tail);
    WrapNext(c.tail);
  }

  lemma {:induction false} LoadTailRefines<T>(m: Machine<T>, c: Counts)
    requires Inv(m, c) && m.cons.LoadTail?
    ensures Refines(m, c, Consume)
  {
    EqualExact(c.tail, c.head);
    hide IsPow2, Slot, Wrap64;
  }

  lemma {:induction false} StoreHeadRefines<T>(m: Machine<T>, c: Counts)
    requires Inv(m, c) && m.cons.StoreHead?
    ensures Refines(m, c, Consume)
  {
    hide IsPow2, Slot, Wrap64;
    WrappedSlot(c.head, |m.slots|);
    LiveTail(m.slots, c.head, c.tail);
    WrapNext(c.head);
  }

  lemma {:induction false} LiveTail<T>(slots: seq<T>, from: nat, to: nat)
    requires 0 < |slots| && from < to
    ensures Live(slots, from, to)[1..] == Live(slots, from + 1, to)
  {
    hide Slot;
  }

  /** Every step keeps cached_head <= head <= cached_tail <= tail <= cached_head + capacity and is a
      step of the bounded queue: pushes fail only when it is full, pops only when it is empty. */
  lemma {:induction false} StepRefines<T>(m: Machine<T>, c: Counts, a: Action<T>)
    requires Inv(m, c)
    ensures Refines(m, c, a)
  {
    hide IsPow2, Slot, Wrap64;
    match a
    case Push(f) => LooksFullExact(m, c);
    case Produce =>
      match m.prod {
        case AtRest =>
        case LoadHead(_) => LoadHeadRefines(m, c);
        case WriteSlot(_) => WriteSlotRefines(m, c);
        case StoreTail(_) => StoreTailRefines(m, c);
      }
    case Pop => EqualExact(c.cachedTail, c.head);
    case Consume =>
      match m.cons {
        case Resting =>
        case LoadTail => LoadTailRefines(m, c);
        case StoreHead => StoreHeadRefines(m, c);
      }
  }

  /** A push is turned down exactly when the queue is full as `head` is loaded, a pop exactly when it
      is empty as `tail` is loaded. */
  lemma {:induction false} FailsExactly<T>(m: Machine<T>, c: Counts)
    requires Inv(m, c)
    ensures m.prod.LoadHead? ==>
              (Step(m, Produce).1 == [Full] <==> |Queue(m, c)| == |m.slots|)
    ensures m.cons.LoadTail? ==> (Step(m, Consume).1 == [Empty] <==> Queue(m, c) == [])
  {
    EqualExact(c.tail, c.head);
    hide IsPow2, Slot, Wrap64;
    LooksFullExact(m.(cachedHead := m.head, prod := AtRest), c.(cachedHead := c.head));
  }

  // ----- whole runs -----

  function Run<T>(m: Machine<T>, c: Counts, schedule: seq<Action<T>>): (r: (Machine<T>, Counts, seq<Event<T>>))
    requires Shape(m)
    ensures Shape(r.0) && |r.0.slots| == |m.slots|
    decreases |schedule|
  {
    if schedule == [] then (m, c, [])
    else
      var (m1, now) := Step(m, schedule[0]);
      var (m2, c2, later) := Run(m1, Count(m, c, schedule[0]), schedule[1..]);
      (m2, c2, now + later)
  }

  function PushedOf<T>(trace: seq<Event<T>>): seq<(nat, T)>
  {
    if trace == [] then []
    else (if trace[0].Pushed? then [(trace[0].slot, trace[0].v)] else []) + PushedOf(trace[1..])
  }

  function PoppedOf<T>(trace: seq<Event<T>>): seq<nat>
  {
    if trace == [] then []
    else (if trace[0].Popped? then [trace[0].slot] else []) + PoppedOf(trace[1..])
  }

  function Values<T>(pushed: seq<(nat, T)>): (vs: seq<T>)
    ensures |vs| == |pushed|
    ensures forall i :: 0 <= i < |vs| ==> vs[i] == pushed[i].1
  {
    seq(|pushed|, i requires 0 <= i < |pushed| => pushed[i].1)
  }

  lemma {:induction false} TraceSplit<T>(now: seq<Event<T>>, later: seq<Event<T>>)
    requires |now| <= 1
    ensures PushedOf(now + later) == PushedOf(now) + PushedOf(later)
    ensures PoppedOf(now + later) == PoppedOf(now) + PoppedOf(later)
  {
    if now == [] {
      assert now + later == later;
    } else {
      assert (now + later)[1..] == later;
      assert now[1..] == [];
    }
  }

  /** After any run, across any number of wraps: what is live is what was live before followed by
      everything pushed, less as many values as were popped; and the slots pushed to and popped
      from are visited in ring order. */
  lemma {:induction false} RunRefines<T>(m: Machine<T>, c: Counts, schedule: seq<Action<T>>)
    requires Shape(m) && Inv(m, c)
    ensures var (m', c', trace) := Run(m, c, schedule);
            var (pushed, popped) := (PushedOf(trace), PoppedOf(trace));
            && Inv(m', c')
            && c'.tail == c.tail + |pushed| && c'.head == c.head + |popped|
            && |popped| <= |Queue(m, c)| + |pushed|
            && Queue(m', c') == (Queue(m, c) + Values(pushed))[|popped|..]
            && PushedInOrder(pushed, c.tail, |m.slots|) && PoppedInOrder(popped, c.head, |m.slots|)
    decreases |schedule|
  {
    hide Slot, Step, IsPow2, Inv, Queue, Count, Wrap64;
    if schedule != [] {
      var a := schedule[0];
      var (m1, now) := Step(m, a);
      var c1 := Count(m, c, a);
      StepDelta(m, c, a);
      RunRefines(m1, c1, schedule[1..]);
      var (m2, c2, later) := Run(m1, c1, schedule[1..]);
      TraceSplit(now, later);
      assert Run(m, c, schedule) == (m2, c2, now + later);
      hide PushedOf, PoppedOf, Values, Run, PushedInOrder, PoppedInOrder;
      OrderAdds(PushedOf(now), PushedOf(later), PoppedOf(now), PoppedOf(later), c.tail, c.head, |m.slots|);
      Splice(Queue(m, c), PushedOf(now), PushedOf(later), |PoppedOf(now)|, |PoppedOf(later)|);
    } else {
      assert Queue(m, c) == (Queue(m, c) + [])[0..];
    }
  }

  /** The slots of these positions, one after the other. */
  predicate PushedInOrder<T>(pushed: seq<(nat, T)>, from: nat, cap: nat)
    requires cap > 0
  {
    forall k :: 0 <= k < |pushed| ==> pushed[k].0 == Slot(from + k, cap)
  }

  predicate PoppedInOrder(popped: seq<nat>, from: nat, cap: nat)
    requires cap > 0
  {
    forall k :: 0 <= k < |popped| ==> popped[k] == Slot(from + k, cap)
  }

  lemma {:induction false} OrderAdds<T>(pushed: seq<(nat, T)>, pushed': seq<(nat, T)>,
                                        popped: seq<nat>, popped': seq<nat>, tail: nat, head: nat, cap: nat)
    requires cap > 0 && PushedInOrder(pushed, tail, cap) && PushedInOrder(pushed', tail + |pushed|, cap)
    requires PoppedInOrder(popped, head, cap) && PoppedInOrder(popped', head + |popped|, cap)
    ensures PushedInOrder(pushed + pushed', tail, cap) && PoppedInOrder(popped + popped', head, cap)
  {
    hide Slot;
  }

  lemma {:induction false} Splice<T>(q: seq<T>, now: seq<(nat, T)>, later: seq<(nat, T)>, i: nat, j: nat)
    requires i <= |q| + |now| && i + j <= |q| + |now| + |later|
    ensures ((q + Values(now))[i..] + Values(later))[j..] == (q + Values(now + later))[i + j..]
  {
    assert Values(now + later) == Values(now) + Values(later);
    assert q + (Values(now) + Values(later)) == (q + Values(now)) + Values(later);
  }

  /** One step in the terms the run theorem adds up. */
  lemma {:induction false} StepDelta<T>(m: Machine<T>, c: Counts, a: Action<T>)
    requires Inv(m, c)
    ensures var (m', now) := Step(m, a);
            var c' := Count(m, c, a);
            var (pushed, popped) := (PushedOf(now), PoppedOf(now));
            && Shape(m) && Inv(m', c') && |now| <= 1 && |pushed| <= 1 && |popped| <= 1
            && c'.tail == c.tail + |pushed| && c'.head == c.head + |popped|
            && |popped| <= |Queue(m, c)| + |pushed|
            && Queue(m', c') == (Queue(m, c) + Values(pushed))[|popped|..]
            && PushedInOrder(pushed, c.tail, |m.slots|) && PoppedInOrder(popped, c.head, |m.slots|)
  {
    StepRefines(m, c, a);
    StepCounts(m, c, a);
    hide Slot, IsPow2, Inv, Queue, Wrap64, Step, Count;
    var (m', now) := Step(m, a);
    if now == [] {
      assert Queue(m, c) == (Queue(m, c) + [])[0..];
    } else {
      assert now[1..] == [];
      assert Queue(m, c) + Values(PushedOf(now)) == (Queue(m, c) + Values(PushedOf(now)))[0..];
      if !now[0].Pushed? {
        assert Values(PushedOf(now)) == [];
        assert Queue(m, c) + [] == Queue(m, c);
      } else {
        assert Values(PushedOf(now)) == [now[0].v];
      }
    }
  }

  lemma {:induction false} StepCounts<T>(m: Machine<T>, c: Counts, a: Action<T>)
    requires Shape(m)
    ensures var now := Step(m, a).1;
            && |now| <= 1
            && Count(m, c, a).tail == c.tail + (if now != [] && now[0].Pushed? then 1 else 0)
            && Count(m, c, a).head == c.head + (if now != [] && now[0].Popped? then 1 else 0)
  {
    hide Slot, IsPow2, Wrap64;
  }

  /** From an empty ring: the live values are exactly the pushed ones that no pop has passed. */
  lemma {:induction false} RunFromEmpty<T>(slots: seq<T>, schedule: seq<Action<T>>)
    requires 0 < |slots| < TWO_64 && IsPow2(|slots|)
    ensures Inv(Init(slots), Counts(0, 0, 0, 0))
    ensures var (m, c, trace) := Run(Init(slots), Counts(0, 0, 0, 0), schedule);
            && Inv(m, c)
            && |PoppedOf(trace)| <= |PushedOf(trace)| <= |PoppedOf(trace)| + |slots|
            && Queue(m, c) == Values(PushedOf(trace))[|PoppedOf(trace)|..]
  {
    hide IsPow2, Slot;
    var m0, c0 := Init(slots), Counts(0, 0, 0, 0);
    assert Queue(m0, c0) == [];
    RunRefines(m0, c0, schedule);
    var (m, c, trace) := Run(m0, c0, schedule);
    hide Run;
    assert [] + Values(PushedOf(trace)) == Values(PushedOf(trace));
  }
}
