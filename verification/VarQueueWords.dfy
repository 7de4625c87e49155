/** The 32-bit machine and the machine with counters that never wrap do the same thing.

    `Narrow` wraps every index of a state. Each step commutes with it, so a run of the source's
    machine has the events of the run of the unwrapped one, across any number of index wraps, and
    what is proved about that run holds for it.
  */
module VarQueueWords {
  import opened Bits
  import opened RingIndex
  import opened VarQueue
  import opened VarQueueProofs
  import opened VarQueueTheorems

  function NarrowProducer(p: Producer): Producer
  {
    match p
    case Reserve(msg, at) => Reserve(msg, Wrap32(at))
    case PutLevel(msg, at) => PutLevel(msg, Wrap32(at))
    case PutTsc(msg, at) => PutTsc(msg, Wrap32(at))
    case PutFunc(msg, at) => PutFunc(msg, Wrap32(at))
    case Copy(msg, at, k) => Copy(msg, Wrap32(at), k)
    case Publish(msg, at) => Publish(msg, Wrap32(at))
    case _ => p
  }

  function NarrowConsumer(c: Consumer): Consumer
  {
    match c
    case Waiting => Waiting
    case Loaded(r) => Loaded(Wrap32(r))
    case Scan(r, w, rewinds) => Scan(Wrap32(r), Wrap32(w), rewinds)
    case Rewind(next, w, rewinds) => Rewind(Wrap32(next), Wrap32(w), rewinds)
    case Holding(r, size) => Holding(Wrap32(r), size)
    case Popping(next) => Popping(Wrap32(next))
  }

  /** The state as 32-bit indices hold it. */
  function Narrow(m: Machine): Machine
  {
    m.(wraps := true, writing := Wrap32(m.writing), written := Wrap32(m.written),
       read := Wrap32(m.read), cache := Wrap32(m.cache),
       prod := NarrowProducer(m.prod), cons := NarrowConsumer(m.cons))
  }

  /** The indices the consumer compares for equality are less than 2^32 apart. */
  predicate Near(m: Machine)
  {
    && (m.cons.Loaded? ==> -TWO_32 < m.cons.r - m.written < TWO_32)
    && (m.cons.Rewind? ==> -TWO_32 < m.cons.next - m.cons.w < TWO_32)
  }

  lemma {:induction false} InvNear(m: Machine)
    requires Inv(m)
    ensures Near(m)
  {
    hide Chain, ProducerInv, Slot, SizeOf;
  }

  // ----- wrapping keeps slots, sizes and the guard -----

  lemma WrapSum(x: int, y: int)
    ensures Wrap32(Wrap32(x) + y) == Wrap32(x + y)
  {
  }

  lemma WrapEqual(x: int, y: int)
    requires -TWO_32 < x - y < TWO_32
    ensures Wrap32(x) == Wrap32(y) <==> x == y
  {
  }

  lemma {:induction false} WrapKeepsSlot(i: nat, n: nat)
    requires IsPow2(n) && n <= TWO_31
    ensures Slot(Wrap32(i), n) == Slot(i, n)
  {
    SlotIsMod(Wrap32(i), n);
    SlotIsMod(i, n);
    WrapKeepsMod(i, n);
  }

  lemma {:induction false} NeededNarrow(n: nat, w: nat, len: nat)
    requires n > 0 && Slot(Wrap32(w), n) == Slot(w, n)
    ensures Needed(n, Wrap32(w), len) == Needed(n, w, len)
  {
    hide Slot, BlockCount, Wrap32;
  }

  lemma {:induction false} PutNarrow(m: Machine, at: nat, offset: nat, bytes: seq<byte>)
    requires Shape(m) && IsPow2(m.n)
    ensures Put(Narrow(m), Wrap32(at), offset, bytes) == Narrow(Put(m, at, offset, bytes))
  {
    hide Slot, IsPow2, Wrap32, Store, NarrowProducer, NarrowConsumer;
    WrapKeepsSlot(at, m.n);
  }

  lemma {:induction false} SizesNarrow(n: nat, w: nat, len: nat)
    requires IsPow2(n) && n <= TWO_31
    ensures PadBlocks(n, Wrap32(w)) == PadBlocks(n, w)
    ensures Rewinds(n, Wrap32(w), len) == Rewinds(n, w, len)
    ensures Needed(n, Wrap32(w), len) == Needed(n, w, len)
    ensures MinReadIdx(n, Wrap32(w), len) == MinReadIdx(n, w, len)
  {
    hide Slot, IsPow2, BlockCount, Wrap32, Needed;
    WrapKeepsSlot(w, n);
    NeededNarrow(n, w, len);
    WrapSum(w, Needed(n, w, len));
  }

  lemma {:induction false} GuardNarrow(m: Machine, readIdx: nat, len: nat)
    requires Shape(m) && IsPow2(m.n)
    ensures GuardFails(Narrow(m), Wrap32(readIdx), len) == GuardFails(m, readIdx, len)
  {
    hide IsPow2, AsI32, Wrap32, MinReadIdx, Needed, Rewinds, PadBlocks, NarrowProducer, NarrowConsumer;
    SizesNarrow(m.n, m.writing, len);
    WrapSum(readIdx, 0);
  }

  /** The test that no call fools the guard, on the stored words alone. */
  predicate TrustedWords(n: nat, writing: u32, read: u32, cache: u32, len: nat)
    requires n > 0
  {
    var least := MinReadIdx(n, writing, len);
    && TotalBytes(len) < TWO_32
    && (Wrap32(writing - read) + Needed(n, writing, len) <= n ||
        (AsI32(cache) < AsI32(least) && AsI32(read) < AsI32(least)))
  }

  /** It decides the condition exactly, but for a consumer between recognising a pad and moving past
      it, which the words do not show: there it errs on the safe side. */
  lemma {:induction false} TrustedWordsExact(m: Machine, msg: Msg)
    requires Inv(m) && IsPow2(m.n)
    ensures var test := TrustedWords(m.n, Wrap32(m.writing), Wrap32(m.read), Wrap32(m.cache), |msg.payload|);
            (test ==> Trusted(m, msg)) && (Trusted(m, msg) && !m.cons.Rewind? ==> test)
  {
    var len := |msg.payload|;
    LapDifference(m);
    UnreadNear(m);
    hide Inv, IsPow2, Needed, Wrap32, AsI32, MinReadIdx, Rewinds, PadBlocks;
    SizesNarrow(m.n, m.writing, len);
  }

  lemma {:induction false} LapDifference(m: Machine)
    requires Inv(m)
    ensures Shape(m) && Wrap32(Wrap32(m.writing) - Wrap32(m.read)) == m.writing - m.read
  {
    hide Chain, ProducerInv, ConsumerInv, Slot;
    UnreadNear(m);
    WrapGap(m.writing, m.read);
  }

  lemma WrapGap(x: int, y: int)
    requires 0 <= x - y < TWO_32
    ensures Wrap32(Wrap32(x) - Wrap32(y)) == x - y
  {
  }

  // ----- steps commute with wrapping -----

  predicate Commutes(here: (Machine, seq<Event>), there: (Machine, seq<Event>))
  {
    there == (Narrow(here.0), here.1)
  }

  lemma {:induction false} BeginNarrow(m: Machine, msg: Msg)
    requires Shape(m) && IsPow2(m.n) && m.prod.Ready?
    ensures Commutes(Begin(m, msg), Begin(Narrow(m), msg))
  {
    hide IsPow2, GuardFails, Rewinds, Needed, MinReadIdx, PadBlocks, Wrap32;
    SizesNarrow(m.n, m.writing, |msg.payload|);
    GuardNarrow(m, m.cache, |msg.payload|);
  }

  lemma {:induction false} ProducerNarrow(m: Machine)
    requires Shape(m) && IsPow2(m.n) && !m.wraps
    ensures Commutes(ProducerStep(m), ProducerStep(Narrow(m)))
  {
    hide IsPow2, GuardFails, Rewinds, Slot, Wrap32, Put, LE32, LE64, BlockCount, PadBlocks, MinReadIdx, Needed;
    match m.prod
    case Ready =>
    case Refresh(msg) =>
      SizesNarrow(m.n, m.writing, |msg.payload|);
      GuardNarrow(m.(cache := m.read), m.read, |msg.payload|);
    case Mark(msg) => PutNarrow(m, m.writing, 0, LE32(0));
    case Skip(msg) =>
      SizesNarrow(m.n, m.writing, |msg.payload|);
      WrapSum(m.writing, PadBlocks(m.n, m.writing));
    case Reserve(msg, at) => WrapSum(at, BlockCount(|msg.payload|));
    case PutLevel(msg, at) => PutNarrow(m, at, 4, LE32(msg.level));
    case PutTsc(msg, at) => PutNarrow(m, at, 8, LE64(AsU64(msg.tsc)));
    case PutFunc(msg, at) => PutNarrow(m, at, 16, LE64(msg.logFunc));
    case Copy(msg, at, k) =>
      if k < |msg.payload| {
        PutNarrow(m, at, HEADER + k, [msg.payload[k]]);
      } else {
        PutNarrow(m, at, 0, LE32(Wrap32(TotalBytes(|msg.payload|))));
      }
    case Publish(msg, at) =>
  }

  lemma {:induction false} ConsumerNarrow(m: Machine)
    requires Shape(m) && IsPow2(m.n) && !m.wraps && Near(m)
    ensures Commutes(ConsumerStep(m), ConsumerStep(Narrow(m)))
  {
    hide IsPow2, Slot, Wrap32, MsgAt, SizeField, DivCeil;
    WrapKeepsSlot(m.read, m.n);
    match m.cons
    case Waiting =>
    case Loaded(r) => WrapEqual(r, m.written);
    case Scan(r, w, rewinds) =>
      WrapKeepsSlot(r, m.n);
      WrapSum(r, PadBlocks(m.n, r));
    case Rewind(next, w, rewinds) => WrapEqual(next, w);
    case Holding(r, size) => WrapSum(m.read, DivCeil(SizeField(m.mem, Slot(m.read, m.n)), BLOCK));
    case Popping(next) =>
  }

  /** A step of the 32-bit machine is the step of the unwrapped one, wrapped, with its events. */
  lemma {:induction false} StepNarrow(m: Machine, a: Action)
    requires Shape(m) && IsPow2(m.n) && !m.wraps && Near(m)
    ensures Commutes(Step(m, a), Step(Narrow(m), a))
    ensures !Step(m, a).0.wraps
  {
    hide IsPow2, Slot, Wrap32, MsgAt, SizeField, GuardFails, Rewinds, LE32, LE64, Store;
    match a
    case Call(msg) => if m.prod.Ready? { BeginNarrow(m, msg); }
    case Produce => ProducerNarrow(m);
    case Consume => ConsumerNarrow(m);
    case Look => if m.cons.Holding? { WrapKeepsSlot(m.cons.r, m.n); }
  }

  // ----- whole runs -----

  /** Near in every state the schedule passes through. */
  predicate RunNear(m: Machine, schedule: seq<Action>)
    requires Shape(m)
    decreases |schedule|
  {
    Near(m) && (schedule == [] || RunNear(Step(m, schedule[0]).0, schedule[1..]))
  }

  lemma {:induction false} RunNarrow(m: Machine, schedule: seq<Action>)
    requires Shape(m) && IsPow2(m.n) && !m.wraps && RunNear(m, schedule)
    ensures Run(Narrow(m), schedule) == (Narrow(Run(m, schedule).0), Run(m, schedule).1)
    ensures !Run(m, schedule).0.wraps
    decreases |schedule|
  {
    hide IsPow2, Step, Near, Narrow;
    if schedule != [] {
      StepNarrow(m, schedule[0]);
      RunNarrow(Step(m, schedule[0]).0, schedule[1..]);
    }
  }

  lemma {:induction false} OkIsNear(m: Machine, schedule: seq<Action>)
    requires Shape(m) && Inv(m) && RunOk(m, schedule)
    ensures RunNear(m, schedule)
    decreases |schedule|
  {
    hide Inv, Contents, Step, ActionOk, Near, FifoStep;
    InvNear(m);
    if schedule != [] {
      StepRefines(m, schedule[0]);
      OkIsNear(Step(m, schedule[0]).0, schedule[1..]);
    }
  }

  /** What a run from the empty ring must be: no store outside the ring, no false end, and the k-th
      message popped is the k-th committed. */
  predicate Faithful(run: (Machine, seq<Event>))
  {
    !run.0.fault && FalseEmpty !in run.1 && PopsOf(run.1) <= CommitsOf(run.1)
  }

  /** From the empty ring, over every interleaving and across any number of index wraps: the k-th
      message popped is the k-th message committed, nothing is lost, repeated, reordered or
      altered, no store leaves the ring and `front` never reports a false end, as long as no call
      is made at an index that fools the guard. */
  lemma {:induction false} FifoFromEmpty(n: nat, schedule: seq<Action>)
    requires IsPow2(n) && n <= TWO_31
    requires RunOk(Init(n, false), schedule)
    ensures Faithful(Run(Init(n, true), schedule))
  {
    InitInv(n);
    assert Narrow(Init(n, false)) == Init(n, true);
    hide Contents, Run, RunOk, IsPow2;
    OkIsNear(Init(n, false), schedule);
    RunNarrow(Init(n, false), schedule);
    RunRefines(Init(n, false), schedule);
    var (m', trace) := Run(Init(n, false), schedule);
    assert Inv(m');
    assert CommitsOf(trace) == [] + CommitsOf(trace) == PopsOf(trace) + Contents(m');
  }

  /** In particular on every run whose calls stay below index 2^31. */
  lemma {:induction false} FifoBelowEdge(n: nat, schedule: seq<Action>)
    requires IsPow2(n) && n <= TWO_31
    requires BelowEdge(Init(n, false), schedule)
    ensures Faithful(Run(Init(n, true), schedule))
  {
    InitInv(n);
    hide Inv, Run, BelowEdge, RunOk, IsPow2, Faithful;
    BelowEdgeOk(Init(n, false), schedule);
    FifoFromEmpty(n, schedule);
  }
}
