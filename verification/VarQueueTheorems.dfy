/** What the block queue guarantees: FIFO over every run, isolation of published blocks,
    exact acceptance, and the exact indices on which the space guard can be trusted. */
module VarQueueTheorems {
  import opened Bits
  import opened RingIndex
  import opened VarQueue
  import opened VarQueueProofs

  // ----- one step -----

  /** Every step keeps the invariant and is a step of the FIFO of messages. */
  lemma {:induction false} StepRefines(m: Machine, a: Action)
    requires Inv(m) && ActionOk(m, a)
    ensures Inv(Step(m, a).0)
    ensures FifoStep(Contents(m), Contents(Step(m, a).0), Step(m, a).1)
  {
    hide ProducerStep, ConsumerStep, Begin, Chain, Parse, ProducerInv, MsgAt, Slot;
    match a
    case Call(msg) => if m.prod.Ready? { BeginAdvances(m, msg); }
    case Produce => ProducerAdvances(m);
    case Consume => ConsumerAdvances(m);
    case Look => if m.cons.Holding? { ChainHead(m.mem, m.n, m.read, m.written); }
  }

  /** No step of the producer changes a byte of any block the consumer may still read. */
  lemma {:induction false} Isolation(m: Machine, a: Action)
    requires Inv(m) && (a.Call? || a.Produce?)
    ensures |Step(m, a).0.mem| == |m.mem|
    ensures SameBlocks(m.mem, Step(m, a).0.mem, m.n, Unread(m), m.written)
  {
    hide Chain, Parse, ConsumerInv, Slot, Holds, LE32, LE64, Block;
    match m.prod
    case Mark(_) => MarkAdvances(m);
    case PutLevel(_, _) => PutLevelAdvances(m);
    case PutTsc(_, _) => PutTscAdvances(m);
    case PutFunc(_, _) => PutFuncAdvances(m);
    case Copy(msg, _, k) => if k < |msg.payload| { CopyByteAdvances(m); } else { PutSizeAdvances(m); }
    case _ =>
  }

  /** In every reachable state: at most one lap is in use, `front` has rewound at most once, and
      what `pop` is about to free is what `try_alloc` reserved for the message at the front. */
  lemma {:induction false} StateFacts(m: Machine)
    requires Inv(m)
    ensures m.cache <= m.read <= Unread(m) <= m.written <= m.writing <= Unread(m) + m.n
    ensures m.cons.Scan? || m.cons.Rewind? ==> m.cons.rewinds <= 1
    ensures m.cons.Scan? && m.cons.rewinds == 1 ==>
              SizeOf(m.mem, m.n, m.cons.r) != 0
    ensures m.cons.Popping? ==>
              Contents(m) != [] &&
              m.cons.next == m.read + DivCeil(TotalBytes(|Contents(m)[0].payload|), BLOCK)
  {
    hide Parse, ProducerInv, Slot, Get32, Get64;
    if Unread(m) < m.written {
      ChainHead(m.mem, m.n, Unread(m), m.written);
    }
    if m.cons.Scan? {
      ChainHead(m.mem, m.n, m.read, m.cons.w);
    }
  }

  // ----- whole runs -----

  /** Every call of the schedule meets its condition in the state it is made in. */
  predicate RunOk(m: Machine, schedule: seq<Action>)
    requires Shape(m)
    decreases |schedule|
  {
    schedule == [] ||
    (ActionOk(m, schedule[0]) &&
     RunOk(Step(m, schedule[0]).0, schedule[1..]))
  }

  function CommitsOf(trace: seq<Event>): seq<Msg>
  {
    if trace == [] then []
    else (if trace[0].Committed? then [trace[0].msg] else []) + CommitsOf(trace[1..])
  }

  function PopsOf(trace: seq<Event>): seq<Msg>
  {
    if trace == [] then []
    else (if trace[0].Popped? then [trace[0].msg] else []) + PopsOf(trace[1..])
  }

  lemma {:induction false} TraceSplit(now: seq<Event>, later: seq<Event>)
    requires |now| <= 1
    ensures CommitsOf(now + later) == CommitsOf(now) + CommitsOf(later)
    ensures PopsOf(now + later) == PopsOf(now) + PopsOf(later)
  {
    if now == [] {
      assert now + later == later;
    } else {
      assert (now + later)[1..] == later;
      assert now[1..] == [];
    }
  }

  /** Conservation composes. */
  lemma Compose(q0: seq<Msg>, in1: seq<Msg>, out1: seq<Msg>, q1: seq<Msg>, in2: seq<Msg>, out2: seq<Msg>, q2: seq<Msg>)
    requires q0 + in1 == out1 + q1 && q1 + in2 == out2 + q2
    ensures q0 + (in1 + in2) == (out1 + out2) + q2
  {
    calc {
      q0 + (in1 + in2);
      (q0 + in1) + in2;
      out1 + (q1 + in2);
      (out1 + out2) + q2;
    }
  }

  /** Conservation over a run: queued before, then committed, is popped, then queued after. */
  lemma {:induction false} RunRefines(m: Machine, schedule: seq<Action>)
    requires Shape(m) && Inv(m) && RunOk(m, schedule)
    ensures Inv(Run(m, schedule).0)
    ensures var (m', trace) := Run(m, schedule);
            Contents(m) + CommitsOf(trace) == PopsOf(trace) + Contents(m')
    ensures FalseEmpty !in Run(m, schedule).1
    decreases |schedule|
  {
    hide Inv, Contents, Step, ActionOk;
    if schedule != [] {
      StepRefines(m, schedule[0]);
      var (m1, now) := Step(m, schedule[0]);
      RunRefines(m1, schedule[1..]);
      var (m2, later) := Run(m1, schedule[1..]);
      TraceSplit(now, later);
      assert Run(m, schedule).1 == now + later;
      StepConserves(Contents(m), Contents(m1), now);
      hide CommitsOf, PopsOf, FifoStep;
      Compose(Contents(m), CommitsOf(now), PopsOf(now), Contents(m1), CommitsOf(later), PopsOf(later), Contents(m2));
    } else {
      assert Contents(m) + [] == [] + Contents(m);
    }
  }

  lemma {:induction false} StepConserves(q: seq<Msg>, q': seq<Msg>, events: seq<Event>)
    requires FifoStep(q, q', events)
    ensures q + CommitsOf(events) == PopsOf(events) + q'
    ensures FalseEmpty !in events && |events| <= 1
  {
    if events != [] {
      assert events[1..] == [];
    }
  }

  /** While the consumer holds a message, whatever the producer does, every look at it reads the
      message at the front of the queue, and all its blocks keep every byte. */
  lemma {:induction false} HeldMessageStable(m: Machine, schedule: seq<Action>)
    requires Shape(m) && Inv(m) && RunOk(m, schedule) && m.cons.Holding?
    requires forall a :: a in schedule ==> !a.Consume?
    ensures var (m', trace) := Run(m, schedule);
            && Inv(m') && m'.cons == m.cons && m'.read == m.read && |m'.mem| == |m.mem|
            && Contents(m) != [] && Contents(m') != [] && Contents(m')[0] == Contents(m)[0]
            && (forall e :: e in trace && e.Seen? ==> e.msg == Contents(m)[0])
            && m'.n == m.n && m.written <= m'.written
            && SameBlocks(m.mem, m'.mem, m.n, m.read, m.written)
    decreases |schedule|
  {
    hide Inv, Contents, Step, ActionOk, BlockOf;
    HoldingFront(m);
    if schedule != [] {
      var a := schedule[0];
      StepRefines(m, a);
      HeldStep(m, a);
      var (m1, now) := Step(m, a);
      HeldMessageStable(m1, schedule[1..]);
      assert schedule[0] in schedule;
      assert Run(m, schedule).1 == now + Run(m1, schedule[1..]).1;
      var m2 := Run(m1, schedule[1..]).0;
      forall i | m.read <= i < m.written
        ensures BlockOf(m.mem, m.n, i) == BlockOf(m2.mem, m.n, i)
      {
        assert BlockOf(m.mem, m.n, i) == BlockOf(m1.mem, m.n, i);
        assert BlockOf(m1.mem, m.n, i) == BlockOf(m2.mem, m.n, i);
      }
    }
  }

  lemma {:induction false} HoldingFront(m: Machine)
    requires Inv(m) && m.cons.Holding?
    ensures Contents(m) != []
  {
    hide Chain, Parse, ProducerInv, Slot, Get32, MsgAt;
    ChainHead(m.mem, m.n, m.read, m.written);
  }

  lemma {:induction false} HeldStep(m: Machine, a: Action)
    requires Inv(m) && ActionOk(m, a) && m.cons.Holding? && !a.Consume?
    ensures var (m1, now) := Step(m, a);
            && m1.cons == m.cons && m1.read == m.read && m1.n == m.n && |m1.mem| == |m.mem|
            && m.written <= m1.written
            && SameBlocks(m.mem, m1.mem, m.n, m.read, m.written)
            && |now| <= 1 && (forall e :: e in now ==> !e.Popped?)
  {
    hide Chain, Parse, Slot, ProducerInv, ConsumerInv, Block, Get32, MsgAt, Store, LE32, LE64;
    if !a.Look? {
      Isolation(m, a);
    }
  }

  // ----- acceptance -----

  /** `try_alloc` with nobody else moving: the guard on the cache, then on a fresh load. */
  predicate Accepts(m: Machine, msg: Msg)
    requires m.n > 0
  {
    TotalBytes(|msg.payload|) < TWO_64 &&
    (!GuardFails(m, m.cache, |msg.payload|) || !GuardFails(m, m.read, |msg.payload|))
  }

  /** The guard cannot be fooled in this state, on the cached index or on a fresh one. */
  predicate Trusted(m: Machine, msg: Msg)
    requires m.n > 0
  {
    CallOk(m, msg) && Truthful(m, m.read, |msg.payload|)
  }

  lemma {:induction false} ReadNearLeast(m: Machine, len: nat)
    requires Inv(m) && TotalBytes(len) < TWO_32
    ensures -TWO_32 < m.read - Least(m, len) < TWO_32
  {
    hide Chain, ProducerInv, ConsumerInv, Slot, Needed, Rewinds, BlockCount;
    NeededExact(m.n, m.writing, len);
    BlocksFew(len);
    if m.cons.Rewind? && Rewinds(m.n, m.writing, len) {
      LapOffset(m, len);
    }
    RewindsMeans(m.n, m.writing, len);
    UnreadNear(m);
  }

  lemma BlocksFew(len: nat)
    requires TotalBytes(len) < TWO_32
    ensures BlockCount(len) <= 0x400_0000
  {
  }

  lemma RewindsMeans(n: nat, w: nat, len: nat)
    requires n > 0
    ensures Rewinds(n, w, len) <==> BlockCount(len) > n - Slot(w, n)
  {
  }

  lemma UnreadNear(m: Machine)
    requires Inv(m)
    ensures m.read <= Unread(m) <= m.written && Unread(m) < m.read + m.n
  {
  }

  /** Behind a rewind the writer's slot is its distance from the ring start the consumer moves to. */
  lemma {:induction false} LapOffset(m: Machine, len: nat)
    requires Inv(m) && m.cons.Rewind?
    ensures m.writing < Unread(m) + m.n ==> Slot(m.writing, m.n) == m.writing - Unread(m)
  {
    hide Chain, ProducerInv, Slot;
    if m.writing < Unread(m) + m.n {
      SlotAdd(Unread(m), m.writing - Unread(m), m.n);
    }
  }

  /** At its load of `read_idx` a call is turned down exactly when there is no room and the guard
      compares within one window, or there is room and it does not; and a call that is turned down
      changes nothing but the producer's cache. */
  lemma {:induction false} RejectedExactly(m: Machine)
    requires Inv(m) && m.prod.Refresh?
    ensures var (m', events) := ProducerStep(m);
            var msg, least := m.prod.msg, Least(m, |m.prod.msg.payload|);
            && (events == [Rejected(msg)] <==>
                (m.read < least <==> Window(m.read) == Window(least)))
            && (events == [Rejected(msg)] ==> m' == m.(cache := m.read, prod := Ready))
            && (events != [Rejected(msg)] ==> events == [] && (m'.prod.Mark? || m'.prod.Reserve?))
  {
    ReadNearLeast(m, |m.prod.msg.payload|);
    GuardExact(m.(cache := m.read), m.read, |m.prod.msg.payload|);
    hide Inv, Needed, Window;
  }

  /** The cached index or a fresh one passes the guard. */
  predicate Admits(m: Machine, len: nat)
    requires m.n > 0
  {
    Passes(m.cache, Least(m, len)) || Passes(m.read, Least(m, len))
  }

  /** A call is accepted exactly when one of the two indices passes, at whatever distance. */
  lemma {:induction false} AcceptsExactly(m: Machine, msg: Msg)
    requires m.n > 0 && TotalBytes(|msg.payload|) < TWO_64
    ensures Accepts(m, msg) <==> Admits(m, |msg.payload|)
  {
    GuardIsPasses(m, m.cache, |msg.payload|);
    GuardIsPasses(m, m.read, |msg.payload|);
    hide GuardFails, Least, Passes;
  }

  /** Where the guard cannot be fooled, what is accepted has room; and within one window what has
      room is accepted. */
  lemma {:induction false} AdmitsMeans(m: Machine, msg: Msg)
    requires Inv(m) && m.prod.Ready? && Trusted(m, msg)
    ensures Admits(m, |msg.payload|) ==> Least(m, |msg.payload|) <= Unread(m)
    ensures !m.cons.Rewind? && Window(m.read) == Window(Least(m, |msg.payload|)) ==>
              (Admits(m, |msg.payload|) <==> Least(m, |msg.payload|) <= m.read)
  {
    GuardIsPasses(m, m.cache, |msg.payload|);
    GuardIsPasses(m, m.read, |msg.payload|);
    hide Inv, Needed, Window, GuardFails;
  }

  /** A message of more blocks than the ring is accepted exactly across a window edge, and never
      within one window; on a drained ring within one window a message is accepted exactly when it
      and its pad fit the ring, and half a ring always fits. */
  lemma {:induction false} AcceptanceBySize(m: Machine, msg: Msg)
    requires Inv(m) && m.prod.Ready? && Representable(msg)
    ensures var len, least := |msg.payload|, Least(m, |msg.payload|);
            && (BlockCount(len) > m.n ==>
                  (Accepts(m, msg) <==> Window(m.read) != Window(least) || Passes(m.cache, least)))
            && (Window(m.cache) == Window(m.read) == Window(least) ==>
                  && (BlockCount(len) > m.n ==> !Accepts(m, msg))
                  && (m.read == m.writing ==> (Accepts(m, msg) <==> Needed(m.n, m.writing, len) <= m.n))
                  && (m.read == m.writing && 2 * BlockCount(len) <= m.n ==> Accepts(m, msg)))
  {
    var len := |msg.payload|;
    AcceptsExactly(m, msg);
    ReadNearLeast(m, len);
    IndexOrder(m);
    NeededExact(m.n, m.writing, len);
    RewindsMeans(m.n, m.writing, len);
    BlocksFew(len);
    hide Inv, Accepts, Window, Slot, BlockCount, Rewinds, Needed;
    PassesNear(m.read, Least(m, len));
    if Window(m.cache) == Window(m.read) == Window(Least(m, len)) {
      assert Passes(m.cache, Least(m, len)) <==> Least(m, len) <= m.cache;
    }
  }

  lemma IndexOrder(m: Machine)
    requires Inv(m)
    ensures 0 < m.n <= TWO_31 && m.cache <= m.read <= m.writing
  {
  }

  /** Less than 2^32 apart, an index below the least one passes exactly from another window. */
  lemma PassesNear(readIdx: int, least: int)
    requires -TWO_32 < readIdx - least < TWO_32
    ensures readIdx < least ==> (Passes(readIdx, least) <==> Window(readIdx) != Window(least))
    ensures readIdx >= least ==> (Passes(readIdx, least) <==> Window(readIdx) == Window(least))
  {
    SignedViewShifts(readIdx);
    SignedViewShifts(least);
  }

  // ----- where the guard stops being right -----

  /** An index behind the consumer's fools the guard exactly when the call has no room and the
      index and the least admissible one lie in different windows. */
  lemma {:induction false} TruthfulExactly(m: Machine, readIdx: nat, len: nat)
    requires m.n > 0 && readIdx <= Unread(m) && -TWO_32 < readIdx - Least(m, len) < TWO_32
    ensures Truthful(m, readIdx, len) <==>
            Least(m, len) <= Unread(m) || Window(readIdx) == Window(Least(m, len))
  {
    GuardExact(m, readIdx, len);
    hide Least, Window, GuardFails;
  }

  /** A drained ring accepts a message that fits exactly when it does not straddle a window edge or
      the stale index happens to pass. */
  lemma {:induction false} DrainedRingAccepts(m: Machine, msg: Msg)
    requires Inv(m) && m.prod.Ready? && Representable(msg)
    requires m.read == m.writing && Needed(m.n, m.writing, |msg.payload|) <= m.n
    ensures var least := Least(m, |msg.payload|);
            Accepts(m, msg) <==> Window(m.read) == Window(least) || Passes(m.cache, least)
  {
    ReadNearLeast(m, |msg.payload|);
    PassesNear(m.read, Least(m, |msg.payload|));
    AcceptsExactly(m, msg);
    hide Inv, Needed, Window, Accepts, Passes;
  }

  /** With its producer knowing that it is drained, it turns the message down exactly when the ring
      straddles a window edge. */
  lemma {:induction false} DrainedRingRejects(m: Machine, msg: Msg)
    requires Inv(m) && m.prod.Ready? && Representable(msg)
    requires m.cache == m.read == m.writing && Needed(m.n, m.writing, |msg.payload|) <= m.n
    ensures Accepts(m, msg) <==> Window(m.read) == Window(Least(m, |msg.payload|))
  {
    ReadNearLeast(m, |msg.payload|);
    GuardExact(m, m.read, |msg.payload|);
    hide Inv, Needed, Window;
  }

  /** Every call of the schedule fits the ring of m and straddles a window edge from there. */
  predicate Straddling(m: Machine, msg: Msg)
    requires m.n > 0
  {
    && Representable(msg) && Needed(m.n, m.writing, |msg.payload|) <= m.n
    && Window(m.read) != Window(Least(m, |msg.payload|))
  }

  predicate Stuck(m: Machine)
  {
    && Inv(m) && m.cache == m.read == m.writing
    && (m.prod.Ready? || (m.prod.Refresh? && Straddling(m, m.prod.msg)))
  }

  lemma {:induction false} StuckStep(m: Machine, a: Action)
    requires Stuck(m) && (a.Call? ==> Straddling(m, a.msg))
    ensures var (m', now) := Step(m, a);
            && Stuck(m') && m' == m.(prod := m'.prod, cons := m'.cons)
            && |now| <= 1 && (forall e :: e in now ==> e.Rejected? || e.Empty?)
  {
    hide Chain, Parse, GuardFails, Needed, Window, SizeField, SizeOf, MsgAt, Slot, Holds, LE32, LE64;
    if a.Call? && m.prod.Ready? {
      DrainedRingRejects(m, a.msg);
      assert GuardFails(m, m.cache, |a.msg.payload|);
      assert Step(m, a) == (m.(prod := Refresh(a.msg)), []);
    } else if a.Produce? && m.prod.Refresh? {
      DrainedRingRejects(m.(prod := Ready), m.prod.msg);
      GuardOfIndices(m.(prod := Ready), m, |m.prod.msg.payload|);
      assert GuardFails(m, m.read, |m.prod.msg.payload|);
      assert m.(cache := m.read) == m;
      assert Step(m, a) == (m.(prod := Ready), [Rejected(m.prod.msg)]);
    } else if a.Consume? {
      ConsumerAdvances(m);
    }
  }

  /** Such a ring never moves again: over every schedule of such calls, whatever both sides do,
      nothing is committed or popped and no index or byte changes. */
  lemma {:induction false} DrainedRingStuck(m: Machine, schedule: seq<Action>)
    requires Shape(m) && Stuck(m)
    requires forall a :: a in schedule && a.Call? ==> Straddling(m, a.msg)
    ensures var (m', trace) := Run(m, schedule);
            && m' == m.(prod := m'.prod, cons := m'.cons)
            && (forall e :: e in trace ==> e.Rejected? || e.Empty?)
    decreases |schedule|
  {
    hide Stuck, Step;
    if schedule != [] {
      assert schedule[0] in schedule;
      StuckStep(m, schedule[0]);
      var m1 := Step(m, schedule[0]).0;
      forall a | a in schedule[1..] && a.Call?
        ensures Straddling(m1, a.msg)
      {
        assert a in schedule;
      }
      DrainedRingStuck(m1, schedule[1..]);
    }
  }

  // ----- runs below index 2^31 -----

  /** Every call of the schedule has its least read index below 2^31. */
  predicate BelowEdge(m: Machine, schedule: seq<Action>)
    requires Shape(m)
    decreases |schedule|
  {
    schedule == [] ||
    ((schedule[0].Call? && m.prod.Ready? ==> CallBelow(m, schedule[0].msg)) &&
     BelowEdge(Step(m, schedule[0]).0, schedule[1..]))
  }

  predicate CallBelow(m: Machine, msg: Msg)
    requires m.n > 0
  {
    Representable(msg) && Least(m, |msg.payload|) < TWO_31
  }

  predicate RetryBelow(m: Machine)
    requires m.n > 0
  {
    m.prod.Refresh? ==> CallBelow(m, m.prod.msg)
  }

  lemma {:induction false} BelowIsTruthful(m: Machine, readIdx: nat, msg: Msg)
    requires 0 < m.n <= TWO_31 && readIdx <= Unread(m) && CallBelow(m, msg)
    ensures Truthful(m, readIdx, |msg.payload|)
  {
    var least := Least(m, |msg.payload|);
    assert least >= -TWO_31;
    if Unread(m) < least {
      TruthfulExactly(m, readIdx, |msg.payload|);
      hide Least;
      assert Window(readIdx) == 0 == Window(least);
    }
  }

  /** Below index 2^31 the guard is never fooled, so every such run is covered. */
  lemma {:induction false} BelowEdgeOk(m: Machine, schedule: seq<Action>)
    requires Shape(m) && Inv(m) && RetryBelow(m) && BelowEdge(m, schedule)
    ensures RunOk(m, schedule)
    decreases |schedule|
  {
    hide Contents, FifoStep;
    if schedule != [] {
      BelowStep(m, schedule[0]);
      StepRefines(m, schedule[0]);
      hide Inv, Step, ActionOk, RetryBelow;
      BelowEdgeOk(Step(m, schedule[0]).0, schedule[1..]);
    }
  }

  lemma {:induction false} BelowStep(m: Machine, a: Action)
    requires Inv(m) && RetryBelow(m) && (a.Call? && m.prod.Ready? ==> CallBelow(m, a.msg))
    ensures ActionOk(m, a) && RetryBelow(Step(m, a).0)
  {
    hide Chain, ProducerInv, ConsumerInv, Needed, GuardFails, Slot, MsgAt, SizeField, Store, LE32, LE64;
    if m.prod.Refresh? {
      BelowIsTruthful(m, m.read, m.prod.msg);
    }
    if a.Call? && m.prod.Ready? {
      BelowIsTruthful(m, m.cache, a.msg);
    }
  }

  /** Everything reserved, or about to be, ends within one lap of the stored read index. */
  predicate InLap(m: Machine)
    requires m.n > 0
  {
    && m.writing <= m.read + m.n
    && match m.prod
       case Mark(msg) => Least(m, |msg.payload|) <= m.read
       case Skip(msg) => Least(m, |msg.payload|) <= m.read
       case Reserve(msg, at) => at + BlockCount(|msg.payload|) <= m.read + m.n
       case _ => true
  }

  lemma {:induction false} PassedBelow(m: Machine, readIdx: nat, msg: Msg)
    requires Inv(m) && readIdx <= m.read && CallBelow(m, msg)
    requires !GuardFails(m, readIdx, |msg.payload|)
    ensures Least(m, |msg.payload|) <= m.read
  {
    IndexOrder(m);
    var least := Least(m, |msg.payload|);
    assert least >= -TWO_31;
    hide Inv, Least, GuardFails;
    if m.read < least {
      GuardExact(m, readIdx, |msg.payload|);
    }
  }

  lemma {:induction false} InLapPass(m: Machine, readIdx: nat, msg: Msg)
    requires Inv(m) && m.writing == m.written <= m.read + m.n && readIdx <= m.read && CallBelow(m, msg)
    requires !GuardFails(m, readIdx, |msg.payload|)
    ensures InLap(PassGuard(m, msg))
  {
    PassedBelow(m, readIdx, msg);
    NeededExact(m.n, m.writing, |msg.payload|);
    hide Inv, Slot, GuardFails, BlockCount, Rewinds;
  }

  lemma {:induction false} InLapProducer(m: Machine)
    requires Inv(m) && InLap(m) && RetryBelow(m)
    ensures InLap(ProducerStep(m).0)
  {
    hide Chain, Parse, ConsumerInv, GuardFails, Needed, SizeOf, Slot, Holds, LE32, LE64, BlockCount, Put;
    match m.prod
    case Ready =>
    case Refresh(msg) =>
      var m1 := m.(cache := m.read);
      GuardOfIndices(m, m1, |msg.payload|);
      if !GuardFails(m, m.read, |msg.payload|) {
        CacheRefreshed(m);
        InLapPass(m1, m.read, msg);
      }
    case Mark(msg) =>
    case Skip(msg) =>
      NeededExact(m.n, m.writing, |msg.payload|);
    case Reserve(_, _) =>
    case Publish(_, _) =>
    case _ =>
  }

  lemma CacheRefreshed(m: Machine)
    requires Inv(m)
    ensures Inv(m.(cache := m.read))
  {
    hide Chain, Slot, SizeOf, Holds, LE32, LE64, Needed, BlockCount;
  }

  lemma {:induction false} InLapStep(m: Machine, a: Action)
    requires Inv(m) && InLap(m) && RetryBelow(m)
    requires a.Call? && m.prod.Ready? ==> CallBelow(m, a.msg)
    ensures InLap(Step(m, a).0)
  {
    hide Chain, Parse, GuardFails, Needed, SizeField, SizeOf, MsgAt, Slot, Holds, LE32, LE64, ProducerStep;
    match a
    case Call(msg) =>
      if m.prod.Ready? && !GuardFails(m, m.cache, |msg.payload|) {
        InLapPass(m, m.cache, msg);
      }
    case Produce => InLapProducer(m);
    case Consume => hide BlockCount;
    case Look =>
  }

  /** There, no step of the producer changes a byte of any block in [read, written). */
  lemma {:induction false} IsolationInLap(m: Machine, a: Action)
    requires Inv(m) && InLap(m) && (a.Call? || a.Produce?)
    ensures |Step(m, a).0.mem| == |m.mem|
    ensures SameBlocks(m.mem, Step(m, a).0.mem, m.n, m.read, m.written)
  {
    hide Slot, BlockOf, LE32, LE64, Store, GuardFails, Chain, Parse, Holds, SizeOf, ConsumerInv, Needed, Rewinds;
    Isolation(m, a);
    if a.Produce? && m.prod.Mark? {
      NeededExact(m.n, m.writing, |m.prod.msg.payload|);
      PutFrame(m, m.writing, 0, LE32(0), 1, m.read);
    } else if a.Produce? && m.prod.PutLevel? {
      PutInLap(m, m.prod.msg, m.prod.at, 4, LE32(m.prod.msg.level));
    } else if a.Produce? && m.prod.PutTsc? {
      PutInLap(m, m.prod.msg, m.prod.at, 8, LE64(AsU64(m.prod.msg.tsc)));
    } else if a.Produce? && m.prod.PutFunc? {
      PutInLap(m, m.prod.msg, m.prod.at, 16, LE64(m.prod.msg.logFunc));
    } else if a.Produce? && m.prod.Copy? {
      var Copy(msg, at, k) := m.prod;
      if k < |msg.payload| {
        PutInLap(m, msg, at, HEADER + k, [msg.payload[k]]);
      } else {
        PutInLap(m, msg, at, 0, LE32(Wrap32(TotalBytes(|msg.payload|))));
      }
    }
    hide Inv, InLap;
  }

  lemma {:induction false} PutInLap(m: Machine, msg: Msg, at: nat, offset: nat, bytes: seq<byte>)
    requires Inv(m) && m.writing <= m.read + m.n && Writing(m, msg, at)
    requires offset + |bytes| <= TotalBytes(|msg.payload|)
    ensures Ring(Put(m, at, offset, bytes).mem, m.n)
    ensures SameBlocks(m.mem, Put(m, at, offset, bytes).mem, m.n, m.read, m.written)
  {
    hide Chain, Parse, ConsumerInv, ProducerInv, Slot, BlockOf, SizeOf;
    NeededExact(m.n, at, |msg.payload|);
    PutFrame(m, at, offset, bytes, BlockCount(|msg.payload|), m.read);
    hide Put;
    var mem' := Put(m, at, offset, bytes).mem;
    forall i | m.read <= i < m.written
      ensures BlockOf(m.mem, m.n, i) == BlockOf(mem', m.n, i)
    {
    }
  }

  /** On every run below the edge at most one lap is in use, whatever the cache. */
  lemma {:induction false} LapBelowEdge(m: Machine, schedule: seq<Action>)
    requires Shape(m) && Inv(m) && InLap(m) && RetryBelow(m) && BelowEdge(m, schedule)
    ensures Inv(Run(m, schedule).0) && InLap(Run(m, schedule).0)
    decreases |schedule|
  {
    if schedule != [] {
      BelowStep(m, schedule[0]);
      InLapStep(m, schedule[0]);
      StepRefines(m, schedule[0]);
      hide Inv, Step, ActionOk, RetryBelow, InLap, Contents, FifoStep;
      LapBelowEdge(Step(m, schedule[0]).0, schedule[1..]);
    }
  }

  // ----- the slice handed to the formatter -----

  /** The consumer passes `total` bytes starting after the header. The slice stays inside the blocks
      reserved for the message exactly when the last block has a header's worth of slack. */
  lemma FormatterSliceInReservation(len: nat)
    requires TotalBytes(len) < TWO_32
    ensures 24 + (len + 24) <= BlockCount(len) * 64 <==> 1 <= (len + 24) % 64 <= 40
  {
  }
}
