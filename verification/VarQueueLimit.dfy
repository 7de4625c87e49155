/** What runs from the empty ring come to at index 2^31, on every ring size.

    A run that stays below that edge fills the ring behind a consumer standing at 2^31 - 1; the
    guard then accepts one more message into a ring with no room. Another leaves the ring drained
    at 2^31; from there it turns down every message of fewer blocks than the ring for good. On a
    ring drained at 2^31 - 1 every message larger than the ring is accepted.
  */
module VarQueueLimit {
  import opened Bits
  import opened RingIndex
  import opened VarQueue
  import opened VarQueueProofs
  import opened VarQueueTheorems
  import opened VarQueueWords
  import opened VarQueueRuns
  import opened VarQueueOverrun

  const BEAT := Msg(0, 0, 0, [])

  predicate Safe(m: Machine) { Inv(m) && RetryBelow(m) }

  lemma {:induction false} SafeStep(m: Machine, a: Action)
    requires Safe(m) && (a.Call? && m.prod.Ready? ==> CallBelow(m, a.msg))
    ensures Shape(m) && Safe(Step(m, a).0)
  {
    BelowStep(m, a);
    StepRefines(m, a);
  }

  // ----- schedules that stay below the edge -----

  predicate Leads(m: Machine, s: seq<Action>, m': Machine)
  {
    Shape(m) && BelowEdge(m, s) && Run(m, s).0 == m'
  }

  lemma LeadsNowhere(m: Machine)
    requires Shape(m)
    ensures Leads(m, [], m)
  {
  }

  lemma {:induction false} LeadsOn(m: Machine, a: Action, s: seq<Action>, m': Machine)
    requires Shape(m) && Leads(Step(m, a).0, s, m')
    requires a.Call? && m.prod.Ready? ==> CallBelow(m, a.msg)
    ensures Leads(m, [a] + s, m')
  {
    hide Step, CallBelow;
    assert ([a] + s)[1..] == s;
  }

  lemma {:induction false} BelowConcat(m: Machine, s: seq<Action>, t: seq<Action>)
    requires Shape(m) && BelowEdge(m, s) && BelowEdge(Run(m, s).0, t)
    ensures BelowEdge(m, s + t)
    decreases |s|
  {
    hide Step, CallBelow;
    if s == [] {
      assert s + t == t;
    } else {
      assert (s + t)[1..] == s[1..] + t;
      BelowConcat(Step(m, s[0]).0, s[1..], t);
    }
  }

  lemma {:induction false} LeadsConcat(m: Machine, s: seq<Action>, m1: Machine, t: seq<Action>, m2: Machine)
    requires Leads(m, s, m1) && Leads(m1, t, m2)
    ensures Leads(m, s + t, m2)
  {
    hide BelowEdge, Run;
    RunConcat(m, s, t);
    BelowConcat(m, s, t);
  }

  // ----- publishing one block -----

  lemma {:induction false} BeatSize(n: nat, w: nat)
    requires 0 < n
    ensures BlockCount(0) == 1 && !Rewinds(n, w, 0) && Needed(n, w, 0) == 1
  {
    hide Slot;
  }

  /** Both sides at rest, or the consumer holding a message: the producer idle at w, the other side
      at k in state c. */
  predicate Standing(m: Machine, k: nat, w: nat, c: Consumer)
  {
    Safe(m) && m.prod.Ready? && m.cons == c && m.read == k && m.written == w && m.writing == w
  }

  /** There is room for one block at w, as the guard can see. */
  predicate Free(n: nat, k: nat, w: nat) { 0 < n <= TWO_31 && k < TWO_31 && k <= w < k + n }

  predicate Beating(m: Machine, k: nat, w: nat, c: Consumer)
  {
    Safe(m) && m.cons == c && m.read == k && BeatAt(m, w)
  }

  function Stage(p: Producer): nat
  {
    match p
    case Ready => 0
    case Publish(_, _) => 1
    case Copy(msg, _, k) => 2 + if k < |msg.payload| then |msg.payload| - k else 0
    case PutFunc(msg, _) => 3 + |msg.payload|
    case PutTsc(msg, _) => 4 + |msg.payload|
    case PutLevel(msg, _) => 5 + |msg.payload|
    case Reserve(msg, _) => 6 + |msg.payload|
    case Skip(msg) => 7 + |msg.payload|
    case Mark(msg) => 8 + |msg.payload|
    case Refresh(msg) => 9 + |msg.payload|
  }

  lemma {:induction false} BeatBelow(m: Machine, k: nat, w: nat)
    requires Inv(m) && Free(m.n, k, w) && m.read == k && m.writing == w
    ensures CallBelow(m, BEAT) && !GuardFails(m, m.read, 0) && BlockCount(0) == 1
    ensures !Rewinds(m.n, m.writing, 0)
  {
    BeatSize(m.n, m.writing);
    hide Inv, Needed, GuardFails, Rewinds;
    GuardExact(m, m.read, 0);
  }

  /** Where the producer is while it publishes one block at w. */
  predicate BeatAt(m: Machine, w: nat)
  {
    match m.prod
    case Ready => m.writing == w + 1
    case Refresh(msg) => msg == BEAT && m.writing == w
    case Mark(_) => false
    case Skip(_) => false
    case Reserve(msg, at) => msg == BEAT && m.writing == w == at
    case _ => m.prod.msg == BEAT && m.writing == w + 1
  }

  /** The control flow of one step, without what it does to memory. */
  lemma {:induction false} BeatMoves(m: Machine, w: nat)
    requires m.n > 0 && !m.wraps && BeatAt(m, w) && !m.prod.Ready?
    requires BlockCount(0) == 1
    requires m.prod.Refresh? ==> !GuardFails(m, m.read, 0) && !Rewinds(m.n, m.writing, 0)
    ensures var m' := ProducerStep(m).0;
            && BeatAt(m', w) && m'.cons == m.cons && m'.read == m.read && m'.n == m.n
            && Stage(m'.prod) < Stage(m.prod)
  {
    hide Rewinds, GuardFails, BlockCount, Put, Slot, LE32, LE64;
    if m.prod.Refresh? {
      GuardOfIndices(m, m.(cache := m.read), 0);
    }
  }

  lemma {:induction false} BeatStep(m: Machine, k: nat, w: nat, c: Consumer)
    requires Beating(m, k, w, c) && !m.prod.Ready? && Free(m.n, k, w)
    ensures Shape(m) && Beating(Step(m, Produce).0, k, w, c)
    ensures Stage(Step(m, Produce).0.prod) < Stage(m.prod)
  {
    assert !m.wraps && Shape(m);
    SafeStep(m, Produce);
    if m.prod.Refresh? {
      BeatBelow(m, k, w);
    }
    BeatSize(m.n, m.writing);
    hide Inv, RetryBelow, Rewinds, GuardFails, BlockCount, BeatAt, ProducerStep, Stage, Needed;
    BeatMoves(m, w);
  }

  lemma {:induction false} FinishBeat(m: Machine, k: nat, w: nat, c: Consumer) returns (s: seq<Action>, m': Machine)
    requires Beating(m, k, w, c) && Free(m.n, k, w)
    ensures Leads(m, s, m') && Standing(m', k, w + 1, c) && m'.n == m.n
    decreases Stage(m.prod)
  {
    assert Shape(m) && (m.prod.Ready? ==> m.written == m.writing);
    hide Inv, RetryBelow, Leads, Step;
    if m.prod.Ready? {
      s, m' := [], m;
      LeadsNowhere(m);
    } else {
      BeatStep(m, k, w, c);
      s, m' := FinishBeat(Step(m, Produce).0, k, w, c);
      LeadsOn(m, Produce, s, m');
      s := [Produce] + s;
    }
  }

  lemma {:induction false} Beat(m: Machine, k: nat, w: nat, c: Consumer) returns (s: seq<Action>, m': Machine)
    requires Standing(m, k, w, c) && Free(m.n, k, w)
    ensures Leads(m, s, m') && Standing(m', k, w + 1, c) && m'.n == m.n
  {
    assert Shape(m);
    BeatBelow(m, k, w);
    SafeStep(m, Call(BEAT));
    hide Inv, RetryBelow, Leads, CallBelow, GuardFails, Rewinds;
    assert Beating(Step(m, Call(BEAT)).0, k, w, c);
    s, m' := FinishBeat(Step(m, Call(BEAT)).0, k, w, c);
    LeadsOn(m, Call(BEAT), s, m');
    s := [Call(BEAT)] + s;
  }

  // ----- taking the only message -----

  /** The consumer is on its way through the only published block, at k. */
  predicate Draining(m: Machine, k: nat)
  {
    && Safe(m) && m.prod.Ready? && m.written == k + 1
    && match m.cons
       case Waiting => m.read == k + 1
       case Rewind(_, _, _) => false
       case _ => m.read == k
  }

  function Depth(c: Consumer): nat
  {
    match c
    case Waiting => 0
    case Popping(_) => 1
    case Holding(_, _) => 2
    case Rewind(_, _, _) => 3
    case Scan(_, _, _) => 4
    case Loaded(_) => 5
  }

  lemma {:induction false} DrainStep(m: Machine, k: nat)
    requires Draining(m, k) && !m.cons.Waiting?
    ensures Shape(m) && Draining(Step(m, Consume).0, k)
    ensures Depth(Step(m, Consume).0.cons) < Depth(m.cons)
  {
    SafeStep(m, Consume);
    hide Slot, ProducerInv, Parse, RetryBelow, Get32, MsgAt;
    ChainHead(m.mem, m.n, m.read, m.written);
    if m.cons.Popping? {
      assert m.cons.next == k + 1;
    }
    if m.cons.Scan? {
      assert m.cons.w == k + 1;
    }
    hide Inv, Chain, SizeField;
  }

  lemma {:induction false} DrainTo(m: Machine, k: nat, stop: nat) returns (s: seq<Action>, m': Machine)
    requires Draining(m, k) && stop in {0, 2} && stop <= Depth(m.cons)
    ensures Leads(m, s, m') && Draining(m', k) && Depth(m'.cons) == stop && m'.n == m.n
    decreases Depth(m.cons)
  {
    assert Shape(m);
    hide Inv, RetryBelow, Leads, Step, Safe;
    if Depth(m.cons) == stop {
      s, m' := [], m;
      LeadsNowhere(m);
    } else {
      DrainStep(m, k);
      assert stop <= Depth(Step(m, Consume).0.cons);
      s, m' := DrainTo(Step(m, Consume).0, k, stop);
      LeadsOn(m, Consume, s, m');
      s := [Consume] + s;
    }
  }

  /** Publish one block at k on a drained ring and follow the consumer to `stop`. */
  lemma {:induction false} Round(m: Machine, k: nat, stop: nat) returns (s: seq<Action>, m': Machine)
    requires Standing(m, k, k, Waiting) && k < TWO_31 && stop in {0, 2}
    ensures Leads(m, s, m') && Draining(m', k) && Depth(m'.cons) == stop && m'.n == m.n
  {
    assert Free(m.n, k, k);
    var m1, m2, t;
    s, m1 := Beat(m, k, k, Waiting);
    SafeStep(m1, Consume);
    assert Shape(m1);
    hide Inv, RetryBelow, Leads;
    m2 := Step(m1, Consume).0;
    assert Draining(m2, k);
    t, m' := DrainTo(m2, k, stop);
    LeadsOn(m1, Consume, t, m');
    LeadsConcat(m, s, m1, [Consume] + t, m');
    s := s + ([Consume] + t);
  }

  /** Every level below 2^31 is reached by some run, with the ring drained. */
  lemma {:induction false} Reach(n: nat, k: nat) returns (s: seq<Action>, m: Machine)
    requires 0 < n <= TWO_31 && k < TWO_31
    ensures Leads(Init(n, false), s, m) && Standing(m, k, k, Waiting) && m.n == n
    decreases k
  {
    hide Leads;
    if k == 0 {
      s, m := [], Init(n, false);
      InitInv(n);
      LeadsNowhere(m);
    } else {
      var m1, t;
      s, m1 := Reach(n, k - 1);
      t, m := Round(m1, k - 1, 0);
      LeadsConcat(Init(n, false), s, m1, t, m);
      s := s + t;
    }
  }

  /** Fill the ring behind a consumer that does not move. */
  lemma {:induction false} Fill(m: Machine, k: nat, w: nat, c: Consumer) returns (s: seq<Action>, m': Machine)
    requires Standing(m, k, w, c) && k < TWO_31 && k <= w <= k + m.n
    ensures Leads(m, s, m') && Standing(m', k, k + m.n, c) && m'.n == m.n
    decreases k + m.n - w
  {
    assert Shape(m);
    hide Leads, Safe;
    if w == k + m.n {
      s, m' := [], m;
      LeadsNowhere(m);
    } else {
      var m1, t;
      s, m1 := Beat(m, k, w, c);
      t, m' := Fill(m1, k, w + 1, c);
      LeadsConcat(m, s, m1, t, m');
      s := s + t;
    }
  }

  // ----- one call too many -----

  /** A run that stays below the edge to a full ring whose consumer holds the message at 2^31 - 1. */
  lemma {:induction false} ReachFull(n: nat) returns (s: seq<Action>, m: Machine)
    requires 0 < n <= TWO_31
    ensures Leads(Init(n, false), s, m) && Inv(m) && m.prod.Ready? && m.cons.Holding? && m.n == n
    ensures m.read == TWO_31 - 1 && m.writing == m.read + n
  {
    var m1, m2, t, u;
    hide Leads, Inv, RetryBelow;
    s, m1 := Reach(n, TWO_31 - 1);
    t, m2 := Round(m1, TWO_31 - 1, 2);
    assert Standing(m2, TWO_31 - 1, TWO_31, m2.cons) by { ReadyIsWritten(m2); }
    u, m := Fill(m2, TWO_31 - 1, TWO_31, m2.cons);
    LeadsConcat(Init(n, false), s, m1, t, m2);
    LeadsConcat(Init(n, false), s + t, m2, u, m);
    s := s + t + u;
  }

  lemma ReadyIsWritten(m: Machine)
    requires Inv(m) && m.prod.Ready?
    ensures m.writing == m.written
  {
  }

  /** There the guard lets one more block in. */
  lemma {:induction false} FullRingFools(m: Machine)
    requires Inv(m) && m.cons.Holding? && m.read == TWO_31 - 1 && m.writing == m.read + m.n
    ensures Least(m, 0) == TWO_31 && !Truthful(m, m.cache, 0)
  {
    hide Chain, ProducerInv, ConsumerInv, Needed, Rewinds, GuardFails;
    BeatSize(m.n, m.writing);
    GuardIsSignedLess(m, m.cache, 0);
  }

  /** On every ring size some run of the 32-bit machine, all of whose calls but the last are below
      the edge and whose last has its least read index at 2^31, is not faithful. */
  lemma {:induction false} FifoFailsAtEdge(n: nat) returns (s: seq<Action>, last: Msg, rest: seq<Action>)
    requires IsPow2(n) && n <= TWO_31
    ensures BelowEdge(Init(n, false), s)
    ensures var m := Run(Init(n, false), s).0;
            && Least(m, |last.payload|) == TWO_31
            && RunOk(Step(m, Call(last)).0, rest)
            && !Faithful(Run(Init(n, true), s + ([Call(last)] + rest)))
  {
    assert n > 0;
    hide IsPow2, Run, BelowEdge, Inv, RunOk, Faithful, Truthful, Step;
    var m;
    s, m := ReachFull(n);
    InitInv(n);
    FullRingFools(m);
    BelowEdgeOk(Init(n, false), s);
    FifoExactly(n, s, 0);
    last, rest :| |last.payload| == 0 && RunOk(Step(m, Call(last)).0, rest) &&
                  !Faithful(Run(Init(n, true), s + ([Call(last)] + rest)));
  }

  // ----- the drained ring -----

  /** Nothing more is published; the consumer is on its way to w. */
  predicate Emptying(m: Machine, w: nat)
  {
    && Safe(m) && m.prod.Ready? && m.written == w && m.writing == w
    && (m.read == w ==> m.cons.Waiting?)
  }

  lemma {:induction false} EmptyStep(m: Machine, w: nat)
    requires Emptying(m, w) && m.read < w
    ensures Shape(m) && Emptying(Step(m, Consume).0, w)
    ensures var m1 := Step(m, Consume).0;
            && m1 == m.(read := m1.read, cons := m1.cons)
            && m.read <= m1.read <= w && (m.read == m1.read ==> Rank(m1.cons) < Rank(m.cons))
  {
    assert Shape(m) && !m.wraps && ConsumerInv(m) && m.read <= m.written;
    hide Inv, RetryBelow, ConsumerInv, ConsumerStep, Rank;
    SafeStep(m, Consume);
    EmptyMoves(m);
    IndexOrder(Step(m, Consume).0);
  }

  lemma {:induction false} EmptyMoves(m: Machine)
    requires Shape(m) && !m.wraps && ConsumerInv(m) && m.read < m.written
    ensures var m1 := ConsumerStep(m).0;
            && m.read <= m1.read && (m.read == m1.read ==> Rank(m1.cons) < Rank(m.cons))
            && (m1.read == m.written ==> m1.cons.Waiting?)
  {
    hide Slot, Get32, MsgAt, Chain;
  }

  /** Left alone, the consumer drains the ring. */
  lemma {:induction false} Empty(m: Machine, w: nat) returns (s: seq<Action>, m': Machine)
    requires Emptying(m, w)
    ensures Leads(m, s, m') && Standing(m', w, w, Waiting) && m'.n == m.n && m'.cache == m.cache
    decreases w - m.read, Rank(m.cons)
  {
    assert Shape(m) && m.read <= w;
    hide Inv, RetryBelow, Leads, Step, Rank;
    if m.read == w {
      s, m' := [], m;
      LeadsNowhere(m);
    } else {
      EmptyStep(m, w);
      s, m' := Empty(Step(m, Consume).0, w);
      LeadsOn(m, Consume, s, m');
      s := [Consume] + s;
    }
  }

  /** A ring just drained at 2^31 turns the shortest message down, and its producer then knows. */
  lemma {:induction false} TurnedDown(m: Machine)
    requires Standing(m, TWO_31, TWO_31, Waiting) && m.n >= 2 && m.cache <= TWO_31 - m.n
    ensures Leads(m, [Call(BEAT), Produce], m.(cache := TWO_31))
    ensures Inv(m.(cache := TWO_31)) && Straddling(m.(cache := TWO_31), BEAT)
  {
    BeatSize(m.n, m.writing);
    assert Least(m, 0) == TWO_31 + 1 - m.n && 0 < m.n <= TWO_31 && Shape(m);
    GuardExact(m, m.cache, 0);
    var m1 := m.(prod := Refresh(BEAT));
    SafeStep(m, Call(BEAT));
    assert CallBelow(m, BEAT);
    hide Inv, Needed, Rewinds, GuardFails, PassGuard, Leads;
    assert Step(m, Call(BEAT)) == (m1, []);
    SafeStep(m1, Produce);
    RejectedExactly(m1);
    var m2 := m.(cache := TWO_31);
    assert Step(m1, Produce).0 == m2;
    LeadsNowhere(m2);
    LeadsOn(m1, Produce, [], m2);
    LeadsOn(m, Call(BEAT), [Produce] + [], m2);
    assert [Call(BEAT)] + ([Produce] + []) == [Call(BEAT), Produce];
  }

  /** On every ring of two or more blocks some run below the edge leaves the ring stuck. */
  lemma {:induction false} ReachStuck(n: nat) returns (s: seq<Action>, m: Machine)
    requires 2 <= n <= TWO_31
    ensures Leads(Init(n, false), s, m) && Stuck(m) && m.prod.Ready? && m.n == n
    ensures m.read == m.written == TWO_31 && Straddling(m, BEAT)
  {
    var m1, m2, m3, t, u;
    hide Leads, Inv, RetryBelow, Needed, Least, Window;
    s, m1 := Reach(n, TWO_31 - n);
    t, m2 := Fill(m1, TWO_31 - n, TWO_31 - n, Waiting);
    IndexOrder(m2);
    u, m3 := Empty(m2, TWO_31);
    TurnedDown(m3);
    m := m3.(cache := TWO_31);
    LeadsConcat(Init(n, false), s, m1, t, m2);
    LeadsConcat(Init(n, false), s + t, m2, u, m3);
    LeadsConcat(Init(n, false), s + t + u, m3, [Call(BEAT), Produce], m);
    s := s + t + u + [Call(BEAT), Produce];
  }

  /** There exactly the messages that need less than the whole ring are turned down; on a
      power-of-two ring these are the messages of fewer blocks than the ring. */
  lemma {:induction false} StraddlingExactly(m: Machine, msg: Msg)
    requires 0 < m.n <= TWO_31 && m.read == m.writing == TWO_31
    ensures Straddling(m, msg) <==> Representable(msg) && Needed(m.n, m.writing, |msg.payload|) < m.n
    ensures IsPow2(m.n) ==>
              (Straddling(m, msg) <==> Representable(msg) && BlockCount(|msg.payload|) < m.n)
  {
    var len := |msg.payload|;
    if Representable(msg) {
      NeededExact(m.n, m.writing, len);
      RewindsMeans(m.n, m.writing, len);
    }
    if IsPow2(m.n) {
      EdgeIsRingStart(m.n);
    }
    hide IsPow2, Slot, Needed, BlockCount, Rewinds;
  }

  lemma {:induction false} EdgeIsRingStart(n: nat)
    requires IsPow2(n) && 0 < n <= TWO_31
    ensures Slot(TWO_31, n) == 0
  {
    hide IsPow2, Pow2, Slot;
    Pow2OfWords();
    Pow2Doubles(31);
    BitsKeepMod(TWO_31, n, 31);
    SlotIsMod(TWO_31, n);
  }

  predicate SmallCalls(n: nat, t: seq<Action>)
  {
    forall a :: a in t && a.Call? ==> Representable(a.msg) && BlockCount(|a.msg.payload|) < n
  }

  /** Whatever both sides do after s, as long as every call is of fewer blocks than the ring, the
      32-bit machine commits and pops nothing more and changes no index and no byte. */
  ghost predicate StoppedAfter(n: nat, s: seq<Action>)
    requires 0 < n <= TWO_31
  {
    forall t :: SmallCalls(n, t) ==>
      var (m, before) := Run(Init(n, true), s);
      var (m', after) := Run(Init(n, true), s + t);
      && m' == m.(prod := m'.prod, cons := m'.cons)
      && CommitsOf(after) == CommitsOf(before) && PopsOf(after) == PopsOf(before)
  }

  lemma {:induction false} StuckIsNear(m: Machine, t: seq<Action>)
    requires Shape(m) && Stuck(m) && forall a :: a in t && a.Call? ==> Straddling(m, a.msg)
    ensures RunNear(m, t)
    decreases |t|
  {
    assert Inv(m);
    InvNear(m);
    hide Stuck, Step, Near, Inv;
    if t != [] {
      assert t[0] in t;
      StuckStep(m, t[0]);
      var m1 := Step(m, t[0]).0;
      forall a | a in t[1..] && a.Call?
        ensures Straddling(m1, a.msg)
      {
        assert a in t;
      }
      StuckIsNear(m1, t[1..]);
    }
  }

  lemma {:induction false} NothingMoved(trace: seq<Event>)
    requires forall e :: e in trace ==> e.Rejected? || e.Empty?
    ensures CommitsOf(trace) == [] && PopsOf(trace) == []
  {
    if trace != [] {
      assert trace[0] in trace;
      NothingMoved(trace[1..]);
    }
  }

  /** On every power-of-two ring of two or more blocks, a run all of whose calls are below the edge
      leaves the ring drained and stopped. */
  lemma {:induction false} RingStopsForGood(n: nat) returns (s: seq<Action>)
    requires IsPow2(n) && 2 <= n <= TWO_31
    ensures BelowEdge(Init(n, false), s) && StoppedAfter(n, s)
    ensures var m := Run(Init(n, false), s).0; m.prod.Ready? && m.read == m.written == TWO_31
  {
    hide IsPow2, Run, BelowEdge, Inv, RunOk, RunNear, Straddling, Representable, BlockCount;
    var m0, m := Init(n, false), Init(n, false);
    s, m := ReachStuck(n);
    InitInv(n);
    BelowEdgeOk(m0, s);
    OkIsNear(m0, s);
    RunNarrow(m0, s);
    assert Narrow(m0) == Init(n, true);
    forall t | SmallCalls(n, t)
      ensures var (m1, before) := Run(Init(n, true), s);
              var (m2, after) := Run(Init(n, true), s + t);
              && m2 == m1.(prod := m2.prod, cons := m2.cons)
              && CommitsOf(after) == CommitsOf(before) && PopsOf(after) == PopsOf(before)
    {
      forall a | a in t && a.Call?
        ensures Straddling(m, a.msg)
      {
        StraddlingExactly(m, a.msg);
      }
      StoppedRun(m, t);
      RunConcat(Init(n, true), s, t);
      TraceConcat(Run(m0, s).1, Run(Narrow(m), t).1);
    }
  }

  lemma {:induction false} StoppedRun(m: Machine, t: seq<Action>)
    requires Shape(m) && IsPow2(m.n) && Stuck(m) && forall a :: a in t && a.Call? ==> Straddling(m, a.msg)
    ensures var (m', trace) := Run(Narrow(m), t);
            && m' == Narrow(m).(prod := m'.prod, cons := m'.cons)
            && CommitsOf(trace) == [] && PopsOf(trace) == []
  {
    assert !m.wraps;
    hide IsPow2, Run, Stuck, RunNear, Straddling;
    StuckIsNear(m, t);
    RunNarrow(m, t);
    DrainedRingStuck(m, t);
    NothingMoved(Run(m, t).1);
  }

  // ----- the message larger than the ring -----

  /** On a ring drained at 2^31 - 1, every message of more blocks than the ring is accepted. */
  lemma {:induction false} OversizeAccepted(m: Machine, msg: Msg)
    requires Standing(m, TWO_31 - 1, TWO_31 - 1, Waiting)
    requires Representable(msg) && BlockCount(|msg.payload|) > m.n
    ensures Accepts(m, msg) && !Truthful(m, m.cache, |msg.payload|)
  {
    var len := |msg.payload|;
    assert Inv(m);
    IndexOrder(m);
    BlocksFew(len);
    NeededExact(m.n, m.writing, len);
    RewindsMeans(m.n, m.writing, len);
    assert TWO_31 < Least(m, len) < TWO_31 + 0x800_0000;
    GuardExact(m, m.cache, len);
    GuardOnCache(m, len);
  }

  lemma GuardOnCache(m: Machine, len: nat)
    requires 0 < m.n && Unread(m) < Least(m, len)
    ensures Truthful(m, m.cache, len) <==> GuardFails(m, m.cache, len)
  {
  }

  /** So on every power-of-two ring a run below the edge leads to where the next call of any such
      length is accepted, whatever it carries, and for some message is not faithful. */
  lemma {:induction false} OversizeBreaks(n: nat, len: nat) returns (s: seq<Action>, last: Msg, rest: seq<Action>)
    requires IsPow2(n) && n <= TWO_31 && TotalBytes(len) < TWO_32 && BlockCount(len) > n
    ensures BelowEdge(Init(n, false), s) && |last.payload| == len
    ensures var m := Run(Init(n, false), s).0;
            && m.prod.Ready? && m.read == m.writing
            && (forall msg: Msg :: |msg.payload| == len ==> Accepts(m, msg))
            && RunOk(Step(m, Call(last)).0, rest)
            && !Faithful(Run(Init(n, true), s + ([Call(last)] + rest)))
  {
    assert n > 0;
    hide IsPow2, Run, BelowEdge, Inv, RunOk, Faithful, Truthful, Step, BlockCount, Accepts;
    var m;
    s, m := Reach(n, TWO_31 - 1);
    forall msg: Msg | |msg.payload| == len
      ensures Accepts(m, msg) && !Truthful(m, m.cache, len)
    {
      OversizeAccepted(m, msg);
    }
    InitInv(n);
    BelowEdgeOk(Init(n, false), s);
    var any := Msg(0, 0, 0, seq(len, _ => 0));
    assert |any.payload| == len;
    FifoExactly(n, s, len);
    last, rest :| |last.payload| == len && RunOk(Step(m, Call(last)).0, rest) &&
                  !Faithful(Run(Init(n, true), s + ([Call(last)] + rest)));
  }
}
