/** Runs put together, and what each side does when left alone, from any state: the producer past the
    guard writes its message byte by byte, the consumer goes from segment to segment.
  */
module VarQueueRuns {
  import opened Bits
  import opened RingIndex
  import opened VarQueue
  import opened VarQueueProofs
  import opened VarQueueTheorems
  import opened VarQueueWords

  // ----- composing runs -----

  lemma {:induction false} RunConcat(m: Machine, s: seq<Action>, t: seq<Action>)
    requires Shape(m)
    ensures Run(m, s + t).0 == Run(Run(m, s).0, t).0
    ensures Run(m, s + t).1 == Run(m, s).1 + Run(Run(m, s).0, t).1
    ensures RunOk(m, s) && RunOk(Run(m, s).0, t) ==> RunOk(m, s + t)
    ensures RunNear(m, s) && RunNear(Run(m, s).0, t) ==> RunNear(m, s + t)
    decreases |s|
  {
    hide Step, ActionOk, Near;
    if s == [] {
      assert s + t == t;
    } else {
      assert (s + t)[1..] == s[1..] + t;
      RunConcat(Step(m, s[0]).0, s[1..], t);
    }
  }

  /** The schedule takes m to m' with these events, and no call of it fools the guard. */
  predicate Goes(m: Machine, s: seq<Action>, m': Machine, trace: seq<Event>)
  {
    Shape(m) && RunOk(m, s) && RunNear(m, s) && Run(m, s) == (m', trace)
  }

  lemma GoesNowhere(m: Machine)
    requires Shape(m) && Near(m)
    ensures Goes(m, [], m, [])
  {
  }

  lemma {:induction false} GoesOn(m: Machine, a: Action, s: seq<Action>, m': Machine, trace: seq<Event>)
    requires Shape(m) && Near(m) && ActionOk(m, a) && Goes(Step(m, a).0, s, m', trace)
    ensures Goes(m, [a] + s, m', Step(m, a).1 + trace)
  {
    hide Step, ActionOk, Near;
    assert ([a] + s)[1..] == s;
  }

  /** The same after a step without events. */
  lemma {:induction false} GoesQuietly(m: Machine, a: Action, s: seq<Action>, m': Machine, trace: seq<Event>)
    requires Shape(m) && Near(m) && ActionOk(m, a) && Step(m, a).1 == [] && Goes(Step(m, a).0, s, m', trace)
    ensures Goes(m, [a] + s, m', trace)
  {
    hide Step, ActionOk, Near, Goes;
    GoesOn(m, a, s, m', trace);
    assert [] + trace == trace;
  }

  lemma {:induction false} GoesOnce(m: Machine, a: Action)
    requires Shape(m) && Near(m) && ActionOk(m, a) && Near(Step(m, a).0)
    ensures Goes(m, [a], Step(m, a).0, Step(m, a).1)
  {
    hide Step, ActionOk, Near, Goes;
    GoesNowhere(Step(m, a).0);
    GoesOn(m, a, [], Step(m, a).0, []);
    assert [a] + [] == [a] && Step(m, a).1 + [] == Step(m, a).1;
  }

  lemma {:induction false} GoesConcat(m: Machine, s1: seq<Action>, m1: Machine, t1: seq<Event>,
                                      s2: seq<Action>, m2: Machine, t2: seq<Event>)
    requires Goes(m, s1, m1, t1) && Goes(m1, s2, m2, t2)
    ensures Goes(m, s1 + s2, m2, t1 + t2)
  {
    hide RunOk, RunNear, Run;
    RunConcat(m, s1, s2);
  }

  lemma {:induction false} GoesThen(m: Machine, s1: seq<Action>, m1: Machine, s2: seq<Action>, m2: Machine,
                                    t: seq<Event>)
    requires Goes(m, s1, m1, []) && Goes(m1, s2, m2, t)
    ensures Goes(m, s1 + s2, m2, t)
  {
    hide Goes;
    GoesConcat(m, s1, m1, [], s2, m2, t);
    assert [] + t == t;
  }

  // ----- the producer on its own -----

  function At(m: Machine, len: nat): nat
    requires m.n > 0
  {
    m.writing + if Rewinds(m.n, m.writing, len) then PadBlocks(m.n, m.writing) else 0
  }

  function Marked(m: Machine, len: nat): (mem: seq<byte>)
    requires m.n > 0
    ensures |mem| == |m.mem|
  {
    if Rewinds(m.n, m.writing, len) then Store(m.mem, Slot(m.writing, m.n) * BLOCK, LE32(0)) else m.mem
  }

  function Reserved(m: Machine, msg: Msg): Machine
    requires m.n > 0
  {
    var at := At(m, |msg.payload|);
    m.(mem := Marked(m, |msg.payload|), writing := at + BlockCount(|msg.payload|), prod := PutLevel(msg, at))
  }

  lemma {:induction false} PlaceRun(m: Machine, msg: Msg) returns (s: seq<Action>)
    requires Shape(m) && !m.wraps && Near(m)
    ensures Goes(PassGuard(m, msg), s, Reserved(m, msg), [])
  {
    hide Slot, Rewinds, PadBlocks, BlockCount, LE32, LE64, Store, Goes, GuardFails;
    var at := At(m, |msg.payload|);
    var m3 := m.(mem := Marked(m, |msg.payload|), writing := at, prod := Reserve(msg, at));
    assert Step(m3, Produce) == (Reserved(m, msg), []);
    GoesOnce(m3, Produce);
    s := [Produce];
    if Rewinds(m.n, m.writing, |msg.payload|) {
      var m1 := PassGuard(m, msg);
      var m2 := m1.(mem := Marked(m, |msg.payload|), prod := Skip(msg));
      PadPositive(m.n, m.writing);
      assert Step(m2, Produce) == (m3, []);
      GoesQuietly(m2, Produce, s, Reserved(m, msg), []);
      assert Step(m1, Produce) == (m2, []);
      GoesQuietly(m1, Produce, [Produce] + s, Reserved(m, msg), []);
      s := [Produce] + ([Produce] + s);
    }
  }

  lemma PadPositive(n: nat, w: nat)
    requires n > 0
    ensures PadBlocks(n, w) >= 1
  {
  }

  /** The level goes in. */
  lemma {:induction false} LevelRun(m: Machine)
    requires Shape(m) && Near(m) && m.prod.PutLevel?
    ensures var a := Slot(m.prod.at, m.n) * BLOCK;
            Goes(m, [Produce], m.(mem := Store(m.mem, a + 4, LE32(m.prod.msg.level)),
                                  prod := PutTsc(m.prod.msg, m.prod.at)), [])
  {
    hide Slot, LE32, LE64, Store, Goes, GuardFails;
    GoesOnce(m, Produce);
  }

  /** mem' differs from mem only in [lo, hi). */
  predicate Only(mem: seq<byte>, mem': seq<byte>, lo: nat, hi: nat)
  {
    |mem'| == |mem| && forall i :: 0 <= i < |mem| && !(lo <= i < hi) ==> mem'[i] == mem[i]
  }

  /** Then the other two header fields. */
  lemma {:induction false} HeaderRun(m: Machine) returns (m': Machine)
    requires Shape(m) && Near(m) && m.prod.PutTsc?
    ensures Goes(m, [Produce, Produce], m', [])
    ensures m' == m.(mem := m'.mem, prod := Copy(m.prod.msg, m.prod.at, 0))
    ensures var a := Slot(m.prod.at, m.n) * BLOCK; Only(m.mem, m'.mem, a + 8, a + HEADER)
  {
    hide Slot, LE32, LE64, Goes, GuardFails;
    var a := Slot(m.prod.at, m.n) * BLOCK;
    var m1 := m.(mem := Store(m.mem, a + 8, LE64(AsU64(m.prod.msg.tsc))), prod := PutFunc(m.prod.msg, m.prod.at));
    m' := m1.(mem := Store(m1.mem, a + 16, LE64(m.prod.msg.logFunc)), prod := Copy(m.prod.msg, m.prod.at, 0));
    hide Store;
    assert Step(m1, Produce) == (m', []);
    GoesOnce(m1, Produce);
    assert Step(m, Produce) == (m1, []);
    GoesQuietly(m, Produce, [Produce], m', []);
    assert [Produce] + [Produce] == [Produce, Produce];
  }

  /** Then payload bytes up to the upto-th. */
  lemma {:induction false} CopyRun(m: Machine, upto: nat) returns (s: seq<Action>, m': Machine)
    requires Shape(m) && Near(m) && m.prod.Copy? && m.prod.k <= upto <= |m.prod.msg.payload|
    requires Slot(m.prod.at, m.n) * BLOCK + HEADER + upto <= |m.mem|
    ensures Goes(m, s, m', [])
    ensures m' == m.(mem := m'.mem, prod := Copy(m.prod.msg, m.prod.at, upto))
    ensures var a := Slot(m.prod.at, m.n) * BLOCK + HEADER;
            && Only(m.mem, m'.mem, a + m.prod.k, a + upto)
            && forall i :: m.prod.k <= i < upto ==> m'.mem[a + i] == m.prod.msg.payload[i]
    decreases upto - m.prod.k
  {
    hide Slot, LE32, LE64, Goes, GuardFails;
    var Copy(msg, at, k) := m.prod;
    if k == upto {
      s, m' := [], m;
      GoesNowhere(m);
    } else {
      var a := Slot(at, m.n) * BLOCK + HEADER;
      var m1 := m.(mem := Store(m.mem, a + k, [msg.payload[k]]), prod := Copy(msg, at, k + 1));
      assert Step(m, Produce) == (m1, []);
      s, m' := CopyRun(m1, upto);
      GoesQuietly(m, Produce, s, m', []);
      s := [Produce] + s;
    }
  }

  /** Then the size, and the reservation is published. */
  lemma {:induction false} SizeRun(m: Machine)
    requires Shape(m) && Near(m) && m.prod.Copy? && m.prod.k == |m.prod.msg.payload|
    ensures var a := Slot(m.prod.at, m.n) * BLOCK;
            Goes(m, [Produce],
                 m.(mem := Store(m.mem, a, LE32(Wrap32(TotalBytes(|m.prod.msg.payload|)))),
                    prod := Publish(m.prod.msg, m.prod.at)), [])
  {
    hide Slot, LE32, LE64, Store, Goes, GuardFails;
    GoesOnce(m, Produce);
  }

  lemma {:induction false} PublishRun(m: Machine)
    requires Shape(m) && Near(m) && m.prod.Publish? && Near(m.(written := m.writing))
    ensures Goes(m, [Produce], m.(written := m.writing, prod := Ready), [Committed(m.prod.msg)])
  {
    hide Slot, LE32, LE64, Store, Goes, GuardFails;
    GoesOnce(m, Produce);
  }

  // ----- the consumer on its own -----

  /** A consumer holding a message pops whatever is there by then. */
  lemma {:induction false} PopRun(m: Machine) returns (s: seq<Action>, m': Machine)
    requires Shape(m) && (m.cons.Holding? || m.cons.Popping?)
    ensures Goes(m, s, m', [Popped(MsgAt(m.mem, Slot(m.read, m.n)))]) && m'.fault == m.fault
  {
    hide Slot, MsgAt, SizeField, Goes, ProducerStep, Begin;
    var m1 := m;
    if m.cons.Holding? {
      m1 := Step(m, Consume).0;
    }
    s, m' := [Consume], Step(m1, Consume).0;
    GoesOnce(m1, Consume);
    if m.cons.Holding? {
      GoesQuietly(m, Consume, s, m', [Popped(MsgAt(m.mem, Slot(m.read, m.n)))]);
      s := [Consume] + s;
    }
  }

  /** A consumer on its way to the size field takes any size but zero for a message. */
  lemma {:induction false} SeeRun(m: Machine) returns (s: seq<Action>, m': Machine)
    requires Shape(m) && SizeField(m.mem, Slot(m.read, m.n)) != 0
    requires m.read != m.written && -TWO_32 < m.read - m.written < TWO_32
    requires m.cons.Waiting? || ((m.cons.Loaded? || m.cons.Scan?) && m.cons.r == m.read)
    ensures Goes(m, s, m', [Popped(MsgAt(m.mem, Slot(m.read, m.n)))]) && m'.fault == m.fault
    decreases if m.cons.Waiting? then 2 else if m.cons.Loaded? then 1 else 0
  {
    hide Slot, MsgAt, SizeField, Goes, ProducerStep, Begin;
    var m1 := Step(m, Consume).0;
    if m.cons.Scan? {
      s, m' := PopRun(m1);
    } else {
      s, m' := SeeRun(m1);
    }
    GoesQuietly(m, Consume, s, m', [Popped(MsgAt(m.mem, Slot(m.read, m.n)))]);
    s := [Consume] + s;
  }

  /** The segment that starts at r. */
  function Segment(mem: seq<byte>, n: nat, r: nat): (k: nat)
    requires Ring(mem, n)
    ensures k >= 1
  {
    if SizeOf(mem, n, r) == 0 then n - Slot(r, n) else DivCeil(SizeOf(mem, n, r), BLOCK)
  }

  /** Going from segment to segment, a consumer at r comes to q. */
  predicate Hits(mem: seq<byte>, n: nat, r: nat, q: nat)
    requires Ring(mem, n)
    decreases q - r
  {
    r == q || (r < q && Hits(mem, n, r + Segment(mem, n, r), q))
  }

  /** No segment crosses the ring end, so every ring start on the way is hit, and holds a message. */
  lemma {:induction false} RingStartHit(mem: seq<byte>, n: nat, r: nat, w: nat, q: nat)
    requires Ring(mem, n) && Chain(mem, n, r, w) && r <= q < w && Slot(q, n) == 0
    ensures Hits(mem, n, r, q) && SizeOf(mem, n, q) != 0
    decreases q - r
  {
    hide Slot, SizeOf;
    if r < q {
      var next := r + Segment(mem, n, r);
      if q < next {
        SlotAdd(r, q - r, n);
        assert false;
      }
      RingStartHit(mem, n, next, w, q);
    }
  }

  predicate Arrived(m: Machine, q: nat) { m.read == q && (m.cons.Holding? || m.cons.Popping?) }

  /** The consumer is at or before q and will come to it. */
  predicate Approaching(m: Machine, q: nat)
    requires Ring(m.mem, m.n)
  {
    Unread(m) <= q < m.written && Hits(m.mem, m.n, Unread(m), q) && SizeOf(m.mem, m.n, q) != 0
  }

  function Rank(c: Consumer): nat
  {
    match c
    case Popping(_) => 0
    case Holding(_, _) => 1
    case Rewind(_, _, _) => 2
    case Scan(_, _, _) => 3
    case Loaded(_) => 4
    case Waiting => 5
  }

  lemma {:induction false} ApproachStep(m: Machine, q: nat)
    requires Inv(m) && Approaching(m, q) && !Arrived(m, q)
    ensures Inv(Step(m, Consume).0) && Approaching(Step(m, Consume).0, q)
    ensures var (m1, now) := Step(m, Consume);
            && m1 == m.(read := m1.read, cons := m1.cons)
            && m.read <= m1.read && (m.read == m1.read ==> Rank(m1.cons) < Rank(m.cons))
            && now in {[], [Popped(MsgAt(m.mem, Slot(m.read, m.n)))]}
  {
    ConsumerAdvances(m);
    assert Shape(m) && !m.wraps && ConsumerInv(m);
    hide Inv, Contents, FifoStep;
    ApproachMoves(m, q);
  }

  lemma {:induction false} ApproachMoves(m: Machine, q: nat)
    requires Shape(m) && !m.wraps && ConsumerInv(m) && Approaching(m, q) && !Arrived(m, q)
    ensures Approaching(Step(m, Consume).0, q)
    ensures var (m1, now) := Step(m, Consume);
            && m1 == m.(read := m1.read, cons := m1.cons)
            && m.read <= m1.read && (m.read == m1.read ==> Rank(m1.cons) < Rank(m.cons))
            && now in {[], [Popped(MsgAt(m.mem, Slot(m.read, m.n)))]}
  {
    hide Chain, Slot, MsgAt, Get32, ProducerStep, Begin;
    match m.cons
    case Scan(r, w, rewinds) =>
      if SizeOf(m.mem, m.n, r) == 0 {
        assert r < q && Hits(m.mem, m.n, r + Segment(m.mem, m.n, r), q);
        assert Step(m, Consume).0.cons.next == r + Segment(m.mem, m.n, r);
      }
    case Popping(next) =>
      assert m.read < q && Hits(m.mem, m.n, m.read + Segment(m.mem, m.n, m.read), q);
      assert next == m.read + Segment(m.mem, m.n, m.read);
    case _ =>
  }

  predicate AllConsume(s: seq<Action>) { forall a :: a in s ==> a.Consume? }

  lemma ArrivedAt(m: Machine, q: nat)
    requires Arrived(m, q)
    ensures m.read == q
  {
  }

  lemma NoCommits(now: seq<Event>)
    requires now == [] || (|now| == 1 && now[0].Popped?)
    ensures CommitsOf(now) == []
  {
    assert now != [] ==> now[1..] == [];
  }

  /** Left alone, it pops what is before q and comes to hold the message at q. */
  lemma {:induction false} Approach(m: Machine, q: nat) returns (s: seq<Action>, m': Machine, t: seq<Event>)
    requires Inv(m) && Approaching(m, q)
    ensures Goes(m, s, m', t) && AllConsume(s) && CommitsOf(t) == []
    ensures Inv(m') && Arrived(m', q) && m' == m.(read := q, cons := m'.cons)
    decreases m.written - m.read, Rank(m.cons)
  {
    assert Shape(m) && m.read <= m.written;
    hide Inv, Goes, MsgAt, Slot, Step, Approaching, Arrived, Rank, Near, CommitsOf, PopsOf;
    InvNear(m);
    if Arrived(m, q) {
      s, m', t := [], m, [];
      ArrivedAt(m, q);
      NoCommits([]);
      GoesNowhere(m);
    } else {
      ApproachStep(m, q);
      var (m1, now) := Step(m, Consume);
      s, m', t := Approach(m1, q);
      GoesOn(m, Consume, s, m', t);
      NoCommits(now);
      TraceSplit(now, t);
      s, t := [Consume] + s, now + t;
    }
  }

  lemma {:induction false} BlindStep(m: Machine, p: Producer)
    requires Shape(m)
    ensures Step(m.(prod := p), Consume) ==
            (Step(m, Consume).0.(prod := p), Step(m, Consume).1)
  {
    hide SizeField, MsgAt, Slot, DivCeil, Begin, ProducerStep, PadBlocks;
  }

  lemma {:induction false} GoesRest(m: Machine, s: seq<Action>, m': Machine, t: seq<Event>) returns (later: seq<Event>)
    requires Goes(m, s, m', t) && s != []
    ensures Near(m) && Goes(Step(m, s[0]).0, s[1..], m', later) && t == Step(m, s[0]).1 + later
  {
    hide Step, Near, ActionOk;
    later := Run(Step(m, s[0]).0, s[1..]).1;
  }

  /** The consumer does not look at the producer's position. */
  lemma {:induction false} ConsumerBlind(m: Machine, s: seq<Action>, m': Machine, t: seq<Event>, p: Producer)
    requires Goes(m, s, m', t) && AllConsume(s)
    ensures Goes(m.(prod := p), s, m'.(prod := p), t)
    decreases |s|
  {
    assert Shape(m) && (s == [] ==> m' == m && t == [] && Near(m));
    hide Step, Goes;
    if s == [] {
      GoesNowhere(m.(prod := p));
    } else {
      assert s[0] in s;
      var later := GoesRest(m, s, m', t);
      assert forall a :: a in s[1..] ==> a in s;
      ConsumerBlind(Step(m, Consume).0, s[1..], m', later, p);
      BlindStep(m, p);
      GoesOn(m.(prod := p), Consume, s[1..], m'.(prod := p), later);
      assert [Consume] + s[1..] == s;
    }
  }
}
