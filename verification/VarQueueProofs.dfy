/** The block queue refines a FIFO of messages, over every interleaving.

    The abstraction reads the published part of the ring straight out of memory: `Contents` parses
    the blocks in [read, written) into messages. `Inv` is inductive over every step, and each step
    is a step of a plain FIFO on `Contents`.
  */
module VarQueueProofs {
  import opened Bits
  import opened RingIndex
  import opened VarQueue

  predicate Ring(mem: seq<byte>, n: nat) { n > 0 && |mem| == n * BLOCK }

  function BlockOf(mem: seq<byte>, n: nat, i: nat): seq<byte>
    requires Ring(mem, n)
  {
    Block(mem, Slot(i, n))
  }

  function SizeOf(mem: seq<byte>, n: nat, i: nat): u32
    requires Ring(mem, n)
  {
    SizeField(mem, Slot(i, n))
  }

  function MsgOf(mem: seq<byte>, n: nat, i: nat): Msg
    requires Ring(mem, n)
  {
    MsgAt(mem, Slot(i, n))
  }

  /** [r, w) is a chain of messages and pads: a message fills whole blocks before the ring end;
      a pad (size 0) never starts at the ring start, runs to the ring end and is never last. */
  predicate Chain(mem: seq<byte>, n: nat, r: nat, w: nat)
    requires Ring(mem, n)
    decreases w - r
  {
    r <= w &&
    (r == w ||
     var size, b := SizeOf(mem, n, r), Slot(r, n);
     if size == 0 then 0 < b < n && r + (n - b) < w && Chain(mem, n, r + (n - b), w)
     else
       HEADER <= size && b + DivCeil(size, BLOCK) <= n &&
       Chain(mem, n, r + DivCeil(size, BLOCK), w))
  }

  /** The messages of a chain, oldest first. */
  function Parse(mem: seq<byte>, n: nat, r: nat, w: nat): seq<Msg>
    requires Ring(mem, n)
    decreases w - r
  {
    if r >= w then []
    else
      var size := SizeOf(mem, n, r);
      if size == 0 then Parse(mem, n, r + (n - Slot(r, n)), w)
      else [MsgOf(mem, n, r)] + Parse(mem, n, r + DivCeil(size, BLOCK), w)
  }

  // ----- framing: memory changes elsewhere -----

  predicate SameBlocks(mem: seq<byte>, mem': seq<byte>, n: nat, r: nat, w: nat)
    requires Ring(mem, n) && Ring(mem', n)
  {
    forall i :: r <= i < w ==> BlockOf(mem, n, i) == BlockOf(mem', n, i)
  }

  lemma {:induction false} SizeFrame(mem: seq<byte>, mem': seq<byte>, n: nat, i: nat)
    requires Ring(mem, n) && Ring(mem', n)
    requires BlockOf(mem, n, i) == BlockOf(mem', n, i)
    ensures SizeOf(mem, n, i) == SizeOf(mem', n, i)
  {
    var b := Slot(i, n);
    assert forall j :: 0 <= j < 4 ==>
      mem[b * BLOCK + j] == Block(mem, b)[j] == Block(mem', b)[j] == mem'[b * BLOCK + j];
  }

  lemma {:induction false} RegionFrame(mem: seq<byte>, mem': seq<byte>, n: nat, i: nat, k: nat)
    requires Ring(mem, n) && Ring(mem', n)
    requires Slot(i, n) + k <= n
    requires SameBlocks(mem, mem', n, i, i + k)
    ensures forall x :: Slot(i, n) * BLOCK <= x < (Slot(i, n) + k) * BLOCK ==> mem[x] == mem'[x]
  {
    var b := Slot(i, n);
    forall x | b * BLOCK <= x < (b + k) * BLOCK
      ensures mem[x] == mem'[x]
    {
      var q, o := x / BLOCK - b, x % BLOCK;
      SlotAdd(i, q, n);
      assert BlockOf(mem, n, i + q) == BlockOf(mem', n, i + q);
      assert mem[x] == Block(mem, b + q)[o];
      assert mem'[x] == Block(mem', b + q)[o];
    }
  }

  lemma {:induction false} MsgFrame(mem: seq<byte>, mem': seq<byte>, n: nat, i: nat)
    requires Ring(mem, n) && Ring(mem', n)
    requires HEADER <= SizeOf(mem, n, i)
    requires Slot(i, n) + DivCeil(SizeOf(mem, n, i), BLOCK) <= n
    requires SameBlocks(mem, mem', n, i, i + DivCeil(SizeOf(mem, n, i), BLOCK))
    ensures MsgOf(mem, n, i) == MsgOf(mem', n, i)
  {
    hide Slot, BlockOf;
    var size := SizeOf(mem, n, i);
    var a := Slot(i, n) * BLOCK;
    RegionFrame(mem, mem', n, i, DivCeil(size, BLOCK));
    assert BlockOf(mem, n, i) == BlockOf(mem', n, i);
    SizeFrame(mem, mem', n, i);
    assert mem[a + HEADER..a + size] == mem'[a + HEADER..a + size];
  }

  lemma {:induction false} ChainFrame(mem: seq<byte>, mem': seq<byte>, n: nat, r: nat, w: nat)
    requires Ring(mem, n) && Ring(mem', n)
    requires Chain(mem, n, r, w)
    requires SameBlocks(mem, mem', n, r, w)
    ensures Chain(mem', n, r, w)
    ensures Parse(mem, n, r, w) == Parse(mem', n, r, w)
    decreases w - r
  {
    hide Slot, SizeOf, MsgOf, BlockOf;
    if r < w {
      assert BlockOf(mem, n, r) == BlockOf(mem', n, r);
      SizeFrame(mem, mem', n, r);
      var size := SizeOf(mem, n, r);
      if size == 0 {
        ChainFrame(mem, mem', n, r + (n - Slot(r, n)), w);
      } else {
        ChainFrame(mem, mem', n, r + DivCeil(size, BLOCK), w);
        MsgFrame(mem, mem', n, r);
      }
    }
  }

  /** Chains concatenate, and so do the messages in them. */
  lemma {:induction false} ChainConcat(mem: seq<byte>, n: nat, r: nat, p: nat, w: nat)
    requires Ring(mem, n)
    requires Chain(mem, n, r, p) && Chain(mem, n, p, w)
    ensures Chain(mem, n, r, w)
    ensures Parse(mem, n, r, w) == Parse(mem, n, r, p) + Parse(mem, n, p, w)
    decreases p - r
  {
    hide Slot, SizeOf, MsgOf;
    if r < p {
      var size := SizeOf(mem, n, r);
      if size == 0 {
        ChainConcat(mem, n, r + (n - Slot(r, n)), p, w);
      } else {
        var next := r + DivCeil(size, BLOCK);
        ChainConcat(mem, n, next, p, w);
        assert Parse(mem, n, r, p) == [MsgOf(mem, n, r)] + Parse(mem, n, next, p);
        assert Parse(mem, n, r, w) == [MsgOf(mem, n, r)] + Parse(mem, n, next, w);
      }
    }
  }

  // ----- the invariant -----

  /** The message's size fits its 32-bit field. */
  predicate Representable(msg: Msg) { TotalBytes(|msg.payload|) < TWO_32 }

  /** The least read index at which the call has room: its reservation ends one lap after it. */
  function Least(m: Machine, len: nat): int
    requires m.n > 0
  {
    m.writing + Needed(m.n, m.writing, len) - m.n
  }

  /** The first position the consumer may still read: behind a pad it has already recognised, that is
      the ring start it is about to move to. */
  function Unread(m: Machine): nat { if m.cons.Rewind? then m.cons.next else m.read }

  /** The guard on this index does not let a reservation reach unread blocks. */
  predicate Truthful(m: Machine, readIdx: nat, len: nat)
    requires m.n > 0
  {
    Least(m, len) <= Unread(m) || GuardFails(m, readIdx, len)
  }

  /** The condition on a call, and on its second try of the guard. */
  predicate CallOk(m: Machine, msg: Msg)
    requires m.n > 0
  {
    Representable(msg) && Truthful(m, m.cache, |msg.payload|)
  }

  predicate RetryOk(m: Machine)
    requires m.n > 0
  {
    m.prod.Refresh? ==> Truthful(m, m.read, |m.prod.msg.payload|)
  }

  predicate ActionOk(m: Machine, a: Action)
    requires m.n > 0
  {
    (a.Call? && m.prod.Ready? ==> CallOk(m, a.msg)) && (a.Produce? ==> RetryOk(m))
  }

  /** `at` is a place for the message: next to the published part, or at the ring start after a
      marked pad; and the whole reservation is within one lap of the consumer. */
  predicate Placed(m: Machine, msg: Msg, at: nat)
    requires Ring(m.mem, m.n)
  {
    && Representable(msg)
    && m.written <= at
    && at + BlockCount(|msg.payload|) <= Unread(m) + m.n
    && Slot(at, m.n) + BlockCount(|msg.payload|) <= m.n
    && (at == m.written || PadAt(m, at))
  }

  predicate PadAt(m: Machine, at: nat)
    requires Ring(m.mem, m.n)
  {
    && 0 < Slot(m.written, m.n) < m.n
    && at == m.written + (m.n - Slot(m.written, m.n))
    && SizeOf(m.mem, m.n, m.written) == 0
  }

  predicate Writing(m: Machine, msg: Msg, at: nat)
    requires Ring(m.mem, m.n)
  {
    Placed(m, msg, at) && m.writing == at + BlockCount(|msg.payload|)
  }

  predicate LevelIn(m: Machine, msg: Msg, a: nat) { Holds(m.mem, a + 4, LE32(msg.level)) }
  predicate TscIn(m: Machine, msg: Msg, a: nat) { Holds(m.mem, a + 8, LE64(AsU64(msg.tsc))) }
  predicate FuncIn(m: Machine, msg: Msg, a: nat) { Holds(m.mem, a + 16, LE64(msg.logFunc)) }
  predicate FieldsIn(m: Machine, msg: Msg, a: nat)
  {
    LevelIn(m, msg, a) && TscIn(m, msg, a) && FuncIn(m, msg, a)
  }

  /** Room for the call, as the guard has established it. */
  predicate Room(m: Machine, msg: Msg)
    requires m.n > 0
  {
    Representable(msg) && Least(m, |msg.payload|) <= Unread(m)
  }

  predicate ProducerInv(m: Machine)
    requires Ring(m.mem, m.n)
  {
    match m.prod
    case Ready => m.writing == m.written
    case Refresh(msg) => m.writing == m.written && Representable(msg)
    case Mark(msg) =>
      m.writing == m.written && Room(m, msg) && Rewinds(m.n, m.writing, |msg.payload|)
    case Skip(msg) =>
      m.writing == m.written && Room(m, msg) && Rewinds(m.n, m.writing, |msg.payload|) &&
      SizeOf(m.mem, m.n, m.written) == 0
    case Reserve(msg, at) => m.writing == at && Placed(m, msg, at)
    case PutLevel(msg, at) => Writing(m, msg, at)
    case PutTsc(msg, at) => Writing(m, msg, at) && LevelIn(m, msg, Slot(at, m.n) * BLOCK)
    case PutFunc(msg, at) =>
      Writing(m, msg, at) && LevelIn(m, msg, Slot(at, m.n) * BLOCK) &&
      TscIn(m, msg, Slot(at, m.n) * BLOCK)
    case Copy(msg, at, k) =>
      Writing(m, msg, at) && FieldsIn(m, msg, Slot(at, m.n) * BLOCK) && k <= |msg.payload| &&
      Holds(m.mem, Slot(at, m.n) * BLOCK + HEADER, msg.payload[..k])
    case Publish(msg, at) =>
      Writing(m, msg, at) && FieldsIn(m, msg, Slot(at, m.n) * BLOCK) &&
      Holds(m.mem, Slot(at, m.n) * BLOCK + HEADER, msg.payload) &&
      Holds(m.mem, Slot(at, m.n) * BLOCK, LE32(TotalBytes(|msg.payload|)))
  }

  predicate ConsumerInv(m: Machine)
    requires Ring(m.mem, m.n)
  {
    match m.cons
    case Waiting => true
    case Loaded(r) => r == m.read
    case Scan(r, w, rewinds) =>
      r == m.read < w <= m.written && Chain(m.mem, m.n, r, w) &&
      (rewinds == 0 || (rewinds == 1 && Slot(r, m.n) == 0))
    case Rewind(next, w, rewinds) =>
      m.read < next < w <= m.written && Chain(m.mem, m.n, next, w) && rewinds == 0 &&
      Slot(next, m.n) == 0 && next < m.read + m.n
    case Holding(r, size) =>
      r == m.read < m.written && size == SizeOf(m.mem, m.n, r) != 0
    case Popping(next) =>
      m.read < m.written && SizeOf(m.mem, m.n, m.read) != 0 &&
      next == m.read + DivCeil(SizeOf(m.mem, m.n, m.read), BLOCK)
  }

  predicate Inv(m: Machine)
  {
    && Shape(m) && !m.wraps && !m.fault
    && m.cache <= m.read <= Unread(m) <= m.written <= m.writing
    && m.writing <= Unread(m) + m.n
    && Chain(m.mem, m.n, Unread(m), m.written)
    && ProducerInv(m)
    && ConsumerInv(m)
  }

  /** The abstract queue of a state. */
  function Contents(m: Machine): seq<Msg>
    requires Shape(m)
  {
    Parse(m.mem, m.n, Unread(m), m.written)
  }

  lemma InitInv(n: nat)
    requires 0 < n <= TWO_31
    ensures Inv(Init(n, false)) && Contents(Init(n, false)) == []
  {
  }

  // ----- the abstract queue -----

  /** One step of a FIFO of messages, with the events it may emit. */
  predicate FifoStep(q: seq<Msg>, q': seq<Msg>, events: seq<Event>)
  {
    if events == [] then q' == q
    else
      |events| == 1 &&
      match events[0]
      case Committed(msg) => q' == q + [msg]
      case Popped(msg) => q == [msg] + q'
      case Seen(msg) => q' == q && q != [] && q[0] == msg
      case Empty => q' == q == []
      case Rejected(_) => q' == q
      case FalseEmpty => false
  }

  // ----- arithmetic of the guard -----

  lemma NeededExact(n: nat, w: nat, len: nat)
    requires 0 < n <= TWO_31 && TotalBytes(len) < TWO_32
    ensures BlockCount(len) == DivCeil(TotalBytes(len), BLOCK) >= 1
    ensures Slot(w, n) < n
    ensures Needed(n, w, len) ==
            BlockCount(len) + if Rewinds(n, w, len) then PadBlocks(n, w) else 0
  {
  }

  lemma WrapDifference(x: int, n: int)
    ensures Wrap32(Wrap32(x) - n) == Wrap32(x - n)
  {
  }

  /** The guard is the signed comparison of the two true values, wrapped. */
  lemma {:induction false} GuardIsSignedLess(m: Machine, readIdx: nat, len: nat)
    requires m.n > 0
    ensures GuardFails(m, readIdx, len) <==>
            SignedLess(readIdx, Least(m, len))
  {
    WrapDifference(m.writing + Needed(m.n, m.writing, len), m.n);
    hide Needed, Wrap32, AsI32;
  }

  /** An index passes the guard at any distance: its place in its signed window against that of the
      least admissible index in its own. */
  predicate Passes(readIdx: int, least: int)
  {
    least - TWO_32 * Window(least) <= readIdx - TWO_32 * Window(readIdx)
  }

  lemma {:induction false} GuardIsPasses(m: Machine, readIdx: nat, len: nat)
    requires m.n > 0
    ensures GuardFails(m, readIdx, len) <==> !Passes(readIdx, Least(m, len))
  {
    hide Least, Window, GuardFails;
    GuardIsSignedLess(m, readIdx, len);
    SignedViewShifts(readIdx);
    SignedViewShifts(Least(m, len));
  }

  /** For indices less than 2^32 apart, the guard gives the true answer exactly when the two
      values it compares lie in one signed window. */
  lemma {:induction false} GuardExact(m: Machine, readIdx: nat, len: nat)
    requires m.n > 0 && -TWO_32 < readIdx - Least(m, len) < TWO_32
    ensures (GuardFails(m, readIdx, len) <==> readIdx < Least(m, len)) <==>
            Window(readIdx) == Window(Least(m, len)) || readIdx == Least(m, len)
  {
    hide Least, Window, GuardFails;
    GuardIsSignedLess(m, readIdx, len);
    SignedCompareExact(readIdx, Least(m, len));
  }

  // ----- stores by the producer -----

  lemma {:induction false} PutFrame(m: Machine, at: nat, offset: nat, bytes: seq<byte>, k: nat, r: nat)
    requires Ring(m.mem, m.n)
    requires Slot(at, m.n) + k <= m.n && offset + |bytes| <= k * BLOCK
    requires r <= at && at + k <= r + m.n
    ensures Put(m, at, offset, bytes) ==
            m.(mem := Store(m.mem, Slot(at, m.n) * BLOCK + offset, bytes))
    ensures SameBlocks(m.mem, Put(m, at, offset, bytes).mem, m.n, r, at)
  {
    var m' := Put(m, at, offset, bytes);
    forall i | r <= i < at
      ensures BlockOf(m.mem, m.n, i) == BlockOf(m'.mem, m.n, i)
    {
      SpanDisjoint(i, at, k, m.n);
    }
  }

  lemma {:induction false} HoldsFrame(mem: seq<byte>, a: nat, bytes: seq<byte>, at: nat, other: seq<byte>)
    requires Holds(mem, a, bytes)
    requires at + |other| <= a || a + |bytes| <= at
    ensures Holds(Store(mem, at, other), a, bytes)
  {
  }

  lemma HoldsStored(mem: seq<byte>, a: nat, bytes: seq<byte>)
    requires a + |bytes| <= |mem|
    ensures Holds(Store(mem, a, bytes), a, bytes)
  {
  }

  lemma HoldsNothing(mem: seq<byte>, a: nat, bytes: seq<byte>)
    requires a <= |mem| && bytes == []
    ensures Holds(mem, a, bytes)
  {
  }

  lemma HoldsSlice(mem: seq<byte>, a: nat, bytes: seq<byte>)
    requires Holds(mem, a, bytes)
    ensures mem[a..a + |bytes|] == bytes
  {
  }

  /** What a store by the producer into its reservation leaves alone. */
  lemma {:induction false} StoreKeeps(m: Machine, m': Machine)
    requires Inv(m) && Ring(m'.mem, m.n)
    requires m' == m.(mem := m'.mem, prod := m'.prod)
    requires SameBlocks(m.mem, m'.mem, m.n, Unread(m), m.written)
    ensures Chain(m'.mem, m.n, Unread(m), m.written)
    ensures Parse(m'.mem, m.n, Unread(m), m.written) == Contents(m)
    ensures ConsumerInv(m')
  {
    ChainFrame(m.mem, m'.mem, m.n, Unread(m), m.written);
    hide Chain, Parse, Slot, BlockOf, Get32;
    if m.cons.Holding? || m.cons.Popping? {
      assert BlockOf(m.mem, m.n, m.read) == BlockOf(m'.mem, m.n, m.read);
      SizeFrame(m.mem, m'.mem, m.n, m.read);
    }
    if m.cons.Scan? || m.cons.Rewind? {
      ChainFrame(m.mem, m'.mem, m.n, Unread(m), m.cons.w);
    }
  }

  /** Shared core of the steps that fill the reservation. */
  lemma {:induction false} FillStep(m: Machine, msg: Msg, at: nat, offset: nat, bytes: seq<byte>, m': Machine)
    requires Inv(m) && Writing(m, msg, at)
    requires offset + |bytes| <= TotalBytes(|msg.payload|)
    requires m' == Put(m, at, offset, bytes).(prod := m'.prod)
    ensures m'.mem == Store(m.mem, Slot(at, m.n) * BLOCK + offset, bytes)
    ensures Slot(at, m.n) * BLOCK + offset + |bytes| <= |m.mem|
    ensures Ring(m'.mem, m.n) && m' == m.(mem := m'.mem, prod := m'.prod)
    ensures Writing(m', msg, at)
    ensures SameBlocks(m.mem, m'.mem, m.n, Unread(m), m.written)
    ensures ProducerInv(m') ==> Inv(m') && Contents(m') == Contents(m)
  {
    hide Chain, Parse, ConsumerInv, Slot, SizeOf, BlockOf;
    NeededExact(m.n, at, |msg.payload|);
    PutFrame(m, at, offset, bytes, BlockCount(|msg.payload|), Unread(m));
    if at != m.written {
      assert BlockOf(m.mem, m.n, m.written) == BlockOf(m'.mem, m.n, m.written);
      SizeFrame(m.mem, m'.mem, m.n, m.written);
    }
    forall i | Unread(m) <= i < m.written
      ensures BlockOf(m.mem, m.n, i) == BlockOf(m'.mem, m.n, i)
    {
    }
    StoreKeeps(m, m');
  }

  // ----- one lemma per kind of producer step -----

  predicate Advances(m: Machine, m': Machine, events: seq<Event>)
    requires Shape(m)
  {
    Inv(m') && FifoStep(Contents(m), Contents(m'), events)
  }

  lemma {:induction false} GuardPassed(m: Machine, msg: Msg)
    requires Inv(m.(prod := Ready)) && m.writing == m.written && Representable(msg)
    requires Least(m, |msg.payload|) <= Unread(m)
    ensures Inv(PassGuard(m, msg)) && Contents(PassGuard(m, msg)) == Contents(m.(prod := Ready))
  {
    hide Chain, Parse, Slot, SizeOf, Needed, BlockCount, Holds, LE32, LE64;
    NeededExact(m.n, m.writing, |msg.payload|);
  }

  lemma {:induction false} BeginAdvances(m: Machine, msg: Msg)
    requires Inv(m) && m.prod.Ready? && CallOk(m, msg)
    ensures Advances(m, Begin(m, msg).0, Begin(m, msg).1)
    ensures forall e :: e in Begin(m, msg).1 ==> !e.Rejected?
  {
    hide Chain, Parse, Slot, SizeOf, GuardFails, PassGuard, Holds, LE32, LE64;
    if !GuardFails(m, m.cache, |msg.payload|) {
      GuardPassed(m, msg);
    }
  }

  /** Whether an index fails the guard depends on the ring and the write index alone. */
  lemma GuardOfIndices(m: Machine, m': Machine, len: nat)
    requires m.n == m'.n > 0 && m.writing == m'.writing
    ensures forall r: nat :: GuardFails(m, r, len) == GuardFails(m', r, len)
  {
  }

  lemma {:induction false} RefreshAdvances(m: Machine)
    requires Inv(m) && m.prod.Refresh? && RetryOk(m)
    ensures Advances(m, ProducerStep(m).0, ProducerStep(m).1)
  {
    hide Chain, Parse, Slot, SizeOf, GuardFails, PassGuard, Needed, Holds, LE32, LE64;
    var m1 := m.(cache := m.read);
    GuardOfIndices(m, m1, |m.prod.msg.payload|);
    if !GuardFails(m1, m1.cache, |m.prod.msg.payload|) {
      GuardPassed(m1, m.prod.msg);
    }
  }

  lemma {:induction false} MarkAdvances(m: Machine)
    requires Inv(m) && m.prod.Mark?
    ensures Advances(m, ProducerStep(m).0, ProducerStep(m).1)
    ensures SameBlocks(m.mem, ProducerStep(m).0.mem, m.n, Unread(m), m.written)
  {
    hide Slot, Chain, Parse, Holds, Store, LE32, Needed, ConsumerInv;
    var m' := ProducerStep(m).0;
    NeededExact(m.n, m.writing, |m.prod.msg.payload|);
    PutFrame(m, m.writing, 0, LE32(0), 1, Unread(m));
    StoreKeeps(m, m');
    HoldsStored(m.mem, Slot(m.writing, m.n) * BLOCK, LE32(0));
    Word32RoundTrip(m'.mem, Slot(m.writing, m.n) * BLOCK, 0);
  }

  lemma {:induction false} SkipAdvances(m: Machine)
    requires Inv(m) && m.prod.Skip?
    ensures Advances(m, ProducerStep(m).0, ProducerStep(m).1)
  {
    hide Chain, Parse, Slot, SizeOf, BlockOf;
    NeededExact(m.n, m.writing, |m.prod.msg.payload|);
    SlotRewind(m.writing, m.n);
  }

  lemma {:induction false} ReserveAdvances(m: Machine)
    requires Inv(m) && m.prod.Reserve?
    ensures Advances(m, ProducerStep(m).0, ProducerStep(m).1)
  {
    hide Chain, Parse, Slot, SizeOf, BlockOf;
    NeededExact(m.n, m.prod.at, |m.prod.msg.payload|);
  }

  lemma {:induction false} PutLevelAdvances(m: Machine)
    requires Inv(m) && m.prod.PutLevel?
    ensures Advances(m, ProducerStep(m).0, ProducerStep(m).1)
    ensures SameBlocks(m.mem, ProducerStep(m).0.mem, m.n, Unread(m), m.written)
  {
    hide Chain, Parse, ConsumerInv, Slot, LE64, LE32, Writing, Store, Holds;
    var a, bytes := Slot(m.prod.at, m.n) * BLOCK, LE32(m.prod.msg.level);
    FillStep(m, m.prod.msg, m.prod.at, 4, bytes, ProducerStep(m).0);
    HoldsStored(m.mem, a + 4, bytes);
  }

  lemma {:induction false} PutTscAdvances(m: Machine)
    requires Inv(m) && m.prod.PutTsc?
    ensures Advances(m, ProducerStep(m).0, ProducerStep(m).1)
    ensures SameBlocks(m.mem, ProducerStep(m).0.mem, m.n, Unread(m), m.written)
  {
    hide Chain, Parse, ConsumerInv, Slot, LE64, LE32, Writing, Store, Holds;
    var a, bytes := Slot(m.prod.at, m.n) * BLOCK, LE64(AsU64(m.prod.msg.tsc));
    FillStep(m, m.prod.msg, m.prod.at, 8, bytes, ProducerStep(m).0);
    HoldsStored(m.mem, a + 8, bytes);
    HoldsFrame(m.mem, a + 4, LE32(m.prod.msg.level), a + 8, bytes);
  }

  lemma {:induction false} PutFuncAdvances(m: Machine)
    requires Inv(m) && m.prod.PutFunc?
    ensures Advances(m, ProducerStep(m).0, ProducerStep(m).1)
    ensures SameBlocks(m.mem, ProducerStep(m).0.mem, m.n, Unread(m), m.written)
  {
    hide Chain, Parse, ConsumerInv, Slot, LE64, LE32, Writing, Store, Holds;
    var a, bytes := Slot(m.prod.at, m.n) * BLOCK, LE64(m.prod.msg.logFunc);
    FillStep(m, m.prod.msg, m.prod.at, 16, bytes, ProducerStep(m).0);
    HoldsStored(m.mem, a + 16, bytes);
    HoldsFrame(m.mem, a + 4, LE32(m.prod.msg.level), a + 16, bytes);
    HoldsFrame(m.mem, a + 8, LE64(AsU64(m.prod.msg.tsc)), a + 16, bytes);
    HoldsNothing(ProducerStep(m).0.mem, a + HEADER, m.prod.msg.payload[..0]);
  }

  lemma {:induction false} FieldsFrame(m: Machine, msg: Msg, a: nat, at: nat, bytes: seq<byte>)
    requires FieldsIn(m, msg, a)
    requires at + |bytes| <= a + 4 || a + HEADER <= at
    ensures FieldsIn(m.(mem := Store(m.mem, at, bytes)), msg, a)
  {
    HoldsFrame(m.mem, a + 4, LE32(msg.level), at, bytes);
    HoldsFrame(m.mem, a + 8, LE64(AsU64(msg.tsc)), at, bytes);
    HoldsFrame(m.mem, a + 16, LE64(msg.logFunc), at, bytes);
  }

  lemma FieldsOfMem(m: Machine, m': Machine, msg: Msg, a: nat)
    requires m'.mem == m.mem
    ensures FieldsIn(m, msg, a) == FieldsIn(m', msg, a)
  {
  }

  lemma {:induction false} HoldsOneMore(mem: seq<byte>, a: nat, bytes: seq<byte>, k: nat)
    requires k < |bytes| && Holds(mem, a, bytes[..k]) && a + k < |mem|
    ensures Holds(Store(mem, a + k, [bytes[k]]), a, bytes[..k + 1])
  {
    hide Store;
    HoldsFrame(mem, a, bytes[..k], a + k, [bytes[k]]);
    HoldsStored(mem, a + k, [bytes[k]]);
  }

  lemma {:induction false} CopyByteAdvances(m: Machine)
    requires Inv(m) && m.prod.Copy? && m.prod.k < |m.prod.msg.payload|
    ensures Advances(m, ProducerStep(m).0, ProducerStep(m).1)
    ensures SameBlocks(m.mem, ProducerStep(m).0.mem, m.n, Unread(m), m.written)
  {
    hide Chain, Parse, ConsumerInv, Slot, LE64, LE32, Writing, Store, Holds, FieldsIn;
    var Copy(msg, at, k) := m.prod;
    var a, bytes := Slot(at, m.n) * BLOCK, [msg.payload[k]];
    FillStep(m, msg, at, HEADER + k, bytes, ProducerStep(m).0);
    FieldsFrame(m, msg, a, a + HEADER + k, bytes);
    FieldsOfMem(m.(mem := Store(m.mem, a + HEADER + k, bytes)), ProducerStep(m).0, msg, a);
    HoldsOneMore(m.mem, a + HEADER, msg.payload, k);
  }

  lemma {:induction false} PutSizeAdvances(m: Machine)
    requires Inv(m) && m.prod.Copy? && m.prod.k == |m.prod.msg.payload|
    ensures Advances(m, ProducerStep(m).0, ProducerStep(m).1)
    ensures SameBlocks(m.mem, ProducerStep(m).0.mem, m.n, Unread(m), m.written)
  {
    hide Chain, Parse, ConsumerInv, Slot, LE64, LE32, Store, Holds, SizeOf;
    var Copy(msg, at, k) := m.prod;
    var a, bytes := Slot(at, m.n) * BLOCK, LE32(TotalBytes(|msg.payload|));
    FillStep(m, msg, at, 0, bytes, ProducerStep(m).0);
    FieldsFrame(m, msg, a, a, bytes);
    assert msg.payload[..k] == msg.payload;
    HoldsFrame(m.mem, a + HEADER, msg.payload, a, bytes);
    HoldsStored(m.mem, a, bytes);
  }

  /** A filled reservation parses back to the message that was written into it. */
  lemma {:induction false} FilledParses(m: Machine, msg: Msg, at: nat)
    requires Ring(m.mem, m.n) && Representable(msg)
    requires Slot(at, m.n) + BlockCount(|msg.payload|) <= m.n
    requires FieldsIn(m, msg, Slot(at, m.n) * BLOCK)
    requires Holds(m.mem, Slot(at, m.n) * BLOCK + HEADER, msg.payload)
    requires Holds(m.mem, Slot(at, m.n) * BLOCK, LE32(TotalBytes(|msg.payload|)))
    ensures SizeOf(m.mem, m.n, at) == TotalBytes(|msg.payload|)
    ensures MsgOf(m.mem, m.n, at) == msg
  {
    hide Slot, LE32, LE64, Holds, AsI64, AsU64, Get32, Get64;
    var a := Slot(at, m.n) * BLOCK;
    Word32RoundTrip(m.mem, a, TotalBytes(|msg.payload|));
    Word32RoundTrip(m.mem, a + 4, msg.level);
    Word64RoundTrip(m.mem, a + 8, AsU64(msg.tsc));
    I64RoundTrip(msg.tsc);
    Word64RoundTrip(m.mem, a + 16, msg.logFunc);
    HoldsSlice(m.mem, a + HEADER, msg.payload);
  }

  lemma {:induction false} PublishAdvances(m: Machine)
    requires Inv(m) && m.prod.Publish?
    ensures Advances(m, ProducerStep(m).0, ProducerStep(m).1)
  {
    hide Slot, SizeOf, MsgOf, LE32, LE64;
    var Publish(msg, at) := m.prod;
    FilledParses(m, msg, at);
    NeededExact(m.n, at, |msg.payload|);
    assert Chain(m.mem, m.n, m.writing, m.writing);
    assert Chain(m.mem, m.n, at, m.writing) && Parse(m.mem, m.n, at, m.writing) == [msg];
    if at != m.written {
      assert Chain(m.mem, m.n, m.written, m.writing);
      assert Parse(m.mem, m.n, m.written, m.writing) == [msg];
    }
    ChainConcat(m.mem, m.n, Unread(m), m.written, m.writing);
  }

  lemma {:induction false} ProducerAdvances(m: Machine)
    requires Inv(m) && RetryOk(m)
    ensures Advances(m, ProducerStep(m).0, ProducerStep(m).1)
  {
    match m.prod
    case Ready =>
    case Refresh(_) => RefreshAdvances(m);
    case Mark(_) => MarkAdvances(m);
    case Skip(_) => SkipAdvances(m);
    case Reserve(_, _) => ReserveAdvances(m);
    case PutLevel(_, _) => PutLevelAdvances(m);
    case PutTsc(_, _) => PutTscAdvances(m);
    case PutFunc(_, _) => PutFuncAdvances(m);
    case Copy(msg, _, k) => if k < |msg.payload| { CopyByteAdvances(m); } else { PutSizeAdvances(m); }
    case Publish(_, _) => PublishAdvances(m);
  }

  // ----- the consumer -----

  /** The head of a chain: what a message or a pad at `read` says about the rest. */
  lemma {:induction false} ChainHead(mem: seq<byte>, n: nat, r: nat, w: nat)
    requires Ring(mem, n) && Chain(mem, n, r, w) && r < w
    ensures SizeOf(mem, n, r) != 0 ==>
              var next := r + DivCeil(SizeOf(mem, n, r), BLOCK);
              r < next <= w && Chain(mem, n, next, w) &&
              Parse(mem, n, r, w) == [MsgOf(mem, n, r)] + Parse(mem, n, next, w)
    ensures SizeOf(mem, n, r) == 0 ==>
              var next := r + (n - Slot(r, n));
              r < next < w && Slot(r, n) != 0 && Chain(mem, n, next, w) && Slot(next, n) == 0 &&
              Parse(mem, n, r, w) == Parse(mem, n, next, w)
  {
    hide Slot, SizeOf, MsgOf;
    SlotRewind(r, n);
  }

  /** The consumer only ever moves `read` forward, which leaves the producer's part intact. */
  lemma {:induction false} ProducerUnmoved(m: Machine, m': Machine)
    requires Ring(m.mem, m.n) && ProducerInv(m)
    requires m' == m.(cons := m'.cons, read := m'.read) && Unread(m) <= Unread(m')
    ensures ProducerInv(m')
  {
    hide Slot, SizeOf, Holds, LE32, LE64, Rewinds, Needed, BlockCount;
  }

  lemma {:induction false} ScanAdvances(m: Machine)
    requires Inv(m) && m.cons.Scan?
    ensures Advances(m, ConsumerStep(m).0, ConsumerStep(m).1)
  {
    hide Chain, Parse, ProducerInv, Slot, Get32, MsgAt;
    ChainHead(m.mem, m.n, m.read, m.cons.w);
    ChainHead(m.mem, m.n, m.read, m.written);
    ProducerUnmoved(m, ConsumerStep(m).0);
  }

  lemma {:induction false} RewindAdvances(m: Machine)
    requires Inv(m) && m.cons.Rewind?
    ensures Advances(m, ConsumerStep(m).0, ConsumerStep(m).1)
  {
    hide Chain, Parse, ProducerInv, Slot, Get32, MsgAt;
    ProducerUnmoved(m, ConsumerStep(m).0);
  }

  lemma {:induction false} HoldingAdvances(m: Machine)
    requires Inv(m) && m.cons.Holding?
    ensures Advances(m, ConsumerStep(m).0, ConsumerStep(m).1)
  {
    hide Chain, Parse, ProducerInv, Slot, Get32, MsgAt;
    ProducerUnmoved(m, ConsumerStep(m).0);
    ChainHead(m.mem, m.n, m.read, m.written);
  }

  lemma {:induction false} PoppingAdvances(m: Machine)
    requires Inv(m) && m.cons.Popping?
    ensures Advances(m, ConsumerStep(m).0, ConsumerStep(m).1)
  {
    hide Chain, Parse, ProducerInv, Slot, Get32, MsgAt;
    ProducerUnmoved(m, ConsumerStep(m).0);
    ChainHead(m.mem, m.n, m.read, m.written);
  }

  lemma {:induction false} IdleAdvances(m: Machine)
    requires Inv(m) && (m.cons.Waiting? || m.cons.Loaded?)
    ensures Advances(m, ConsumerStep(m).0, ConsumerStep(m).1)
  {
    hide Slot, SizeOf, ProducerInv;
    ProducerUnmoved(m, ConsumerStep(m).0);
  }

  lemma {:induction false} ConsumerAdvances(m: Machine)
    requires Inv(m)
    ensures Advances(m, ConsumerStep(m).0, ConsumerStep(m).1)
  {
    hide Inv, Contents, ConsumerStep;
    match m.cons
    case Waiting => IdleAdvances(m);
    case Loaded(_) => IdleAdvances(m);
    case Scan(_, _, _) => ScanAdvances(m);
    case Rewind(_, _, _) => RewindAdvances(m);
    case Holding(_, _) => HoldingAdvances(m);
    case Popping(_) => PoppingAdvances(m);
  }
}
