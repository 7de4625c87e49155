/** The block queue in the source's form: one object, updated in place.

    Each method is shown to take exactly the steps the machine takes when nobody else moves, so the
    invariant and the FIFO results about the machine are results about this code.
  */
module VarQueueObject {
  import opened Bits
  import opened Wrappers
  import opened RingIndex
  import opened VarQueue
  import opened VarQueueProofs
  import opened VarQueueTheorems
  import opened VarQueueWords

  /** What `try_alloc` returns: block offset of the header, payload capacity, total, block count. */
  datatype Allocation = Allocation(header: nat, capacity: nat, total: u32, blocks: u32)

  /** What `front` returns: byte offset of the header and the total size. */
  datatype Peek = Peek(header: nat, total: u32)

  /** The producer alone, from inside `try_alloc` to its return. */
  function Settle(m: Machine): Machine
    requires Shape(m)
    decreases Left(m.prod)
  {
    if m.prod.Refresh? || m.prod.Mark? || m.prod.Skip? || m.prod.Reserve? then
      Settle(ProducerStep(m).0)
    else m
  }

  // ----- runs of one side alone, as record updates -----

  lemma {:induction false} CommitSteps(m: Machine)
    requires Inv(m) && m.prod.Copy? && m.prod.k == |m.prod.msg.payload|
    ensures var a := Slot(m.prod.at, m.n) * BLOCK;
            var size := LE32(Wrap32(TotalBytes(|m.prod.msg.payload|)));
            var m' := m.(mem := Store(m.mem, a, size), written := m.writing, prod := Ready);
            && a + 4 <= |m.mem| && Shape(m) && Shape(m')
            && m' == ProducerStep(ProducerStep(m).0).0
            && Inv(m') && Contents(m') == Contents(m) + [m.prod.msg]
  {
    hide Chain, Parse, ConsumerInv, Slot, LE32, Store, Holds;
    PutSizeAdvances(m);
    PublishAdvances(ProducerStep(m).0);
  }

  /** The header fields but the size, written in the source's order. */
  function HeaderIn(m: Machine): (m': Machine)
    requires Shape(m) && m.prod.PutLevel?
    ensures Shape(m')
  {
    var msg, a := m.prod.msg, Slot(m.prod.at, m.n) * BLOCK;
    var level := Store(m.mem, a + 4, LE32(msg.level));
    var tsc := Store(level, a + 8, LE64(AsU64(msg.tsc)));
    m.(mem := Store(tsc, a + 16, LE64(msg.logFunc)), prod := Copy(msg, m.prod.at, 0))
  }

  lemma {:induction false} HeaderSteps(m: Machine)
    requires Inv(m) && m.prod.PutLevel?
    ensures Shape(m) && Slot(m.prod.at, m.n) * BLOCK + HEADER <= |m.mem|
    ensures HeaderIn(m) == ProducerStep(ProducerStep(ProducerStep(m).0).0).0
    ensures Inv(HeaderIn(m)) && Contents(HeaderIn(m)) == Contents(m)
  {
    hide Chain, Parse, Contents, ConsumerInv, Slot, LE32, LE64, Store, Holds, Placed, BlockCount;
    InsideRing(m);
    PutLevelAdvances(m);
    var m1 := ProducerStep(m).0;
    PutTscAdvances(m1);
    var m2 := ProducerStep(m1).0;
    PutFuncAdvances(m2);
  }

  lemma {:induction false} CopyStep(m: Machine)
    requires Inv(m) && m.prod.Copy? && m.prod.k < |m.prod.msg.payload|
    ensures var Copy(msg, at, k) := m.prod;
            var a := Slot(at, m.n) * BLOCK + HEADER + k;
            var m' := m.(mem := Store(m.mem, a, [msg.payload[k]]), prod := Copy(msg, at, k + 1));
            && a < |m.mem| && Shape(m) && Shape(m')
            && m' == ProducerStep(m).0
            && Inv(m') && Contents(m') == Contents(m)
  {
    hide Chain, Parse, Contents, ConsumerInv, Slot, Store, Holds;
    CopyByteAdvances(m);
  }

  lemma {:induction false} PopSteps(m: Machine)
    requires Inv(m) && m.cons.Holding?
    ensures var freed := DivCeil(SizeOf(m.mem, m.n, m.read), BLOCK);
            var m' := m.(read := m.read + freed, cons := Waiting);
            && Shape(m) && Shape(m')
            && m' == ConsumerStep(ConsumerStep(m).0).0
            && Inv(m') && Contents(m) != [] && Contents(m') == Contents(m)[1..]
  {
    hide Chain, Parse, Contents, ProducerInv, Slot, Get32, MsgAt;
    HoldingAdvances(m);
    PoppingAdvances(ConsumerStep(m).0);
  }

  /** One turn of the loop in `front` at a pad: rewind to the ring start. */
  lemma {:induction false} ScanPad(m: Machine)
    requires Inv(m) && m.cons.Scan? && SizeOf(m.mem, m.n, m.read) == 0
    ensures var Scan(r, w, rewinds) := m.cons;
            var next := r + (m.n - Slot(r, m.n));
            var m' := m.(read := next, cons := Scan(next, w, rewinds + 1));
            && Shape(m') && m' == ConsumerStep(ConsumerStep(m).0).0
            && Inv(m') && Contents(m') == Contents(m) && r < next < w
  {
    hide Chain, Parse, Contents, ProducerInv, Slot, Get32, MsgAt, FifoStep;
    HeadIsFront(m);
    var m1 := ConsumerStep(m).0;
    ScanAdvances(m);
    assert ConsumerStep(m).1 == [];
    assert m1.cons == VarQueue.Rewind(m.read + (m.n - Slot(m.read, m.n)), m.cons.w, m.cons.rewinds);
    RewindAdvances(m1);
    QuietStep(m, m1);
    QuietStep(m1, ConsumerStep(m1).0);
  }

  lemma QuietStep(m: Machine, m': Machine)
    requires Shape(m) && Advances(m, m', [])
    ensures Inv(m') && Contents(m') == Contents(m)
  {
  }

  /** One turn of the loop in `front` at a message: it is the front message. */
  lemma {:induction false} ScanMessage(m: Machine)
    requires Inv(m) && m.cons.Scan? && SizeOf(m.mem, m.n, m.read) != 0
    ensures var size := SizeOf(m.mem, m.n, m.read);
            var m' := m.(cons := Holding(m.cons.r, size));
            && Shape(m') && m' == ConsumerStep(m).0
            && Inv(m') && Contents(m') == Contents(m) != []
            && MsgOf(m.mem, m.n, m.read) == Contents(m)[0]
            && size == TotalBytes(|Contents(m)[0].payload|)
  {
    HeadIsFront(m);
    hide Chain, Parse, Contents, ProducerInv, Slot, Get32, MsgAt;
    ScanAdvances(m);
  }

  lemma ScanReads(m: Machine)
    requires Inv(m) && m.cons.Scan?
    ensures Shape(m) && m.cons.r == m.read
  {
  }

  lemma {:induction false} FrontStarts(m: Machine)
    requires Inv(m) && m.cons.Waiting?
    ensures Shape(m)
    ensures m.read == m.written ==> Contents(m) == []
    ensures m.read != m.written ==>
              var m' := m.(cons := Scan(m.read, m.written, 0));
              Inv(m') && Contents(m') == Contents(m) && m.read < m.written
  {
    hide Slot, SizeOf, ProducerInv;
    IdleAdvances(m);
    IdleAdvances(ConsumerStep(m).0);
  }

  /** At most a lap of the ring is published, so equal words are equal positions. */
  lemma {:induction false} FrontApart(m: Machine)
    requires Inv(m) && m.cons.Waiting?
    ensures m.written - m.read <= m.n <= TWO_31
    ensures Wrap32(m.read) == Wrap32(m.written) <==> m.read == m.written
  {
    hide Chain, ProducerInv, ConsumerInv, Wrap32;
    WrapEqual(m.read, m.written);
  }

  /** What a scanning consumer sees at `read` is the front message or the pad before it. */
  lemma {:induction false} HeadIsFront(m: Machine)
    requires Inv(m) && m.cons.Scan?
    ensures Contents(m) != []
    ensures SizeOf(m.mem, m.n, m.read) != 0 ==>
              MsgOf(m.mem, m.n, m.read) == Contents(m)[0] &&
              SizeOf(m.mem, m.n, m.read) == TotalBytes(|Contents(m)[0].payload|)
    ensures SizeOf(m.mem, m.n, m.read) == 0 ==> m.read + (m.n - Slot(m.read, m.n)) < m.cons.w
  {
    hide Slot, ProducerInv, Get32, Get64;
    ChainHead(m.mem, m.n, m.read, m.cons.w);
    ChainHead(m.mem, m.n, m.read, m.written);
    if SizeOf(m.mem, m.n, m.read) == 0 {
      var next := m.read + (m.n - Slot(m.read, m.n));
      PadThenMessage(m.mem, m.n, next, m.written);
    }
  }

  /** The fields of a held message are plain reads of memory inside the ring. */
  lemma {:induction false} HeldFields(m: Machine)
    requires Inv(m) && m.cons.Holding?
    ensures var a, size := Slot(m.read, m.n) * BLOCK, m.cons.size;
            && Shape(m) && HEADER <= size && a + size <= |m.mem|
            && MsgOf(m.mem, m.n, m.read) ==
               Msg(Get32(m.mem, a + 4), AsI64(Get64(m.mem, a + 8)), Get64(m.mem, a + 16),
                   m.mem[a + HEADER..a + size])
  {
    hide Slot, ProducerInv, Get32, Get64, Parse;
  }

  /** A consumer that stops while holding a message leaves the queue as it was. */
  lemma {:induction false} Abandon(m: Machine)
    requires Inv(m) && m.cons.Holding?
    ensures Inv(m.(cons := Waiting)) && Contents(m.(cons := Waiting)) == Contents(m)
  {
    hide Slot, Chain, Parse, ProducerInv;
    ProducerUnmoved(m, m.(cons := Waiting));
  }

  lemma {:induction false} PadThenMessage(mem: seq<byte>, n: nat, r: nat, w: nat)
    requires Ring(mem, n) && Chain(mem, n, r, w) && r < w && Slot(r, n) == 0
    ensures Parse(mem, n, r, w) != []
  {
    hide Slot, SizeOf, MsgOf;
  }

  lemma SettleOnce(m: Machine)
    requires Shape(m) && m.prod.Refresh?
    ensures Settle(m) == Settle(ProducerStep(m).0)
    ensures ProducerStep(m).0.prod.Ready? ==> Settle(m) == ProducerStep(m).0
  {
  }

  lemma StoreOne(before: seq<byte>, after: seq<byte>, at: nat, b: byte)
    requires at < |before| && after == before[at := b]
    ensures after == Store(before, at, [b])
  {
  }

  /** Running `try_alloc` alone ends at rest or with an allocation, publishes nothing, and an
      allocation lies inside the ring and holds header and payload. */
  lemma {:induction false} SettleAdvances(m: Machine, msg: Msg)
    requires Inv(m) && m.prod.Ready? && Trusted(m, msg)
    ensures var m' := Settle(Begin(m, msg).0);
            && Inv(m') && Contents(m') == Contents(m)
            && (m'.prod.Ready? || m'.prod.PutLevel?)
            && (m'.prod.PutLevel? ==> AllocationFits(m') && m'.prod.msg == msg)
    ensures Shape(m) && !m.fault && TotalBytes(|msg.payload|) < TWO_32
  {
    hide Chain, Parse, Slot, ConsumerInv, ProducerInv, Needed, Wrap32, AsI32;
    BeginAdvances(m, msg);
    RestAdvances(Begin(m, msg).0, msg);
  }

  predicate Allocating(prod: Producer, msg: Msg)
  {
    prod.Ready? ||
    ((prod.Refresh? || prod.Mark? || prod.Skip? || prod.Reserve? || prod.PutLevel?) &&
     prod.msg == msg)
  }

  function Left(p: Producer): nat
  {
    match p case Refresh(_) => 4 case Mark(_) => 3 case Skip(_) => 2 case Reserve(_, _) => 1 case _ => 0
  }

  lemma {:induction false} AllocatingStep(m: Machine, msg: Msg)
    requires m.n > 0 && Allocating(m.prod, msg) && Left(m.prod) > 0
    ensures var (m', now) := ProducerStep(m);
            && Allocating(m'.prod, msg) && RetryOk(m') && Left(m'.prod) < Left(m.prod)
            && (now == [] || now == [Rejected(msg)])
  {
    hide GuardFails, Rewinds, BlockCount, PadBlocks, Put, LE32, Slot;
  }

  lemma {:induction false} RestAdvances(m: Machine, msg: Msg)
    requires Inv(m) && Allocating(m.prod, msg) && RetryOk(m)
    ensures var m' := Settle(m);
            && Inv(m') && Contents(m') == Contents(m)
            && (m'.prod.Ready? || m'.prod.PutLevel?)
            && (m'.prod.PutLevel? ==> AllocationFits(m') && m'.prod.msg == msg)
    decreases Left(m.prod)
  {
    assert Shape(m);
    hide Inv, Contents, ProducerStep, AllocationFits, RetryOk;
    if m.prod.PutLevel? {
      InsideRing(m);
    }
    if m.prod.Refresh? || m.prod.Mark? || m.prod.Skip? || m.prod.Reserve? {
      ProducerAdvances(m);
      AllocatingStep(m, msg);
      RestAdvances(ProducerStep(m).0, msg);
    }
  }

  predicate AllocationFits(m: Machine)
    requires m.n > 0 && m.prod.PutLevel?
  {
    var len := |m.prod.msg.payload|;
    && TotalBytes(len) < TWO_32
    && TotalBytes(len) <= BlockCount(len) * BLOCK
    && Slot(m.prod.at, m.n) * BLOCK + BlockCount(len) * BLOCK <= |m.mem|
  }

  lemma {:induction false} InsideRing(m: Machine)
    requires Inv(m) && m.prod.PutLevel?
    ensures AllocationFits(m)
  {
    hide Chain, Parse, ConsumerInv, Slot;
    NeededExact(m.n, m.prod.at, |m.prod.msg.payload|);
  }

  lemma CacheKeepsQueue(m: Machine)
    requires Shape(m)
    ensures Contents(m.(cache := m.read)) == Contents(m)
  {
  }

  lemma TrustedSize(m: Machine, msg: Msg)
    requires m.n > 0 && Trusted(m, msg)
    ensures TotalBytes(|msg.payload|) < TWO_32
  {
  }

  class SpscVarQueueOpt {
    const n: nat
    const blk: array<byte>
    var writingIdx: u32
    var writtenIdx: u32
    var readIdx: u32
    var readIdxCache: u32
    // The positions those words stand for.
    ghost var writing: nat
    ghost var written: nat
    ghost var read: nat
    ghost var cache: nat

    ghost function View(prod: Producer, cons: Consumer): Machine
      reads this, blk
    {
      Machine(n, false, blk[..], writing, written, read, cache, prod, cons, false)
    }

    /** The words hold the positions, wrapped, and the ring divides the word. */
    ghost predicate Stored()
      reads this
    {
      && IsPow2(n) && n <= TWO_31
      && writingIdx == Wrap32(writing) && writtenIdx == Wrap32(written)
      && readIdx == Wrap32(read) && readIdxCache == Wrap32(cache)
    }

    /** Between operations: the machine's invariant with both sides at rest. */
    ghost predicate Valid()
      reads this, blk
    {
      Stored() && Inv(View(Ready, Waiting))
    }

    /** The messages published and not yet popped, oldest first. */
    ghost function Queue(): seq<Msg>
      requires Valid()
      reads this, blk
    {
      Contents(View(Ready, Waiting))
    }

    constructor (blkCnt: nat)
      requires IsPow2(blkCnt) && blkCnt <= TWO_31
      ensures Valid() && Queue() == [] && n == blkCnt && fresh(blk) && blk.Length == 64 * blkCnt
    {
      n := blkCnt;
      blk := new byte[blkCnt * BLOCK](_ => 0);
      writingIdx, writtenIdx, readIdx, readIdxCache := 0, 0, 0, 0;
      writing, written, read, cache := 0, 0, 0, 0;
      new;
      assert blk[..] == Init(n, false).mem;
      InitInv(n);
    }

    /** The slot of the position a word stands for. */
    method Offset(i: u32, ghost position: nat) returns (s: nat)
      requires IsPow2(n) && n <= TWO_31 && i == Wrap32(position)
      ensures s == Slot(position, n) < n
    {
      MaskIsSlot(i, n);
      WrapKeepsSlot(position, n);
      s := BitAnd(i, n - 1);
    }

    /** A volatile store of a few bytes. */
    method Write(at: nat, bytes: seq<byte>)
      requires at + |bytes| <= blk.Length
      modifies blk
      ensures blk[..] == Store(old(blk[..]), at, bytes)
    {
      for k := 0 to |bytes|
        invariant forall i :: 0 <= i < blk.Length ==>
          blk[i] == if at <= i < at + k then bytes[i - at] else old(blk[i])
      {
        blk[at + k] := bytes[k];
      }
    }

    method ReadSize(at: nat) returns (size: u32)
      requires at + 4 <= blk.Length
      ensures size == Get32(blk[..], at)
    {
      size := blk[at] as int + 0x100 * blk[at + 1] as int + 0x1_0000 * blk[at + 2] as int
              + 0x100_0000 * blk[at + 3] as int;
    }

    lemma ValidView()
      requires Valid()
      ensures Shape(View(Ready, Waiting)) && !View(Ready, Waiting).fault && n > 0
    {
    }

    /** The size arithmetic of `try_alloc`, on the stored words. */
    method Measure(len: nat) returns (blkSz: u32, pad: int, rewind: bool, minReadIdx: u32)
      requires Stored() && TotalBytes(len) < TWO_32
      ensures blkSz == BlockCount(len) && TotalBytes(len) <= blkSz * BLOCK
      ensures pad == PadBlocks(n, writing) && rewind == Rewinds(n, writing, len)
      ensures minReadIdx == MinReadIdx(n, writing, len)
    {
      hide IsPow2, Slot, BitAnd;
      var totalBytes := len + HEADER;
      blkSz := Wrap32(DivCeil(totalBytes, BLOCK));
      assert blkSz == BlockCount(len) && totalBytes <= blkSz * BLOCK;
      hide BlockCount, DivCeil, Wrap32;
      var offset := Offset(writingIdx, writing);
      pad := n - offset;
      rewind := blkSz > pad;
      var needed := Wrap32(blkSz + if rewind then pad else 0);
      minReadIdx := Wrap32(Wrap32(writingIdx + needed) - n);
      WrapSum(writing, needed);
    }

    /** The part of `try_alloc` after the guard: mark and skip a pad if needed, then reserve. */
    method Place(len: nat, ghost msg: Msg, pad: int, rewind: bool, blkSz: u32)
      returns (slot: Allocation, ghost at: nat)
      requires Shape(View(Ready, Waiting)) && Stored() && |msg.payload| == len
      requires TotalBytes(len) < TWO_32 && TotalBytes(len) <= blkSz * BLOCK
      requires blkSz == BlockCount(len) && pad == PadBlocks(n, writing)
      requires rewind == Rewinds(n, writing, len)
      modifies this`writingIdx, this`writing, blk
      ensures Stored()
      ensures View(PutLevel(msg, at), Waiting) == Settle(PassGuard(old(View(Ready, Waiting)), msg))
      ensures slot == Allocation(Slot(at, n) * BLOCK, blkSz * BLOCK - HEADER, len + HEADER, blkSz)
    {
      hide Slot, LE32, Store, BitAnd, BlockCount, Rewinds, PadBlocks, Wrap32, DivCeil;
      ghost var m := PassGuard(View(Ready, Waiting), msg);
      ghost var goal := Settle(m);
      var writeIdx := writingIdx;
      if rewind {
        m := ProducerStep(m).0;
        assert goal == Settle(m);
        var offset := Offset(writeIdx, writing);
        Write(offset * BLOCK, LE32(0));
        assert m == View(Skip(msg), Waiting);
        m := ProducerStep(m).0;
        assert goal == Settle(m);
        WrapSum(writing, pad);
        writeIdx := Wrap32(writeIdx + pad);
        writingIdx, writing := writeIdx, writing + pad;
      }
      assert m == View(VarQueue.Reserve(msg, writing), Waiting);
      at := writing;
      var header := Offset(writeIdx, at);
      WrapSum(at, blkSz);
      var newWrite: u32 := Wrap32(writeIdx + blkSz);
      writingIdx, writing := newWrite, at + blkSz;
      m := ProducerStep(m).0;
      assert goal == Settle(m) == m;
      assert View(PutLevel(msg, at), Waiting) == m;
      slot := Allocation(header * BLOCK, blkSz * BLOCK - HEADER, len + HEADER, blkSz);
    }

    /** `at` is the index the allocation was made at. Whatever the guard decides, the call takes the
        machine's steps; where the guard cannot be fooled the allocation has room. */
    method TryAlloc(len: nat, ghost msg: Msg) returns (slot: Option<Allocation>, ghost at: nat)
      requires Valid() && |msg.payload| == len && Representable(msg)
      modifies this`readIdxCache, this`cache, this`writingIdx, this`writing, blk
      ensures Stored() && (slot.Some? <==> old(Accepts(View(Ready, Waiting), msg)))
      ensures slot.None? ==>
                writing == old(writing) && blk[..] == old(blk[..]) &&
                Valid() && Queue() == old(Queue())
      ensures slot.Some? ==>
                View(PutLevel(msg, at), Waiting) == Settle(Begin(old(View(Ready, Waiting)), msg).0) &&
                slot.value.header == Slot(at, n) * BLOCK && slot.value.total == len + HEADER &&
                slot.value.blocks == BlockCount(len) &&
                slot.value.capacity + HEADER == slot.value.blocks * BLOCK && len <= slot.value.capacity
      ensures slot.Some? && old(Trusted(View(Ready, Waiting), msg)) ==>
                Inv(View(PutLevel(msg, at), Waiting)) &&
                Contents(View(PutLevel(msg, at), Waiting)) == old(Queue()) &&
                slot.value.header + HEADER + len <= blk.Length
    {
      ghost var m0 := View(Ready, Waiting);
      hide Inv, Contents, Slot, BitAnd, Trusted, IsPow2;
      ValidView();
      if Trusted(m0, msg) {
        SettleAdvances(m0, msg);
      }
      at := 0;
      hide BlockCount, Wrap32, MinReadIdx, Rewinds, PadBlocks, Needed, AsI32, Settle;
      var blkSz, pad, rewind, minReadIdx := Measure(len);
      ghost var m := Begin(m0, msg).0;
      if AsI32(readIdxCache) < AsI32(minReadIdx) {
        SettleOnce(m);
        var latest := readIdx;
        readIdxCache, cache := latest, read;
        if AsI32(latest) < AsI32(minReadIdx) {
          assert View(Ready, Waiting) == m0.(cache := read);
          CacheRefreshed(m0);
          CacheKeepsQueue(m0);
          return None, 0;
        }
      }
      var place;
      place, at := Place(len, msg, pad, rewind, blkSz);
      slot := Some(place);
    }

    /** The size goes in last, then the reservation is published. */
    method Commit(header: nat, total: u32, ghost msg: Msg, ghost at: nat)
      requires Inv(View(Copy(msg, at, |msg.payload|), Waiting)) && Stored()
      requires header == Slot(at, n) * BLOCK && total == Wrap32(TotalBytes(|msg.payload|))
      modifies this`writtenIdx, this`written, blk
      ensures Valid() && Queue() == old(Contents(View(Copy(msg, at, |msg.payload|), Waiting))) + [msg]
    {
      hide Inv, Contents, Slot, LE32, Store, ProducerStep;
      CommitSteps(View(Copy(msg, at, |msg.payload|), Waiting));
      Write(header, LE32(total));
      var w := writingIdx;
      writtenIdx, written := w, writing;
    }

    /** The header fields but the size, in the source's order. */
    method WriteHeader(header: nat, msg: Msg, ghost at: nat)
      requires Inv(View(PutLevel(msg, at), Waiting)) && Shape(View(Ready, Waiting))
      requires header == Slot(at, n) * BLOCK
      modifies blk
      ensures Inv(View(Copy(msg, at, 0), Waiting))
      ensures Contents(View(Copy(msg, at, 0), Waiting)) == old(Contents(View(PutLevel(msg, at), Waiting)))
    {
      hide Inv, Contents, Slot, LE32, LE64, Store, ProducerStep, AsU64;
      HeaderSteps(View(PutLevel(msg, at), Waiting));
      Write(header + 4, LE32(msg.level));
      Write(header + 8, LE64(AsU64(msg.tsc)));
      Write(header + 16, LE64(msg.logFunc));
    }

    /** `copy_nonoverlapping`, byte by byte. */
    method CopyPayload(args: seq<byte>, payload: nat, ghost msg: Msg, ghost at: nat)
      requires Inv(View(Copy(msg, at, 0), Waiting)) && Shape(View(Ready, Waiting))
      requires msg.payload == args
      requires payload == Slot(at, n) * BLOCK + HEADER && payload + |args| <= blk.Length
      modifies blk
      ensures Inv(View(Copy(msg, at, |args|), Waiting))
      ensures Contents(View(Copy(msg, at, |args|), Waiting)) == old(Contents(View(Copy(msg, at, 0), Waiting)))
    {
      hide Inv, Contents, Slot, Store, ProducerStep;
      for k := 0 to |args|
        invariant Inv(View(Copy(msg, at, k), Waiting))
        invariant Contents(View(Copy(msg, at, k), Waiting)) == old(Contents(View(Copy(msg, at, 0), Waiting)))
      {
        CopyStep(View(Copy(msg, at, k), Waiting));
        ghost var was := blk[..];
        blk[payload + k] := args[k];
        StoreOne(was, blk[..], payload + k, args[k]);
      }
    }

    /** One log call. It succeeds exactly when its blocks fit behind the consumer and the guard can
        tell, and then the message, with every field and byte, is last in the queue. */
    method PublishArgs(level: u32, tsc: i64, logFunc: u64, args: seq<byte>) returns (ok: bool)
      requires Valid() && Trusted(View(Ready, Waiting), Msg(level, tsc, logFunc, args))
      modifies this`readIdxCache, this`writingIdx, this`writtenIdx, this`cache, this`writing, this`written, blk
      ensures Valid()
      ensures ok <==> old(Admits(View(Ready, Waiting), |args|))
      ensures ok ==> old(Least(View(Ready, Waiting), |args|)) <= read
      ensures ok <== old(Least(View(Ready, Waiting), |args|)) <= read &&
                     Window(read) == Window(old(Least(View(Ready, Waiting), |args|)))
      ensures Queue() == old(Queue()) + if ok then [Msg(level, tsc, logFunc, args)] else []
      ensures !ok ==> writing == old(writing) && written == old(written) && blk[..] == old(blk[..])
    {
      var msg := Msg(level, tsc, logFunc, args);
      hide Inv, Contents, Slot, LE32, LE64, Store, BlockCount, Admits, Trusted, Accepts, ProducerStep, Least, Window,
           Settle, Begin, AsU64;
      ValidView();
      TrustedSize(View(Ready, Waiting), msg);
      AcceptsExactly(View(Ready, Waiting), msg);
      AdmitsMeans(View(Ready, Waiting), msg);
      var len := |args|;
      var slot, at := TryAlloc(len, msg);
      if slot.None? {
        return false;
      }
      var header, payload := slot.value.header, slot.value.header + HEADER;
      WriteHeader(header, msg, at);
      CopyPayload(args, payload, msg, at);
      Commit(header, slot.value.total, msg, at);
      return true;
    }

    /** The front message, if any: where it is in memory, and that those bytes are it. */
    method Front() returns (front: Option<Peek>)
      requires Valid()
      modifies this`readIdx, this`read
      ensures front.None? <==> old(Queue()) == []
      ensures front.None? ==> Valid() && Queue() == [] && read == old(read)
      ensures front.Some? ==> Stored()
      ensures front.Some? ==>
                var held := View(Ready, Holding(read, front.value.total));
                && Inv(held) && Contents(held) == old(Queue())
                && front.value.header == Slot(read, n) * BLOCK
                && MsgOf(blk[..], n, read) == old(Queue())[0]
                && front.value.total == TotalBytes(|old(Queue())[0].payload|)
    {
      hide Inv, Contents, Slot, Get32, BitAnd, MsgAt, ConsumerStep, IsPow2, Wrap32;
      ghost var q := Queue();
      var r := readIdx;
      FrontStarts(View(Ready, Waiting));
      var w := writtenIdx;
      FrontApart(View(Ready, Waiting));
      if r == w {
        return None;
      }
      ghost var rewinds := 0;
      while true
        invariant Stored() && r == readIdx && w == writtenIdx
        invariant Inv(View(Ready, Scan(read, written, rewinds)))
        invariant Contents(View(Ready, Scan(read, written, rewinds))) == q
        invariant read < written
        decreases written - read
      {
        ghost var m := View(Ready, Scan(read, written, rewinds));
        ScanReads(m);
        var slot := Offset(r, read);
        var size := ReadSize(slot * BLOCK);
        if size == 0 {
          ScanPad(m);
          var pad := n - slot;
          WrapSum(read, pad);
          r := Wrap32(r + pad);
          readIdx, read := r, read + pad;
          WrapEqual(read, written);
          if r == w {
            assert false;
          }
          rewinds := rewinds + 1;
          continue;
        }
        ScanMessage(m);
        return Some(Peek(slot * BLOCK, size));
      }
    }

    /** Frees the blocks of the message `front` returned, and only those. */
    method Pop(ghost total: u32)
      requires Inv(View(Ready, Holding(read, total))) && Stored()
      modifies this`readIdx, this`read
      ensures Valid()
      ensures old(Contents(View(Ready, Holding(read, total)))) != []
      ensures Queue() == old(Contents(View(Ready, Holding(read, total))))[1..]
    {
      hide Inv, Contents, Slot, Get32, BitAnd, MsgAt, ConsumerStep;
      PopSteps(View(Ready, Holding(read, total)));
      var r := readIdx;
      var slot := Offset(r, read);
      var size := ReadSize(slot * BLOCK);
      var blkSz := DivCeil(size, BLOCK);
      WrapSum(read, blkSz);
      readIdx, read := Wrap32(r + blkSz), read + blkSz;
    }
  }
}
