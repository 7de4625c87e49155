/** What an accepted call without room does: on every ring, at every index, for every message length
    and every position of the consumer, some message of that length and some continuation break the
    queue. So the condition under which the queue is proved right is exact.
  */
module VarQueueOverrun {
  import opened Bits
  import opened RingIndex
  import opened VarQueue
  import opened VarQueueProofs
  import opened VarQueueTheorems
  import opened VarQueueWords
  import opened VarQueueRuns

  // ----- what counts as broken -----

  /** What a run from m must be: no store outside the ring, no false end, and what is popped is what
      was queued and then committed, in order. */
  predicate Kept(m: Machine, run: (Machine, seq<Event>))
    requires Shape(m)
  {
    !run.0.fault && FalseEmpty !in run.1 && PopsOf(run.1) <= Contents(m) + CommitsOf(run.1)
  }

  /** From m with the call past the guard, the schedule breaks the queue. */
  predicate Ruins(m: Machine, msg: Msg, s: seq<Action>)
    requires Shape(m)
  {
    var p := PassGuard(m, msg);
    RunOk(p, s) && RunNear(p, s) && !Kept(m, Run(p, s))
  }

  lemma {:induction false} PopOne(y: Msg)
    ensures CommitsOf([Popped(y)]) == [] && PopsOf([Popped(y)]) == [y]
  {
    assert [Popped(y)][1..] == [];
  }

  lemma Reassociate(a: seq<Msg>, b: seq<Msg>, c: seq<Msg>)
    ensures a + b + c == a + (b + c)
  {
  }

  lemma {:induction false} TraceConcat(s: seq<Event>, t: seq<Event>)
    ensures CommitsOf(s + t) == CommitsOf(s) + CommitsOf(t)
    ensures PopsOf(s + t) == PopsOf(s) + PopsOf(t)
  {
    if s == [] {
      assert s + t == t;
    } else {
      TraceConcat(s[1..], t);
      assert [s[0]] + (s[1..] + t) == s + t && [s[0]] + s[1..] == s;
      hide CommitsOf, PopsOf;
      TraceSplit([s[0]], s[1..] + t);
      TraceSplit([s[0]], s[1..]);
      Reassociate(CommitsOf([s[0]]), CommitsOf(s[1..]), CommitsOf(t));
      Reassociate(PopsOf([s[0]]), PopsOf(s[1..]), PopsOf(t));
    }
  }

  /** Popping something other than the head breaks the queue. */
  lemma {:induction false} WrongPop(m: Machine, msg: Msg, s: seq<Action>, m': Machine, t: seq<Event>,
                                    q: seq<Msg>, y: Msg)
    requires Shape(m) && Goes(PassGuard(m, msg), s, m', t + [Popped(y)])
    requires Contents(m) + CommitsOf(t) == PopsOf(t) + q && (q == [] || q[0] != y)
    ensures Ruins(m, msg, s)
  {
    hide Contents, RunOk, RunNear, Run, PassGuard;
    TraceConcat(t, [Popped(y)]);
    PopOne(y);
    var pops, all := PopsOf(t) + [y], PopsOf(t) + q;
    assert CommitsOf(t) + [] == CommitsOf(t);
    assert pops[|PopsOf(t)|] == y && (q != [] ==> all[|PopsOf(t)|] == q[0]);
  }

  // ----- the producer up to a chosen byte -----

  lemma {:induction false} ToLevel(m: Machine, msg: Msg) returns (s: seq<Action>, m': Machine)
    requires Shape(m) && !m.wraps && Near(m)
    ensures var at := At(m, |msg.payload|);
            && Goes(PassGuard(m, msg), s, m', [])
            && m' == Reserved(m, msg).(mem := m'.mem, prod := PutTsc(msg, at))
            && m'.mem == Store(Marked(m, |msg.payload|), Slot(at, m.n) * BLOCK + 4, LE32(msg.level))
  {
    hide Slot, LE32, Store, Goes, BlockCount, Rewinds, PadBlocks;
    s := PlaceRun(m, msg);
    var m2 := Reserved(m, msg);
    LevelRun(m2);
    var a := Slot(m2.prod.at, m.n) * BLOCK;
    m' := m2.(mem := Store(m2.mem, a + 4, LE32(msg.level)), prod := PutTsc(msg, m2.prod.at));
    GoesThen(PassGuard(m, msg), s, m2, [Produce], m', []);
    s := s + [Produce];
  }

  /** Header in, `upto` bytes of payload in, the rest of the ring as it was but for a pad's marker. */
  lemma {:induction false} ToCopy(m: Machine, msg: Msg, upto: nat) returns (s: seq<Action>, m': Machine)
    requires Shape(m) && !m.wraps && Near(m) && upto <= |msg.payload|
    requires Slot(At(m, |msg.payload|), m.n) * BLOCK + HEADER + upto <= |m.mem|
    ensures var at := At(m, |msg.payload|);
            var a := Slot(at, m.n) * BLOCK;
            && Goes(PassGuard(m, msg), s, m', [])
            && m' == Reserved(m, msg).(mem := m'.mem, prod := Copy(msg, at, upto))
            && Only(Marked(m, |msg.payload|), m'.mem, a + 4, a + HEADER + upto)
            && Holds(m'.mem, a + 4, LE32(msg.level))
            && forall i :: 0 <= i < upto ==> m'.mem[a + HEADER + i] == msg.payload[i]
  {
    hide Slot, LE32, Goes, BlockCount, Rewinds, PadBlocks, Marked, Reserved;
    var at := At(m, |msg.payload|);
    var a := Slot(at, m.n) * BLOCK;
    var m1, m2, s1, s2;
    s1, m1 := ToLevel(m, msg);
    ReservedIs(m, msg);
    HoldsStored(Marked(m, |msg.payload|), a + 4, LE32(msg.level));
    m2 := HeaderRun(m1);
    s2, m' := CopyRun(m2, upto);
    GoesThen(PassGuard(m, msg), s1, m1, [Produce, Produce], m2, []);
    GoesThen(PassGuard(m, msg), s1 + [Produce, Produce], m2, s2, m', []);
    s := s1 + [Produce, Produce] + s2;
  }

  lemma ReservedIs(m: Machine, msg: Msg)
    requires m.n > 0
    ensures Reserved(m, msg) == m.(mem := Marked(m, |msg.payload|), writing := Reserved(m, msg).writing,
                                   prod := PutLevel(msg, At(m, |msg.payload|)))
  {
  }

  // ----- changing one byte of a size field -----

  lemma SizeNudged(mem: seq<byte>, mem': seq<byte>, b: nat)
    requires (b + 1) * BLOCK <= |mem| == |mem'|
    requires mem'[b * BLOCK + 1..b * BLOCK + 4] == mem[b * BLOCK + 1..b * BLOCK + 4]
    ensures SizeField(mem', b) - mem'[b * BLOCK] == SizeField(mem, b) - mem[b * BLOCK]
    ensures SizeField(mem, b) == 0 ==> mem[b * BLOCK] == 0
  {
    var z := b * BLOCK;
    var tail := mem'[z + 1..z + 4];
    assert tail[0] == mem[z + 1] && tail[1] == mem[z + 2] && tail[2] == mem[z + 3];
  }

  function Nudge(x: byte): byte { if x == 255 then 254 else x + 1 }

  /** Any other low byte of the size of a message in place makes it read as another message. */
  lemma {:induction false} NudgedDiffers(mem: seq<byte>, mem': seq<byte>, b: nat)
    requires (b + 1) * BLOCK <= |mem| == |mem'|
    requires mem'[b * BLOCK + 1..b * BLOCK + 4] == mem[b * BLOCK + 1..b * BLOCK + 4]
    requires mem'[b * BLOCK] == Nudge(mem[b * BLOCK])
    requires HEADER <= SizeField(mem, b) && b * BLOCK + SizeField(mem, b) <= |mem|
    ensures MsgAt(mem', b) != MsgAt(mem, b)
  {
    SizeNudged(mem, mem', b);
    SizeBytes(mem, b);
    hide Get64, Get32;
    assert |MsgAt(mem, b).payload| == SizeField(mem, b) - HEADER;
    assert |MsgAt(mem', b).payload| != SizeField(mem, b) - HEADER;
  }

  lemma SizeBytes(mem: seq<byte>, b: nat)
    requires (b + 1) * BLOCK <= |mem|
    ensures SizeField(mem, b) == HEADER ==> mem[b * BLOCK] == HEADER
  {
  }

  function OtherLevel(level: u32): u32 { if level == 0 then 1 else 0 }

  // ----- the cases -----

  /** The call has no room: its blocks reach past one lap of the first unread position u. */
  predicate Covers(m: Machine, len: nat, u: nat)
    requires m.n > 0
  {
    var at, k := At(m, len), BlockCount(len);
    at <= u + m.n < at + k && Slot(at, m.n) + k <= m.n
  }

  /** Where in the reservation block u lies, and that its first byte is a byte of the message. */
  lemma {:induction false} CoveredBlock(m: Machine, len: nat, u: nat)
    requires Shape(m) && TotalBytes(len) < TWO_32 && Covers(m, len, u)
    ensures var d := u + m.n - At(m, len);
            && Slot(u, m.n) == Slot(At(m, len), m.n) + d
            && d * BLOCK < TotalBytes(len) <= BlockCount(len) * BLOCK
  {
    hide Slot, At;
    SlotNextLap(u, m.n);
    SlotAdd(At(m, len), u + m.n - At(m, len), m.n);
    NeededExact(m.n, m.writing, len);
  }

  lemma {:induction false} SlotNextLap(i: nat, n: nat)
    requires n > 0
    ensures Slot(i + n, n) == Slot(i, n)
  {
  }

  /** Past the header, the call changes just one byte of block u by then: the first. */
  lemma {:induction false} StrikeByte(m: Machine, len: nat, u: nat, low: byte)
      returns (msg: Msg, s: seq<Action>, m': Machine)
    requires Shape(m) && !m.wraps && Near(m) && TotalBytes(len) < TWO_32 && Covers(m, len, u)
    requires At(m, len) < u + m.n
    requires Rewinds(m.n, m.writing, len) ==> Slot(m.writing, m.n) != Slot(u, m.n)
    ensures |msg.payload| == len && Goes(PassGuard(m, msg), s, m', [])
    ensures m' == m.(mem := m'.mem, writing := m'.writing, prod := m'.prod) && |m'.mem| == |m.mem|
    ensures var z := Slot(u, m.n) * BLOCK;
            m'.mem[z] == low && m'.mem[z + 1..z + 4] == m.mem[z + 1..z + 4]
  {
    hide Slot, LE32, Goes, BlockCount, Rewinds, PadBlocks, At, Reserved, Marked, PassGuard, Holds, Covers;
    AtMost(m, len, u);
    var d := u + m.n - At(m, len);
    CoveredBlock(m, len, u);
    var k := d * BLOCK - HEADER;
    msg := Msg(0, 0, 0, seq(len, i => if i == k then low else 0));
    s, m' := ToCopy(m, msg, k + 1);
    ReservedIs(m, msg);
    MarkedOnly(m, len);
    var z := Slot(u, m.n) * BLOCK;
    assert m'.mem[z] == msg.payload[k];
  }

  lemma MarkedOnly(m: Machine, len: nat)
    requires Shape(m)
    ensures !Rewinds(m.n, m.writing, len) ==> Marked(m, len) == m.mem
    ensures var z := Slot(m.writing, m.n) * BLOCK; Only(m.mem, Marked(m, len), z, z + 4)
  {
  }

  /** A marker the call writes is not in a covered unread block. */
  lemma {:induction false} MarkerElsewhere(m: Machine, len: nat, u: nat)
    requires Shape(m) && u < m.writing && Covers(m, len, u)
    ensures Rewinds(m.n, m.writing, len) ==> Slot(m.writing, m.n) != Slot(u, m.n)
  {
    hide Slot, Rewinds, PadBlocks, BlockCount;
    PadPositive(m.n, m.writing);
    if Rewinds(m.n, m.writing, len) {
      SlotDistinct(u, m.writing, m.n);
    }
  }

  lemma {:induction false} HeldHead(m: Machine, q: nat)
    requires Inv(m) && Arrived(m, q)
    ensures q < m.written <= m.writing && Near(m) && Shape(m) && !m.wraps
    ensures Contents(m) != [] && Contents(m)[0] == MsgOf(m.mem, m.n, q)
    ensures HEADER <= SizeOf(m.mem, m.n, q)
    ensures Slot(q, m.n) * BLOCK + SizeOf(m.mem, m.n, q) <= |m.mem|
  {
    hide Parse, ProducerInv, Slot, Get32, MsgAt;
    ChainHead(m.mem, m.n, m.read, m.written);
  }

  lemma {:induction false} LevelStored(mem: seq<byte>, b: nat, level: u32)
    requires (b + 1) * BLOCK <= |mem| && Holds(mem, b * BLOCK + 4, LE32(level))
    ensures MsgAt(mem, b).level == level
  {
    hide LE32, Get64, Holds;
    Word32RoundTrip(mem, b * BLOCK + 4, level);
  }

  /** A call whose first block covers u stores its level there. */
  lemma {:induction false} StrikeLevel(m: Machine, msg: Msg, u: nat) returns (s: seq<Action>, m': Machine)
    requires Shape(m) && !m.wraps && Near(m) && At(m, |msg.payload|) == u + m.n
    ensures Goes(PassGuard(m, msg), s, m', [])
    ensures m' == m.(mem := m'.mem, writing := m'.writing, prod := m'.prod) && |m'.mem| == |m.mem|
    ensures MsgAt(m'.mem, Slot(u, m.n)).level == msg.level
  {
    hide Slot, LE32, Goes, BlockCount, Rewinds, PadBlocks, MsgAt, Marked, Store, At, Reserved, Holds, PassGuard, Near;
    SlotNextLap(u, m.n);
    s, m' := ToLevel(m, msg);
    ReservedIs(m, msg);
    HoldsStored(Marked(m, |msg.payload|), Slot(u, m.n) * BLOCK + 4, LE32(msg.level));
    LevelStored(m'.mem, Slot(u, m.n), msg.level);
  }

  /** A call whose blocks cover the message at u can make it read as another. */
  lemma {:induction false} Strike(m: Machine, len: nat, u: nat) returns (msg: Msg, s: seq<Action>, m': Machine)
    requires Shape(m) && !m.wraps && Near(m) && TotalBytes(len) < TWO_32 && Covers(m, len, u)
    requires Rewinds(m.n, m.writing, len) ==> Slot(m.writing, m.n) != Slot(u, m.n)
    requires HEADER <= SizeOf(m.mem, m.n, u) && Slot(u, m.n) * BLOCK + SizeOf(m.mem, m.n, u) <= |m.mem|
    ensures |msg.payload| == len && Goes(PassGuard(m, msg), s, m', [])
    ensures m' == m.(mem := m'.mem, writing := m'.writing, prod := m'.prod) && |m'.mem| == |m.mem|
    ensures MsgAt(m'.mem, Slot(u, m.n)) != MsgAt(m.mem, Slot(u, m.n))
  {
    hide Slot, Goes, Rewinds, BlockCount, MsgAt, SizeField, At;
    var b := Slot(u, m.n);
    if At(m, len) == u + m.n {
      msg := Msg(OtherLevel(MsgAt(m.mem, b).level), 0, 0, seq(len, _ => 0));
      s, m' := StrikeLevel(m, msg, u);
    } else {
      msg, s, m' := StrikeByte(m, len, u, Nudge(m.mem[b * BLOCK]));
      NudgedDiffers(m.mem, m'.mem, b);
    }
  }

  /** While a consumer holds the message at q, a call whose blocks cover q makes it pop another. */
  lemma {:induction false} StrikeHeld(m: Machine, len: nat, q: nat)
      returns (msg: Msg, s: seq<Action>, m': Machine, y: Msg)
    requires Inv(m) && Arrived(m, q) && TotalBytes(len) < TWO_32 && Covers(m, len, q)
    ensures |msg.payload| == len && Goes(PassGuard(m, msg), s, m', [Popped(y)])
    ensures Contents(m) != [] && y != Contents(m)[0]
  {
    HeldHead(m, q);
    MarkerElsewhere(m, len, q);
    hide Inv, Contents, Slot, Goes, Covers, Rewinds, MsgAt, SizeOf;
    var s1, s2, m1;
    msg, s1, m1 := Strike(m, len, q);
    s2, m' := PopRun(m1);
    y := MsgAt(m1.mem, Slot(q, m.n));
    GoesThen(PassGuard(m, msg), s1, m1, s2, m', [Popped(y)]);
    s := s1 + s2;
  }

  /** Whether a call passes, and where it goes, is the same wherever the consumer is. */
  lemma {:induction false} ReadMoves(m: Machine, m': Machine, msg: Msg, q: nat)
    requires m.n > 0 && m' == m.(read := m'.read, cons := m'.cons)
    ensures Covers(m, |msg.payload|, q) == Covers(m', |msg.payload|, q)
    ensures PassGuard(m', msg) == m'.(prod := PassGuard(m, msg).prod)
    ensures PassGuard(m, msg) == m.(prod := PassGuard(m, msg).prod)
  {
    hide Slot, Rewinds, BlockCount, PadBlocks;
  }

  lemma {:induction false} ApproachConserves(m: Machine, s: seq<Action>, m': Machine, t: seq<Event>)
    requires Inv(m) && Goes(m, s, m', t) && CommitsOf(t) == []
    ensures Shape(m) && Shape(m') && Contents(m) + CommitsOf(t) == PopsOf(t) + Contents(m')
  {
    hide Inv, Contents, CommitsOf, PopsOf, RunNear, RunOk, Run;
    RunRefines(m, s);
  }

  /** The same from further back: the consumer first comes to q, then the call does its work. */
  lemma {:induction false} StrikeAhead(m: Machine, len: nat, q: nat) returns (msg: Msg, s: seq<Action>)
    requires Inv(m) && Approaching(m, q) && TotalBytes(len) < TWO_32 && Covers(m, len, q)
    ensures Shape(m) && |msg.payload| == len && Ruins(m, msg, s)
  {
    assert Shape(m);
    hide Inv, Contents, Approaching, Arrived, Covers, Goes, Ruins, PassGuard, Hits;
    var s1, m1, t1 := Approach(m, q);
    ReadMoves(m, m1, Msg(0, 0, 0, seq(len, _ => 0)), q);
    var s2, m2, y;
    msg, s2, m2, y := StrikeHeld(m1, len, q);
    ApproachConserves(m, s1, m1, t1);
    ReadMoves(m, m1, msg, q);
    ConsumerBlind(m, s1, m1, t1, PassGuard(m, msg).prod);
    GoesConcat(PassGuard(m, msg), s1, PassGuard(m1, msg), t1, s2, m2, [Popped(y)]);
    WrongPop(m, msg, s1 + s2, m2, t1, Contents(m1), y);
    s := s1 + s2;
  }

  // ----- the pad at the head, the empty ring, the message larger than the ring -----

  /** The whole message in, its size last. */
  lemma {:induction false} FillRun(m: Machine, msg: Msg) returns (s: seq<Action>, m': Machine)
    requires Shape(m) && !m.wraps && Near(m) && Representable(msg)
    requires Slot(At(m, |msg.payload|), m.n) * BLOCK + TotalBytes(|msg.payload|) <= |m.mem|
    ensures var at := At(m, |msg.payload|);
            var a := Slot(at, m.n) * BLOCK;
            && Goes(PassGuard(m, msg), s, m', [])
            && m' == Reserved(m, msg).(mem := m'.mem, prod := Publish(msg, at))
            && Only(Marked(m, |msg.payload|), m'.mem, a, a + TotalBytes(|msg.payload|))
            && Holds(m'.mem, a, LE32(TotalBytes(|msg.payload|))) && Holds(m'.mem, a + 4, LE32(msg.level))
            && forall i :: 0 <= i < |msg.payload| ==> m'.mem[a + HEADER + i] == msg.payload[i]
  {
    hide Slot, LE32, Goes, BlockCount, Rewinds, PadBlocks, Marked, Reserved, At, PassGuard, Near;
    var s1, m1 := ToCopy(m, msg, |msg.payload|);
    ReservedIs(m, msg);
    NearKept(m, m1);
    SizeRun(m1);
    var a := Slot(At(m, |msg.payload|), m.n) * BLOCK;
    var size := LE32(TotalBytes(|msg.payload|));
    m' := m1.(mem := Store(m1.mem, a, size), prod := Publish(msg, m1.prod.at));
    HoldsStored(m1.mem, a, size);
    HoldsFrame(m1.mem, a + 4, LE32(msg.level), a, size);
    GoesThen(PassGuard(m, msg), s1, m1, [Produce], m', []);
    s := s1 + [Produce];
  }

  lemma NearKept(m: Machine, m': Machine)
    requires Near(m) && m'.cons == m.cons && m'.written == m.written
    ensures Near(m')
  {
  }

  function HeadOf(q: seq<Msg>): Msg { if q == [] then Msg(0, 0, 0, []) else q[0] }

  /** What the consumer will pop at u is not y. */
  lemma {:induction false} PopsWrong(m: Machine, msg: Msg, s: seq<Action>, m': Machine, y: Msg)
    requires Shape(m) && Goes(PassGuard(m, msg), s, m', [Popped(y)]) && y != HeadOf(Contents(m))
    ensures Ruins(m, msg, s)
  {
    hide Goes, Contents, Ruins, PassGuard;
    assert [] + [Popped(y)] == [Popped(y)];
    assert Contents(m) + [] == Contents(m) == [] + Contents(m);
    WrongPop(m, msg, s, m', [], Contents(m), y);
  }

  predicate Outside(m: Machine) { m.cons.Waiting? || ((m.cons.Loaded? || m.cons.Scan?) && m.cons.r == m.read) }

  lemma {:induction false} PayloadLength(mem: seq<byte>, b: nat)
    requires (b + 1) * BLOCK <= |mem| && HEADER <= SizeField(mem, b) <= BLOCK
    ensures |MsgAt(mem, b).payload| == SizeField(mem, b) - HEADER
  {
    hide Get32, Get64;
  }

  /** A pad at the head: the call covers its marker, and the consumer takes it for a message. */
  lemma {:induction false} StrikePadByte(m: Machine, len: nat) returns (msg: Msg, s: seq<Action>)
    requires Shape(m) && !m.wraps && Near(m) && Outside(m) && m.read < m.written <= m.writing
    requires m.written - m.read < TWO_32
    requires TotalBytes(len) < TWO_32 && Covers(m, len, m.read) && At(m, len) < m.read + m.n
    requires SizeOf(m.mem, m.n, m.read) == 0
    ensures |msg.payload| == len && Ruins(m, msg, s)
  {
    hide Slot, Goes, Contents, Ruins, MsgAt, SizeField, Near, At, Covers, PassGuard, Rewinds;
    MarkerElsewhere(m, len, m.read);
    var low := if |HeadOf(Contents(m)).payload| == 1 then HEADER + 2 else HEADER + 1;
    var s1, s2, m1, m2;
    msg, s1, m1 := StrikeByte(m, len, m.read, low);
    var b := Slot(m.read, m.n);
    SizeNudged(m.mem, m1.mem, b);
    PayloadLength(m1.mem, b);
    s2, m2 := SeeRun(m1);
    GoesThen(PassGuard(m, msg), s1, m1, s2, m2, [Popped(MsgAt(m1.mem, b))]);
    s := s1 + s2;
    PopsWrong(m, msg, s, m2, MsgAt(m1.mem, b));
  }

  lemma {:induction false} StrikePadHeader(m: Machine, len: nat) returns (msg: Msg, s: seq<Action>)
    requires Shape(m) && !m.wraps && Near(m) && Outside(m) && m.read < m.written
    requires m.written - m.read < TWO_32
    requires TotalBytes(len) < TWO_32 && Covers(m, len, m.read) && At(m, len) == m.read + m.n
    ensures |msg.payload| == len && Ruins(m, msg, s)
  {
    hide Slot, Goes, Contents, Ruins, MsgAt, Near, At, PassGuard, Rewinds, LE32, Holds, Reserved, BlockCount, Get32;
    CoveredBlock(m, len, m.read);
    msg := Msg(OtherLevel(HeadOf(Contents(m)).level), 0, 0, seq(len, _ => 0));
    var s1, m1 := FillRun(m, msg);
    ReservedIs(m, msg);
    var b := Slot(m.read, m.n);
    Word32RoundTrip(m1.mem, b * BLOCK, TotalBytes(len));
    LevelStored(m1.mem, b, msg.level);
    var s2, m2 := SeeRun(m1);
    GoesThen(PassGuard(m, msg), s1, m1, s2, m2, [Popped(MsgAt(m1.mem, b))]);
    s := s1 + s2;
    PopsWrong(m, msg, s, m2, MsgAt(m1.mem, b));
  }

  lemma SmallSize(mem: seq<byte>, b: nat, low: byte)
    requires (b + 1) * BLOCK <= |mem| && mem[b * BLOCK] == low
    requires mem[b * BLOCK + 1] == 0 && mem[b * BLOCK + 2] == 0 && mem[b * BLOCK + 3] == 0
    ensures SizeField(mem, b) == low
  {
  }

  lemma MarkerIsZero(m: Machine, len: nat)
    requires Shape(m) && Rewinds(m.n, m.writing, len)
    ensures var z := Slot(m.writing, m.n) * BLOCK;
            forall i :: z <= i < z + 4 ==> Marked(m, len)[i] == 0
  {
    hide Slot;
  }

  /** An empty ring: the message runs over its own marker, and its head is lost. */
  lemma {:induction false} EmptyFill(m: Machine, len: nat) returns (msg: Msg, s: seq<Action>, m': Machine)
    requires Shape(m) && !m.wraps && Near(m) && m.read == m.writing && TotalBytes(len) < TWO_32
    requires Covers(m, len, m.read) && Rewinds(m.n, m.writing, len) && Slot(m.read, m.n) > 0
    ensures |msg.payload| == len && Goes(PassGuard(m, msg), s, m', [])
    ensures m' == Reserved(m, msg).(mem := m'.mem, prod := Publish(msg, At(m, len))) && |m'.mem| == |m.mem|
    ensures SizeField(m'.mem, Slot(m.read, m.n)) == HEADER + 1 && len > 1
  {
    hide Slot, Goes, PassGuard, Rewinds, LE32, Holds, Reserved, BlockCount, Near, Marked, SizeField;
    CoveredBlock(m, len, m.read);
    SlotRewind(m.writing, m.n);
    var b := Slot(m.read, m.n);
    var k := b * BLOCK - HEADER;
    var low: byte := HEADER + 1;
    msg := Msg(0, 0, 0, seq(len, i => if i == k then low else 0));
    s, m' := FillRun(m, msg);
    MarkerIsZero(m, len);
    assert m'.mem[HEADER + k] == msg.payload[k];
    assert k + 1 < len ==> m'.mem[HEADER + (k + 1)] == msg.payload[k + 1];
    assert k + 2 < len ==> m'.mem[HEADER + (k + 2)] == msg.payload[k + 2];
    assert k + 3 < len ==> m'.mem[HEADER + (k + 3)] == msg.payload[k + 3];
    SmallSize(m'.mem, b, low);
  }

  lemma {:induction false} CommitOne(msg: Msg)
    ensures CommitsOf([Committed(msg)]) == [msg] && PopsOf([Committed(msg)]) == []
  {
    assert [Committed(msg)][1..] == [];
  }

  lemma {:induction false} StrikeEmpty(m: Machine, len: nat) returns (msg: Msg, s: seq<Action>)
    requires Shape(m) && !m.wraps && (m.cons.Waiting? || m.cons == Loaded(m.read))
    requires m.read == m.written == m.writing && TotalBytes(len) < TWO_32 && Contents(m) == []
    requires Covers(m, len, m.read) && Rewinds(m.n, m.writing, len) && Slot(m.read, m.n) > 0
    ensures |msg.payload| == len && Ruins(m, msg, s)
  {
    hide Slot, Goes, PassGuard, Rewinds, LE32, Contents, SizeField, MsgAt, Ruins, BlockCount, Marked;
    CoveredBlock(m, len, m.read);
    BlocksFew(len);
    PadPositive(m.n, m.writing);
    var b := Slot(m.read, m.n);
    var s1, s2, m1, m2, m3;
    msg, s1, m1 := EmptyFill(m, len);
    PublishRun(m1);
    m2 := m1.(written := m1.writing, prod := Ready);
    PayloadLength(m2.mem, b);
    s2, m3 := SeeRun(m2);
    var y := MsgAt(m2.mem, b);
    GoesThen(PassGuard(m, msg), s1, m1, [Produce], m2, [Committed(msg)]);
    GoesConcat(PassGuard(m, msg), s1 + [Produce], m2, [Committed(msg)], s2, m3, [Popped(y)]);
    CommitOne(msg);
    s := s1 + [Produce] + s2;
    WrongPop(m, msg, s, m3, [Committed(msg)], [msg], y);
  }

  /** A message of more blocks than the ring is copied past its end. */
  lemma {:induction false} StrikeOutside(m: Machine, len: nat) returns (msg: Msg, s: seq<Action>)
    requires Shape(m) && !m.wraps && Near(m) && TotalBytes(len) < TWO_32 && BlockCount(len) > m.n
    ensures |msg.payload| == len && Ruins(m, msg, s)
  {
    hide Slot, Goes, Contents, LE32, Reserved, Marked, PassGuard;
    NeededExact(m.n, m.writing, len);
    SlotRewind(m.writing, m.n);
    msg := Msg(0, 0, 0, seq(len, _ => 0));
    var upto := m.n * BLOCK - HEADER;
    assert upto < len;
    hide BlockCount;
    var s1, m1 := ToCopy(m, msg, upto);
    ReservedIs(m, msg);
    var m2 := Step(m1, Produce).0;
    assert m2 == m1.(fault := true, prod := Copy(msg, m1.prod.at, upto + 1)) && Step(m1, Produce).1 == [];
    GoesOnce(m1, Produce);
    GoesThen(PassGuard(m, msg), s1, m1, [Produce], m2, []);
    s := s1 + [Produce];
    FaultRuins(m, msg, s, m2);
  }

  lemma FaultRuins(m: Machine, msg: Msg, s: seq<Action>, m': Machine)
    requires Shape(m) && Goes(PassGuard(m, msg), s, m', []) && m'.fault
    ensures Ruins(m, msg, s)
  {
    hide RunOk, RunNear, Run, PassGuard, Contents;
  }

  // ----- all of them -----

  /** Past the guard without room, every call length ruins the queue from every state. */
  lemma {:induction false} PassedRuins(m: Machine, len: nat) returns (msg: Msg, s: seq<Action>)
    requires Inv(m) && m.prod.Ready? && TotalBytes(len) < TWO_32 && Unread(m) < Least(m, len)
    ensures Shape(m) && |msg.payload| == len && Ruins(m, msg, s)
  {
    hide Chain, Parse, Slot, Ruins, Hits, BlockCount, Needed, SizeOf, MsgAt;
    InvNear(m);
    UnreadNear(m);
    NeededExact(m.n, m.writing, len);
    RewindsMeans(m.n, m.writing, len);
    SlotRewind(m.writing, m.n);
    var u, at := Unread(m), At(m, len);
    assert Least(m, len) == at + BlockCount(len) - m.n;
    if BlockCount(len) > m.n {
      msg, s := StrikeOutside(m, len);
    } else if u + m.n < at {
      SlotNextLap(at - m.n, m.n);
      RingStartHit(m.mem, m.n, u, m.written, at - m.n);
      msg, s := StrikeAhead(m, len, at - m.n);
    } else {
      assert Covers(m, len, u);
      msg, s := CoveredRuins(m, len);
    }
  }

  lemma {:induction false} CoveredRuins(m: Machine, len: nat) returns (msg: Msg, s: seq<Action>)
    requires Inv(m) && m.prod.Ready? && TotalBytes(len) < TWO_32 && Covers(m, len, Unread(m))
    ensures Shape(m) && |msg.payload| == len && Ruins(m, msg, s)
  {
    hide Slot, Ruins, BlockCount, Needed, SizeOf, MsgAt, Covers, Parse;
    InvNear(m);
    UnreadNear(m);
    var u := Unread(m);
    if u == m.written {
      EmptyCovered(m, len);
      msg, s := StrikeEmpty(m, len);
    } else if SizeOf(m.mem, m.n, u) != 0 {
      msg, s := StrikeAhead(m, len, u);
    } else {
      assert u == m.read && Outside(m);
      if At(m, len) < u + m.n {
        msg, s := StrikePadByte(m, len);
      } else {
        AtMost(m, len, u);
        msg, s := StrikePadHeader(m, len);
      }
    }
  }

  lemma AtMost(m: Machine, len: nat, u: nat)
    requires m.n > 0 && Covers(m, len, u)
    ensures At(m, len) <= u + m.n
  {
  }

  lemma {:induction false} EmptyCovered(m: Machine, len: nat)
    requires Inv(m) && m.prod.Ready? && Unread(m) == m.written && Covers(m, len, Unread(m))
    ensures m.read == m.written == m.writing && (m.cons.Waiting? || m.cons == Loaded(m.read))
    ensures Contents(m) == [] && Rewinds(m.n, m.writing, len) && Slot(m.read, m.n) > 0
  {
    hide Slot, BlockCount, SizeOf;
    SlotRewind(m.writing, m.n);
  }

  // ----- the condition is exact -----

  /** No message of this length, called now, ruins the queue in any continuation that keeps to the
      condition. */
  ghost predicate CallSafe(m: Machine, len: nat)
    requires Shape(m)
  {
    forall msg: Msg, s :: |msg.payload| == len && RunOk(Step(m, Call(msg)).0, s) ==>
      Kept(m, Run(Narrow(m), [Call(msg)] + s))
  }

  lemma {:induction false} RunOkCons(m: Machine, a: Action, s: seq<Action>)
    requires Shape(m) && ActionOk(m, a) && RunOk(Step(m, a).0, s)
    ensures RunOk(m, [a] + s)
  {
    hide ActionOk, Step;
    assert ([a] + s)[1..] == s;
  }

  lemma {:induction false} OkIsKept(m: Machine, s: seq<Action>)
    requires Shape(m) && Inv(m) && IsPow2(m.n) && RunOk(m, s)
    ensures Kept(m, Run(Narrow(m), s))
  {
    assert !m.wraps;
    RunRefines(m, s);
    assert Inv(Run(m, s).0) ==> !Run(m, s).0.fault;
    hide Inv, Contents, RunOk, Run, IsPow2, RunNear;
    OkIsNear(m, s);
    RunNarrow(m, s);
  }

  /** A schedule after one quiet step, as the 32-bit machine runs it. */
  lemma {:induction false} NarrowCons(m: Machine, a: Action, s: seq<Action>)
    requires Shape(m) && IsPow2(m.n) && !m.wraps && Near(m) && Step(m, a).1 == [] && RunNear(Step(m, a).0, s)
    ensures var r := Run(Step(m, a).0, s);
            Run(Narrow(m), [a] + s) == (Narrow(r.0), r.1)
  {
    hide Step, IsPow2, Near, Narrow;
    assert ([a] + s)[1..] == s;
    assert RunNear(m, [a] + s);
    RunNarrow(m, [a] + s);
    assert [] + Run(Step(m, a).0, s).1 == Run(Step(m, a).0, s).1;
  }

  /** A call may be made now, whatever it carries and whatever follows, exactly when the guard on the
      cached index is truthful about it. */
  lemma {:induction false} CallSafeExactly(m: Machine, len: nat)
    requires Inv(m) && IsPow2(m.n) && m.prod.Ready? && TotalBytes(len) < TWO_32
    ensures Shape(m) && (Truthful(m, m.cache, len) <==> CallSafe(m, len))
  {
    assert Shape(m) && !m.wraps;
    InvNear(m);
    if Truthful(m, m.cache, len) {
      forall msg: Msg, s | |msg.payload| == len && RunOk(Step(m, Call(msg)).0, s)
        ensures Kept(m, Run(Narrow(m), [Call(msg)] + s))
      {
        hide Inv, Step, Truthful, RunOk, Kept, Run;
        RunOkCons(m, Call(msg), s);
        OkIsKept(m, [Call(msg)] + s);
      }
    } else {
      hide Inv, GuardFails, Least, Run, RunOk, RunNear, Contents, Near, IsPow2;
      var msg, s := PassedRuins(m, len);
      assert Step(m, Call(msg)) == (PassGuard(m, msg), []);
      NarrowCons(m, Call(msg), s);
      assert !Kept(m, Run(Narrow(m), [Call(msg)] + s));
    }
  }

  /** The same for the second try of the guard, on a fresh index. */
  ghost predicate RetrySafe(m: Machine, len: nat)
    requires Shape(m)
  {
    forall msg: Msg, s ::
      |msg.payload| == len && RunOk(Step(m.(prod := Refresh(msg)), Produce).0, s) ==>
      Kept(m, Run(Narrow(m.(prod := Refresh(msg))), [Produce] + s))
  }

  lemma {:induction false} RetrySafeExactly(m: Machine)
    requires Inv(m) && IsPow2(m.n) && m.prod.Refresh?
    ensures Shape(m) && (RetryOk(m) <==> RetrySafe(m, |m.prod.msg.payload|))
  {
    var len := |m.prod.msg.payload|;
    assert Shape(m) && !m.wraps && TotalBytes(len) < TWO_32;
    InvNear(m);
    if RetryOk(m) {
      forall msg: Msg, s | |msg.payload| == len && RunOk(Step(m.(prod := Refresh(msg)), Produce).0, s)
        ensures Kept(m, Run(Narrow(m.(prod := Refresh(msg))), [Produce] + s))
      {
        RetryOther(m, msg);
        hide Inv, Step, RunOk, Run, RetryOk, Truthful;
        RunOkCons(m.(prod := Refresh(msg)), Produce, s);
        OkIsKept(m.(prod := Refresh(msg)), [Produce] + s);
      }
    } else {
      var m1 := m.(cache := m.read, prod := Ready);
      RetryOther(m, m.prod.msg);
      hide Inv, GuardFails, Run, RunOk, RunNear, Near, IsPow2, Needed, Contents, PassGuard;
      var msg, s := PassedRuins(m1, len);
      var m2 := m.(prod := Refresh(msg));
      NearKept(m, m2);
      RetryPasses(m, msg);
      NarrowCons(m2, Produce, s);
      assert !Kept(m, Run(Narrow(m2), [Produce] + s));
    }
  }

  /** Between a call and its second try only the length of the message matters. */
  lemma {:induction false} RetryOther(m: Machine, msg: Msg)
    requires Inv(m) && m.prod.Refresh? && |msg.payload| == |m.prod.msg.payload|
    ensures Inv(m.(prod := Refresh(msg))) && Contents(m.(prod := Refresh(msg))) == Contents(m)
    ensures RetryOk(m) ==> RetryOk(m.(prod := Refresh(msg)))
    ensures Inv(m.(cache := m.read, prod := Ready)) && Contents(m.(cache := m.read, prod := Ready)) == Contents(m)
  {
    hide Chain, Parse, Slot, SizeOf, Needed;
  }

  lemma {:induction false} RetryPasses(m: Machine, msg: Msg)
    requires Shape(m) && !GuardFails(m, m.read, |msg.payload|)
    ensures Step(m.(prod := Refresh(msg)), Produce) ==
            (PassGuard(m.(cache := m.read, prod := Ready), msg), [])
  {
    GuardOfIndices(m, m.(cache := m.read, prod := Refresh(msg)), |msg.payload|);
    hide GuardFails, Rewinds;
  }

  // ----- from the empty ring -----

  /** After this run no message of this length, called next, leads to an unfaithful run. */
  ghost predicate NextSafe(n: nat, before: seq<Action>, len: nat)
    requires 0 < n <= TWO_31
  {
    forall msg: Msg, s ::
      |msg.payload| == len && RunOk(Step(Run(Init(n, false), before).0, Call(msg)).0, s) ==>
      Faithful(Run(Init(n, true), before + ([Call(msg)] + s)))
  }

  lemma {:induction false} FaithfulIsKept(n: nat, before: seq<Action>, rest: seq<Action>)
    requires IsPow2(n) && n <= TWO_31 && RunOk(Init(n, false), before)
    ensures var m := Run(Init(n, false), before).0;
            Faithful(Run(Init(n, true), before + rest)) <==> Kept(m, Run(Narrow(m), rest))
  {
    InitInv(n);
    var m0 := Init(n, false);
    assert Narrow(m0) == Init(n, true) && Shape(m0) && !m0.wraps;
    hide Inv, Contents, Run, RunOk, IsPow2, RunNear, Narrow;
    OkIsNear(m0, before);
    RunNarrow(m0, before);
    RunRefines(m0, before);
    var (m, t) := Run(m0, before);
    RunConcat(Init(n, true), before, rest);
    var (m', t') := Run(Narrow(m), rest);
    TraceConcat(t, t');
    assert CommitsOf(t) == [] + CommitsOf(t) == PopsOf(t) + Contents(m);
    Reassociate(PopsOf(t), Contents(m), CommitsOf(t'));
    PrefixShift(PopsOf(t), PopsOf(t'), Contents(m) + CommitsOf(t'));
  }

  lemma PrefixShift(a: seq<Msg>, b: seq<Msg>, c: seq<Msg>)
    ensures a + b <= a + c <==> b <= c
  {
    assert (a + b)[|a|..] == b && (a + c)[|a|..] == c;
    if a + b <= a + c {
      assert (a + c)[..|a + b|][|a|..] == b;
      assert (a + c)[..|a + b|][|a|..] == c[..|b|];
    }
  }

  /** The condition of `FifoFromEmpty` is exact call by call: after any run that has kept to it, on
      any power-of-two ring and at any index, a next call of some length is safe for every message
      of that length and every continuation exactly when it keeps to it too. */
  lemma {:induction false} FifoExactly(n: nat, before: seq<Action>, len: nat)
    requires IsPow2(n) && n <= TWO_31 && RunOk(Init(n, false), before) && TotalBytes(len) < TWO_32
    requires Run(Init(n, false), before).0.prod.Ready?
    ensures var m := Run(Init(n, false), before).0;
            Truthful(m, m.cache, len) <==> NextSafe(n, before, len)
  {
    InitInv(n);
    var m := Run(Init(n, false), before).0;
    hide Inv, Contents, Run, RunOk, IsPow2, RunNear, Truthful, Kept, Faithful, Step;
    RunRefines(Init(n, false), before);
    CallSafeExactly(m, len);
    if CallSafe(m, len) {
      forall msg: Msg, s | |msg.payload| == len && RunOk(Step(m, Call(msg)).0, s)
        ensures Faithful(Run(Init(n, true), before + ([Call(msg)] + s)))
      {
        FaithfulIsKept(n, before, [Call(msg)] + s);
      }
    } else {
      var msg: Msg, s :| |msg.payload| == len && RunOk(Step(m, Call(msg)).0, s) &&
                    !Kept(m, Run(Narrow(m), [Call(msg)] + s));
      FaithfulIsKept(n, before, [Call(msg)] + s);
      assert !Faithful(Run(Init(n, true), before + ([Call(msg)] + s)));
    }
  }
}
