/** The variable-size block queue as a machine of atomic steps.

    One producer and one consumer share a flat byte ring of `n` blocks of 64 bytes and four
    32-bit indices. Each load or store of shared memory is one step, the payload copy is one step
    per byte, and a schedule (a sequence of actions) picks who moves next. A run is therefore one
    sequentially consistent interleaving.

    `wraps` selects how indices advance: true is the source, whose indices are 32-bit words; false
    is the same machine with counters that never wrap, in which positions can be compared. The
    space guard works on wrapped words in both.
  */
module VarQueue {
  import opened Bits
  import opened RingIndex

  const BLOCK: nat := 64
  const HEADER: nat := 24

  /** What one log call hands over: the header fields and the argument bytes. */
  datatype Msg = Msg(level: u32, tsc: i64, logFunc: u64, payload: seq<byte>)

  // ----- size arithmetic of an allocation -----

  function DivCeil(a: nat, b: nat): nat
    requires b > 0
  {
    (a + b - 1) / b
  }

  function TotalBytes(len: nat): nat { len + HEADER }
  function BlockCount(len: nat): u32 { Wrap32(DivCeil(TotalBytes(len), BLOCK)) }
  function PadBlocks(n: nat, w: nat): int
    requires n > 0
  {
    n - Slot(w, n)
  }
  predicate Rewinds(n: nat, w: nat, len: nat)
    requires n > 0
  {
    BlockCount(len) > PadBlocks(n, w)
  }
  function Needed(n: nat, w: nat, len: nat): u32
    requires n > 0
  {
    Wrap32(BlockCount(len) + if Rewinds(n, w, len) then PadBlocks(n, w) else 0)
  }
  function MinReadIdx(n: nat, w: nat, len: nat): u32
    requires n > 0
  {
    Wrap32(Wrap32(w + Needed(n, w, len)) - n)
  }

  // ----- raw memory -----

  /** The bytes of the block in slot b. */
  function Block(mem: seq<byte>, b: nat): seq<byte>
    requires (b + 1) * BLOCK <= |mem|
  {
    mem[b * BLOCK..(b + 1) * BLOCK]
  }

  function SizeField(mem: seq<byte>, b: nat): u32
    requires (b + 1) * BLOCK <= |mem|
  {
    Get32(mem, b * BLOCK)
  }

  /** The message whose header starts slot b, as a reader of raw memory sees it. */
  function MsgAt(mem: seq<byte>, b: nat): Msg
    requires (b + 1) * BLOCK <= |mem|
  {
    var a, size := b * BLOCK, SizeField(mem, b);
    Msg(Get32(mem, a + 4), AsI64(Get64(mem, a + 8)), Get64(mem, a + 16),
        if HEADER <= size && a + size <= |mem| then mem[a + HEADER..a + size] else [])
  }

  // ----- states -----

  /** Where the producer is in `publish_args`. `at` is the local `write_idx`. */
  datatype Producer =
    | Ready
    | Refresh(msg: Msg)                        // about to load `read_idx`
    | Mark(msg: Msg)                           // about to write the rewind marker
    | Skip(msg: Msg)                           // about to move `writing_idx` to the ring start
    | Reserve(msg: Msg, at: nat)               // about to move `writing_idx` past the message
    | PutLevel(msg: Msg, at: nat)
    | PutTsc(msg: Msg, at: nat)
    | PutFunc(msg: Msg, at: nat)
    | Copy(msg: Msg, at: nat, k: nat)          // k payload bytes copied; after the last, the size
    | Publish(msg: Msg, at: nat)               // about to store `written_idx`

  /** Where the consumer is in `front` / `pop`. */
  datatype Consumer =
    | Waiting
    | Loaded(r: nat)                           // `read_idx` loaded, `written_idx` not yet
    | Scan(r: nat, w: nat, rewinds: nat)       // about to read a size field
    | Rewind(next: nat, w: nat, rewinds: nat)  // saw size 0, about to store `read_idx`
    | Holding(r: nat, size: u32)               // `front` has returned
    | Popping(next: nat)                       // in `pop`, about to store `read_idx`

  datatype Machine = Machine(
    n: nat, wraps: bool, mem: seq<byte>,
    writing: nat, written: nat, read: nat, cache: nat,
    prod: Producer, cons: Consumer,
    fault: bool)                               // a store went outside the ring

  datatype Action =
    | Call(msg: Msg)     // the producer enters `publish_args`
    | Produce            // the producer takes its next step
    | Consume            // the consumer takes its next step
    | Look               // while holding a message, the consumer reads it

  datatype Event =
    | Committed(msg: Msg)
    | Rejected(msg: Msg)
    | Seen(msg: Msg)
    | Popped(msg: Msg)
    | Empty
    | FalseEmpty         // the exit of `front` right after a rewind

  predicate Shape(m: Machine)
  {
    0 < m.n <= TWO_31 && |m.mem| == m.n * BLOCK
  }

  function Init(n: nat, wraps: bool): Machine
  {
    Machine(n, wraps, seq(n * BLOCK, _ => 0), 0, 0, 0, 0, Ready, Waiting, false)
  }

  /** An index as it is stored. */
  function Index(m: Machine, x: nat): nat { if m.wraps then Wrap32(x) else x }

  // ----- the producer's steps -----

  function Put(m: Machine, at: nat, offset: nat, bytes: seq<byte>): (m': Machine)
    requires m.n > 0
    ensures m' == m.(mem := m'.mem, fault := m'.fault) && |m'.mem| == |m.mem|
  {
    var a := Slot(at, m.n) * BLOCK + offset;
    if a + |bytes| <= |m.mem| then m.(mem := Store(m.mem, a, bytes)) else m.(fault := true)
  }

  function PassGuard(m: Machine, msg: Msg): Machine
    requires m.n > 0
  {
    m.(prod := if Rewinds(m.n, m.writing, |msg.payload|) then Mark(msg) else Reserve(msg, m.writing))
  }

  predicate GuardFails(m: Machine, readIdx: nat, len: nat)
    requires m.n > 0
  {
    AsI32(Wrap32(readIdx)) < AsI32(MinReadIdx(m.n, m.writing, len))
  }

  function Begin(m: Machine, msg: Msg): (s: (Machine, seq<Event>))
    requires m.n > 0
    ensures s.0 == m.(prod := s.0.prod)
  {
    if TotalBytes(|msg.payload|) >= TWO_64 then (m, [Rejected(msg)])
    else if GuardFails(m, m.cache, |msg.payload|) then (m.(prod := Refresh(msg)), [])
    else (PassGuard(m, msg), [])
  }

  function ProducerStep(m: Machine): (s: (Machine, seq<Event>))
    requires m.n > 0
    ensures s.0.n == m.n && |s.0.mem| == |m.mem| && s.0.cons == m.cons && s.0.read == m.read
  {
    match m.prod
    case Ready => (m, [])
    case Refresh(msg) =>
      var m1 := m.(cache := m.read);
      if GuardFails(m1, m1.cache, |msg.payload|) then (m1.(prod := Ready), [Rejected(msg)])
      else (PassGuard(m1, msg), [])
    case Mark(msg) =>
      (Put(m, m.writing, 0, LE32(0)).(prod := Skip(msg)), [])
    case Skip(msg) =>
      var w := Index(m, m.writing + PadBlocks(m.n, m.writing));
      (m.(writing := w, prod := Reserve(msg, w)), [])
    case Reserve(msg, at) =>
      (m.(writing := Index(m, at + BlockCount(|msg.payload|)), prod := PutLevel(msg, at)), [])
    case PutLevel(msg, at) =>
      (Put(m, at, 4, LE32(msg.level)).(prod := PutTsc(msg, at)), [])
    case PutTsc(msg, at) =>
      (Put(m, at, 8, LE64(AsU64(msg.tsc))).(prod := PutFunc(msg, at)), [])
    case PutFunc(msg, at) =>
      (Put(m, at, 16, LE64(msg.logFunc)).(prod := Copy(msg, at, 0)), [])
    case Copy(msg, at, k) =>
      if k < |msg.payload| then
        (Put(m, at, HEADER + k, [msg.payload[k]]).(prod := Copy(msg, at, k + 1)), [])
      else
        (Put(m, at, 0, LE32(Wrap32(TotalBytes(|msg.payload|)))).(prod := Publish(msg, at)), [])
    case Publish(msg, at) =>
      (m.(written := m.writing, prod := Ready), [Committed(msg)])
  }

  // ----- the consumer's steps -----

  function ConsumerStep(m: Machine): (s: (Machine, seq<Event>))
    requires Shape(m)
    ensures s.0 == m.(read := s.0.read, cons := s.0.cons)
  {
    match m.cons
    case Waiting => (m.(cons := Loaded(m.read)), [])
    case Loaded(r) =>
      if r == m.written then (m.(cons := Waiting), [Empty])
      else (m.(cons := Scan(r, m.written, 0)), [])
    case Scan(r, w, rewinds) =>
      var size := SizeField(m.mem, Slot(r, m.n));
      if size == 0 then (m.(cons := Rewind(Index(m, r + PadBlocks(m.n, r)), w, rewinds)), [])
      else (m.(cons := Holding(r, size)), [])
    case Rewind(next, w, rewinds) =>
      if next == w then (m.(read := next, cons := Waiting), [FalseEmpty])
      else (m.(read := next, cons := Scan(next, w, rewinds + 1)), [])
    case Holding(r, size) =>
      var again := SizeField(m.mem, Slot(m.read, m.n));
      (m.(cons := Popping(Index(m, m.read + DivCeil(again, BLOCK)))), [])
    case Popping(next) =>
      (m.(read := next, cons := Waiting), [Popped(MsgAt(m.mem, Slot(m.read, m.n)))])
  }

  function Step(m: Machine, a: Action): (s: (Machine, seq<Event>))
    requires Shape(m)
    ensures Shape(s.0) && s.0.n == m.n
  {
    match a
    case Call(msg) => if m.prod.Ready? then Begin(m, msg) else (m, [])
    case Produce => ProducerStep(m)
    case Consume => ConsumerStep(m)
    case Look =>
      if m.cons.Holding? then
        (m, [Seen(MsgAt(m.mem, Slot(m.cons.r, m.n)))])
      else (m, [])
  }

  /** The state and the events a whole schedule produces. */
  function Run(m: Machine, schedule: seq<Action>): (s: (Machine, seq<Event>))
    requires Shape(m)
    ensures Shape(s.0) && s.0.n == m.n
    decreases |schedule|
  {
    if schedule == [] then (m, [])
    else
      var (m1, now) := Step(m, schedule[0]);
      var (m2, later) := Run(m1, schedule[1..]);
      (m2, now + later)
  }
}
