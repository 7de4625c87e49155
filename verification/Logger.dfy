/** The whole path of a record: published into the ring, taken out by the back end, rendered,
    batched, written. */
module Logger {
  import opened Bits
  import opened Wrappers
  import opened RingIndex
  import opened VarQueue
  import opened VarQueueProofs
  import opened VarQueueTheorems
  import opened VarQueueWords
  import opened VarQueueObject
  import opened ArgsCodec
  import opened TimeText
  import opened Sink

  /** One log call: level, counter value, log statement, arguments, and the padding bytes their
      layout happens to hold. */
  datatype Record = Record(level: u32, tsc: i64, site: u64, a1: Arg, a2: Arg,
                           pad1: seq<byte>, pad2: seq<byte>)

  predicate Loggable(sites: map<u64, Site>, r: Record)
  {
    && r.site in sites && r.level < 6
    && Compiles(r.a1) && Compiles(r.a2)
    && |r.pad1| == PadLen(r.a1) && |r.pad2| == PadLen(r.a2)
    && Small(r.a1) && Whole(r.a1) && Small(r.a2)
  }

  function ToMsg(r: Record): Msg
    requires Compiles(r.a1) && Compiles(r.a2)
  {
    Msg(r.level, r.tsc, r.site, Args2(r.a1, r.a2, r.pad1, r.pad2))
  }

  predicate AllLoggable(sites: map<u64, Site>, rs: seq<Record>)
  {
    forall i :: 0 <= i < |rs| ==> Loggable(sites, rs[i])
  }

  function Messages(sites: map<u64, Site>, rs: seq<Record>): (ms: seq<Msg>)
    requires AllLoggable(sites, rs)
    ensures |ms| == |rs|
  {
    seq(|rs|, i requires 0 <= i < |rs| => assert Loggable(sites, rs[i]); ToMsg(rs[i]))
  }

  /** The time of a record, in nanoseconds. */
  type Time = x: int | 0 <= x < 0x8000_0000_0000_0000

  function LineOf(sites: map<u64, Site>, tid: nat, r: Record, ns: nat): seq<byte>
    requires Loggable(sites, r) && tid < 32
  {
    Line(tid, r.level, ns, sites[r.site], r.a1, r.a2)
  }

  /** It ends with the statement's own formatting of the record's first and second argument. */
  lemma {:induction false} LineOfEnds(sites: map<u64, Site>, tid: nat, r: Record, ns: nat)
    requires Loggable(sites, r) && tid < 32
    ensures var line, text := LineOf(sites, tid, r, ns), Flat(sites[r.site].format(r.a1, r.a2)) + [10];
            && |text| <= |line| && line[|line| - |text|..] == text
            && Num2(line, 26) == tid && line[1..23] == Stamp(ns)
            && (var name := Ascii(LevelName(r.level));
                29 + |name| <= |line| && line[29..29 + |name|] == name)
  {
    hide Line, Flat, Ascii, LevelName;
    var site := sites[r.site];
    LineReads(tid, r.level, ns, site, r.a1, r.a2);
    var line, name := LineOf(sites, tid, r, ns), Ascii(LevelName(r.level));
    var place := site.modulePath + Ascii("::") + site.fileName + Ascii("#") + site.line + Ascii("] ");
    var text := Flat(site.format(r.a1, r.a2)) + [10];
    assert line[29 + |name|..] == place + text;
    assert line == line[..29 + |name|] + (place + text);
  }

  /** The rendering of records in order, each at its time. */
  function Rendered(sites: map<u64, Site>, tid: nat, rs: seq<Record>, times: seq<Time>): seq<byte>
    requires AllLoggable(sites, rs) && |times| == |rs| && tid < 32
  {
    if rs == [] then []
    else
      var k := |rs| - 1;
      Rendered(sites, tid, rs[..k], times[..k]) + LineOf(sites, tid, rs[k], times[k])
  }

  lemma {:induction false} RenderedSnoc(sites: map<u64, Site>, tid: nat, rs: seq<Record>, times: seq<Time>,
                                        r: Record, ns: Time)
    requires AllLoggable(sites, rs) && |times| == |rs| && tid < 32 && Loggable(sites, r)
    ensures AllLoggable(sites, rs + [r])
    ensures Rendered(sites, tid, rs + [r], times + [ns]) ==
            Rendered(sites, tid, rs, times) + LineOf(sites, tid, r, ns)
  {
    hide LineOf, Loggable;
    assert (rs + [r])[..|rs|] == rs && (times + [ns])[..|rs|] == times;
  }

  lemma AllConcat(sites: map<u64, Site>, rs: seq<Record>, rs': seq<Record>)
    requires AllLoggable(sites, rs) && AllLoggable(sites, rs')
    ensures AllLoggable(sites, rs + rs')
  {
    hide Loggable;
  }

  lemma {:induction false} RenderedConcat(sites: map<u64, Site>, tid: nat, rs: seq<Record>, ts: seq<Time>,
                                          rs': seq<Record>, ts': seq<Time>)
    requires AllLoggable(sites, rs) && AllLoggable(sites, rs') && AllLoggable(sites, rs + rs')
    requires |ts| == |rs| && |ts'| == |rs'| && tid < 32
    ensures Rendered(sites, tid, rs + rs', ts + ts') ==
            Rendered(sites, tid, rs, ts) + Rendered(sites, tid, rs', ts')
    decreases |rs'|
  {
    hide LineOf, Loggable, Rendered;
    if rs' == [] {
      assert rs + rs' == rs && ts + ts' == ts;
      RenderedNone(sites, tid);
    } else {
      var k := |rs'| - 1;
      var r, t := rs'[k], ts'[k];
      AllConcat(sites, rs, rs'[..k]);
      RenderedConcat(sites, tid, rs, ts, rs'[..k], ts'[..k]);
      RenderedSnoc(sites, tid, rs'[..k], ts'[..k], r, t);
      RenderedSnoc(sites, tid, rs + rs'[..k], ts + ts'[..k], r, t);
      assert rs'[..k] + [r] == rs' && ts'[..k] + [t] == ts';
      assert rs + rs'[..k] + [r] == rs + rs' && ts + ts'[..k] + [t] == ts + ts';
    }
  }

  lemma RenderedNone(sites: map<u64, Site>, tid: nat)
    requires tid < 32
    ensures Rendered(sites, tid, [], []) == []
  {
  }

  /** The times a fixed clock gives a list of records. */
  function TimesOf(clock: i64 -> Time, rs: seq<Record>): (ts: seq<Time>)
    ensures |ts| == |rs|
  {
    seq<Time>(|rs|, i requires 0 <= i < |rs| => clock(rs[i].tsc))
  }

  // ----- rendering what is in the ring -----

  /** The line of a message in the ring: a fixed function of its bytes. */
  function MsgLine(sites: map<u64, Site>, tid: nat, clock: i64 -> Time, msg: Msg): seq<byte>
    requires tid < 32
  {
    if msg.logFunc in sites && msg.level < 6 && DecodeArgs2(msg.payload).Some? then
      var (a1, a2) := DecodeArgs2(msg.payload).value;
      Line(tid, msg.level, clock(msg.tsc), sites[msg.logFunc], a1, a2)
    else []
  }

  function QueueText(sites: map<u64, Site>, tid: nat, clock: i64 -> Time, ms: seq<Msg>): seq<byte>
    requires tid < 32
  {
    if ms == [] then []
    else QueueText(sites, tid, clock, ms[..|ms| - 1]) + MsgLine(sites, tid, clock, ms[|ms| - 1])
  }

  lemma {:induction false} MsgLineIs(sites: map<u64, Site>, tid: nat, clock: i64 -> Time, r: Record)
    requires Loggable(sites, r) && tid < 32
    ensures MsgLine(sites, tid, clock, ToMsg(r)) == LineOf(sites, tid, r, clock(r.tsc))
  {
    hide DecodeArgs2, Args2, Line, PadLen;
    Args2RoundTrip(r.a1, r.a2, r.pad1, r.pad2, []);
    assert Args2(r.a1, r.a2, r.pad1, r.pad2) + [] == Args2(r.a1, r.a2, r.pad1, r.pad2);
  }

  lemma {:induction false} QueueTextIs(sites: map<u64, Site>, tid: nat, clock: i64 -> Time, rs: seq<Record>)
    requires AllLoggable(sites, rs) && tid < 32
    ensures QueueText(sites, tid, clock, Messages(sites, rs)) ==
            Rendered(sites, tid, rs, TimesOf(clock, rs))
    decreases |rs|
  {
    hide MsgLine, LineOf, Loggable;
    if rs != [] {
      var k := |rs| - 1;
      assert Loggable(sites, rs[k]);
      QueueTextIs(sites, tid, clock, rs[..k]);
      MsgLineIs(sites, tid, clock, rs[k]);
      assert Messages(sites, rs)[..k] == Messages(sites, rs[..k]);
      assert TimesOf(clock, rs)[..k] == TimesOf(clock, rs[..k]);
    }
  }

  // ----- operations and boundary states -----

  /** What may happen next. A consumption comes with what the clock makes of counter values at that
      moment, the bytes that follow the message in memory, and the counter read on a flush. */
  datatype Op =
    | Publish(r: Record)
    | Consume(clock: i64 -> Time, trail: seq<byte>, now: i64)
    | Idle(now: i64)

  predicate OpOk(sites: map<u64, Site>, op: Op)
  {
    match op
    case Publish(r) => Loggable(sites, r)
    case Consume(_, trail, _) => |trail| == HEADER
    case Idle(_) => true
  }

  /** The logger between two operations: the ring, the calls that returned true, the times of those
      already rendered, the output, the batch, the last flush, and whether the back end lives. */
  datatype Snap = Snap(ring: Machine, accepted: seq<Record>, times: seq<Time>,
                       out: Stream, alive: bool)

  /** What was written, then the batch, is the rendering of the records taken so far, and the ring
      holds exactly the rest. */
  ghost predicate Conserves(sites: map<u64, Site>, tid: nat, s: Snap)
  {
    && Inv(s.ring) && tid < 32 && |s.out.batch| < 262_144
    && AllLoggable(sites, s.accepted) && |s.times| <= |s.accepted|
    && RingHolds(sites, s) && TextIs(sites, tid, s)
  }

  ghost predicate RingHolds(sites: map<u64, Site>, s: Snap)
    requires Shape(s.ring) && AllLoggable(sites, s.accepted) && |s.times| <= |s.accepted|
  {
    Contents(s.ring) == Messages(sites, s.accepted)[|s.times|..]
  }

  ghost predicate TextIs(sites: map<u64, Site>, tid: nat, s: Snap)
    requires tid < 32 && AllLoggable(sites, s.accepted) && |s.times| <= |s.accepted|
  {
    s.out.written + s.out.batch == Rendered(sites, tid, s.accepted[..|s.times|], s.times)
  }

  /** One operation: exactly what it answers and what it leaves behind. What it leaves in the ring
      follows, since `Conserves` holds before and after. A dead back end takes no more turns, while
      publishing goes on. */
  ghost predicate Performed(sites: map<u64, Site>, tid: nat, s: Snap, op: Op, ok: bool, s': Snap)
    requires Conserves(sites, tid, s) && OpOk(sites, op)
  {
    match op
    case Publish(r) =>
      && (ok <==> Admits(s.ring, |ToMsg(r).payload|))
      && s' == s.(ring := s'.ring, accepted := s.accepted + if ok then [r] else [])
    case Consume(clock, _, now) =>
      if !s.alive then !ok && s' == s
      else
        && (ok <==> |s.times| < |s.accepted|)
        && if !ok then s' == s.(ring := s'.ring)
           else Took(sites, tid, s, clock, now, s')
    case Idle(now) =>
      if !s.alive then s' == s
      else s' == s.(out := s'.out) && Idled(s.out, now, s'.out)
  }

  /** The oldest record has been rendered whole at its time, or its line exceeds the scratch and the
      back end has died with nothing emitted. */
  ghost predicate Took(sites: map<u64, Site>, tid: nat, s: Snap, clock: i64 -> Time, now: i64, s': Snap)
    requires Conserves(sites, tid, s) && |s.times| < |s.accepted|
  {
    var r := s.accepted[|s.times|];
    assert Loggable(sites, r);
    var ns := clock(r.tsc);
    var line := LineOf(sites, tid, r, ns);
    && s'.accepted == s.accepted
    && if |line| <= 512 then
         && s'.alive == s.alive && s'.times == s.times + [ns]
         && Emitted(s.out, line, r.tsc, now, s'.out)
       else
         s' == s.(ring := s'.ring, alive := false)
  }

  lemma NoTurn(sites: map<u64, Site>, tid: nat, s: Snap, op: Op)
    requires Conserves(sites, tid, s) && OpOk(sites, op) && !s.alive && !op.Publish?
    ensures Performed(sites, tid, s, op, false, s)
  {
    hide Conserves;
  }

  /** What the ring's head is, and when there is none. */
  lemma {:induction false} HeadRecord(sites: map<u64, Site>, tid: nat, s: Snap)
    requires Conserves(sites, tid, s)
    ensures tid < 32 && |s.times| <= |s.accepted|
    ensures Contents(s.ring) == [] <==> |s.times| == |s.accepted|
    ensures |s.times| < |s.accepted| ==>
              Loggable(sites, s.accepted[|s.times|]) && Contents(s.ring)[0] == ToMsg(s.accepted[|s.times|])
  {
    hide Inv, Contents, Rendered, Args2;
  }

  /** The head gone from the ring and its line joined to the batch, everything is conserved; so it is
      with the head still there and nothing emitted. */
  lemma {:induction false} TookConserves(sites: map<u64, Site>, tid: nat, s: Snap, clock: i64 -> Time,
                                         now: i64, s': Snap)
    requires Conserves(sites, tid, s) && |s.times| < |s.accepted| && Took(sites, tid, s, clock, now, s')
    requires Inv(s'.ring) && |s'.out.batch| < 262_144
    requires Contents(s.ring) != []
    requires Contents(s'.ring) == Contents(s.ring)[|s'.times| - |s.times|..]
    ensures Conserves(sites, tid, s')
  {
    assert Shape(s.ring) && Shape(s'.ring);
    hide Inv, Contents, LineOf, Loggable, Messages, Emitted, TextIs, RingHolds;
    var r := s.accepted[|s.times|];
    assert Loggable(sites, r);
    if |LineOf(sites, tid, r, clock(r.tsc))| <= 512 {
      TextGrows(sites, tid, s, clock(r.tsc), now, s');
      RingShrinks(sites, s, s');
    } else {
      Unchanged(sites, tid, s, s');
    }
  }

  lemma {:induction false} TextGrows(sites: map<u64, Site>, tid: nat, s: Snap, ns: Time, now: i64, s': Snap)
    requires tid < 32 && AllLoggable(sites, s.accepted) && |s.times| < |s.accepted| && TextIs(sites, tid, s)
    requires s'.accepted == s.accepted && s'.times == s.times + [ns]
    requires Loggable(sites, s.accepted[|s.times|])
    requires Emitted(s.out, LineOf(sites, tid, s.accepted[|s.times|], ns), s.accepted[|s.times|].tsc, now, s'.out)
    ensures TextIs(sites, tid, s')
  {
    hide Rendered, LineOf, Loggable, Emitted;
    var k := |s.times|;
    var r := s.accepted[k];
    EmittedText(s.out, LineOf(sites, tid, r, ns), r.tsc, now, s'.out);
    RenderedSnoc(sites, tid, s.accepted[..k], s.times, r, ns);
    assert s.accepted[..k] + [r] == s.accepted[..k + 1];
  }

  lemma {:induction false} RingShrinks(sites: map<u64, Site>, s: Snap, s': Snap)
    requires Shape(s.ring) && Shape(s'.ring) && AllLoggable(sites, s.accepted) && |s.times| < |s.accepted|
    requires RingHolds(sites, s) && s'.accepted == s.accepted && |s'.times| == |s.times| + 1
    requires Contents(s.ring) != [] && Contents(s'.ring) == Contents(s.ring)[1..]
    ensures RingHolds(sites, s')
  {
    hide Contents, Loggable, Messages;
    var ms, k := Messages(sites, s.accepted), |s.times|;
    assert ms[k..][1..] == ms[k + 1..];
  }

  lemma {:induction false} Unchanged(sites: map<u64, Site>, tid: nat, s: Snap, s': Snap)
    requires Conserves(sites, tid, s) && s' == s.(ring := s'.ring, alive := s'.alive)
    requires Inv(s'.ring) && Contents(s'.ring) == Contents(s.ring)[0..]
    ensures Conserves(sites, tid, s')
  {
    hide Inv, Contents, Rendered, Loggable, Messages;
  }

  lemma EmittedText(o: Stream, line: seq<byte>, tsc: i64, now: i64, o': Stream)
    requires Emitted(o, line, tsc, now, o')
    ensures o'.written + o'.batch == (o.written + o.batch) + line
  {
  }

  /** Every boundary conserves, and each operation leads from one to the next. */
  ghost predicate Follows(sites: map<u64, Site>, tid: nat, ops: seq<Op>, results: seq<bool>, states: seq<Snap>)
  {
    && |results| <= |ops| && |states| == |results| + 1
    && (forall i :: 0 <= i < |ops| ==> OpOk(sites, ops[i]))
    && (forall i :: 0 <= i < |states| ==> Conserves(sites, tid, states[i]))
    && (forall i :: 0 <= i < |results| ==>
          Performed(sites, tid, states[i], ops[i], results[i], states[i + 1]))
  }

  /** The records whose publish operation returned true, in order. */
  function Chosen(ops: seq<Op>, results: seq<bool>): seq<Record>
    requires |results| <= |ops|
  {
    if |results| == 0 then []
    else
      var k := |results| - 1;
      Chosen(ops, results[..k]) + if ops[k].Publish? && results[k] then [ops[k].r] else []
  }

  // ----- conservation -----

  /** Every rendered record has the time this clock gives it. */
  predicate Steady(clock: i64 -> Time, s: Snap)
  {
    |s.times| <= |s.accepted| && s.times == TimesOf(clock, s.accepted[..|s.times|])
  }

  /** Every consumption of the run used this clock. */
  ghost predicate OneClock(clock: i64 -> Time, ops: seq<Op>)
  {
    forall i, t :: 0 <= i < |ops| && ops[i].Consume? ==> ops[i].clock(t) == clock(t)
  }

  /** What was written, then the batch, then the rendering of what the ring holds, is the rendering
      of exactly the accepted records. */
  ghost predicate EndToEnd(sites: map<u64, Site>, tid: nat, clock: i64 -> Time, s: Snap)
    requires Conserves(sites, tid, s)
  {
    s.out.written + s.out.batch + QueueText(sites, tid, clock, Contents(s.ring)) ==
    Rendered(sites, tid, s.accepted, TimesOf(clock, s.accepted))
  }

  lemma {:induction false} SteadyEnds(sites: map<u64, Site>, tid: nat, clock: i64 -> Time, s: Snap)
    requires Conserves(sites, tid, s) && Steady(clock, s)
    ensures EndToEnd(sites, tid, clock, s)
  {
    hide Rendered, Loggable, Inv, Contents, QueueText;
    var k, rs := |s.times|, s.accepted;
    assert rs == rs[..k] + rs[k..];
    assert TimesOf(clock, rs) == TimesOf(clock, rs[..k]) + TimesOf(clock, rs[k..]);
    assert Messages(sites, rs)[k..] == Messages(sites, rs[k..]);
    QueueTextIs(sites, tid, clock, rs[k..]);
    RenderedConcat(sites, tid, rs[..k], TimesOf(clock, rs[..k]), rs[k..], TimesOf(clock, rs[k..]));
  }

  lemma {:induction false} SteadyStep(sites: map<u64, Site>, tid: nat, clock: i64 -> Time,
                                      s: Snap, op: Op, ok: bool, s': Snap)
    requires Conserves(sites, tid, s) && OpOk(sites, op) && Performed(sites, tid, s, op, ok, s')
    requires Steady(clock, s) && (forall t :: op.Consume? ==> op.clock(t) == clock(t))
    ensures Steady(clock, s')
    ensures s'.accepted == s.accepted + if op.Publish? && ok then [op.r] else []
  {
    hide Rendered, Loggable, Inv, Contents, LineOf, Emitted, Idled, Admits, Messages;
    var k := |s.times|;
    assert s'.accepted[..k] == s.accepted[..k];
    if s'.times != s.times {
      assert s.accepted[..k + 1] == s.accepted[..k] + [s.accepted[k]];
      assert TimesOf(clock, s.accepted[..k + 1]) == TimesOf(clock, s.accepted[..k]) + [clock(s.accepted[k].tsc)];
    }
  }

  /** At every boundary of every run: the accepted records are exactly those whose publish returned
      true, and with one clock for the whole run nothing of them is lost, repeated, reordered or
      altered on the way to the output. */
  lemma {:induction false} Conservation(sites: map<u64, Site>, tid: nat, clock: i64 -> Time,
                                        ops: seq<Op>, results: seq<bool>, states: seq<Snap>, i: nat)
    requires Follows(sites, tid, ops, results, states) && i < |states|
    requires Steady(clock, states[0]) && OneClock(clock, ops)
    ensures Steady(clock, states[i]) && EndToEnd(sites, tid, clock, states[i])
    ensures states[i].accepted == states[0].accepted + Chosen(ops, results[..i])
    decreases i
  {
    hide Conserves, Performed, Steady, EndToEnd, OpOk;
    if i > 0 {
      Conservation(sites, tid, clock, ops, results, states, i - 1);
      SteadyStep(sites, tid, clock, states[i - 1], ops[i - 1], results[i - 1], states[i]);
      assert results[..i][..i - 1] == results[..i - 1];
    }
    SteadyEnds(sites, tid, clock, states[i]);
  }

  class Logger {
    const queue: SpscVarQueueOpt
    const sink: ConsoleBatchSink
    const sites: map<u64, Site>
    const tid: nat
    var alive: bool                  // false once the back end has panicked
    ghost var accepted: seq<Record>  // the calls that returned true, in order
    ghost var times: seq<Time>       // the times of those already rendered

    ghost predicate Apart()
      reads this
    {
      queue.blk != sink.scratch.inner && queue.blk != sink.timeCache.buf
    }

    ghost function Snapshot(): Snap
      reads this, queue, queue.blk, sink
    {
      Snap(queue.View(Ready, Waiting), accepted, times, sink.Out(), alive)
    }

    ghost predicate Valid()
      reads this, queue, queue.blk, sink, sink.scratch, sink.scratch.inner, sink.timeCache, sink.timeCache.buf
    {
      queue.Valid() && sink.Valid() && Apart() && Conserves(sites, tid, Snapshot())
    }

    constructor (blkCnt: nat, sites: map<u64, Site>, tid: nat, now: i64)
      requires IsPow2(blkCnt) && blkCnt <= TWO_31 && tid < 32
      ensures Valid() && accepted == [] && times == [] && alive
    {
      var q := new SpscVarQueueOpt(blkCnt);
      var s := new ConsoleBatchSink(now);
      queue, sink := q, s;
      this.sites, this.tid := sites, tid;
      alive, accepted, times := true, [], [];
    }

    method PublishRecord(r: Record) returns (ok: bool)
      requires Valid() && Loggable(sites, r) && Trusted(queue.View(Ready, Waiting), ToMsg(r))
      modifies this`accepted, queue, queue.blk
      ensures Valid() && Performed(sites, tid, old(Snapshot()), Op.Publish(r), ok, Snapshot())
    {
      hide Inv, Contents, Rendered, Admits, Args2, Trusted, IsPow2;
      ok := queue.PublishArgs(r.level, r.tsc, r.site, Args2(r.a1, r.a2, r.pad1, r.pad2));
      if ok {
        assert (accepted + [r])[..|times|] == accepted[..|times|];
        assert Messages(sites, accepted + [r]) == Messages(sites, accepted) + [ToMsg(r)];
        accepted := accepted + [r];
      }
    }

    /** One turn of the back end's inner loop. `got` tells whether there was a message; if its line
        does not fit the scratch the back end panics, with the message still queued. */
    method ConsumeOne(clock: i64 -> Time, trail: seq<byte>, now: i64) returns (got: bool)
      requires Valid() && alive && |trail| == HEADER
      modifies this`times, this`alive, queue`readIdx, queue`read
      modifies sink`batch, sink`written, sink`lastFlush
      modifies sink.scratch, sink.scratch.inner, sink.timeCache, sink.timeCache.buf
      ensures Valid() && Performed(sites, tid, old(Snapshot()), Op.Consume(clock, trail, now), got, Snapshot())
    {
      hide Inv, Contents, IsPow2, Slot, Conserves, RingHolds, TextIs, LineOf, Loggable, ToMsg, Emitted, MsgAt;
      ghost var before := Snapshot();
      HeadRecord(sites, tid, before);
      var front := queue.Front();
      if front.None? {
        return false;
      }
      got := true;
      HeldFields(queue.View(Ready, Holding(queue.read, front.value.total)));
      TakeHeld(front.value, clock, trail, now, before);
    }

    /** Renders the held message and lets go of it; `before` is the state it was found in. */
    method TakeHeld(front: Peek, clock: i64 -> Time, trail: seq<byte>, now: i64, ghost before: Snap)
      requires Conserves(sites, tid, before) && |before.times| < |before.accepted| && before.alive
      requires before.accepted == accepted && before.times == times && before.out == sink.Out() && alive
      requires queue.Stored() && sink.Valid() && Apart() && |trail| == HEADER
      requires Inv(queue.View(Ready, Holding(queue.read, front.total)))
      requires Contents(queue.View(Ready, Holding(queue.read, front.total))) == Contents(before.ring)
      requires Ring(queue.blk[..], queue.n) && front.header == Slot(queue.read, queue.n) * BLOCK
      requires Loggable(sites, accepted[|times|])
      requires MsgOf(queue.blk[..], queue.n, queue.read) == ToMsg(accepted[|times|])
      modifies this`times, this`alive, queue`readIdx, queue`read
      modifies sink`batch, sink`written, sink`lastFlush
      modifies sink.scratch, sink.scratch.inner, sink.timeCache, sink.timeCache.buf
      ensures Valid() && Took(sites, tid, before, clock, now, Snapshot())
    {
      hide Inv, Contents, IsPow2, Slot, Conserves, LineOf, Loggable, ToMsg, Emitted, MsgAt;
      HeadRecord(sites, tid, before);
      ghost var held := queue.View(Ready, Holding(queue.read, front.total));
      var ok, ns := Render(front, clock, trail, now, accepted[|times|]);
      if ok {
        queue.Pop(front.total);
        times := times + [ns];
        assert Took(sites, tid, before, clock, now, Snapshot());
      } else {
        Abandon(held);
        alive := false;
        assert Took(sites, tid, before, clock, now, Snapshot());
      }
      hide Took;
      TookConserves(sites, tid, before, clock, now, Snapshot());
    }

    /** Decodes the held message, gives it its time and hands it to the sink. */
    method Render(front: Peek, clock: i64 -> Time, trail: seq<byte>, now: i64, ghost r: Record)
      returns (ok: bool, ns: Time)
      requires Apart() && sink.Valid() && tid < 32 && Loggable(sites, r) && |trail| == HEADER
      requires Inv(queue.View(Ready, Holding(queue.read, front.total)))
      requires Ring(queue.blk[..], queue.n) && front.header == Slot(queue.read, queue.n) * BLOCK
      requires MsgOf(queue.blk[..], queue.n, queue.read) == ToMsg(r)
      modifies sink`batch, sink`written, sink`lastFlush
      modifies sink.scratch, sink.scratch.inner, sink.timeCache, sink.timeCache.buf
      ensures sink.Valid() && ns == clock(r.tsc)
      ensures ok <==> |LineOf(sites, tid, r, ns)| <= 512
      ensures if ok then Emitted(old(sink.Out()), LineOf(sites, tid, r, ns), r.tsc, now, sink.Out())
              else sink.Out() == old(sink.Out())
    {
      hide Inv, DecodeArgs2, Args2, Slot, MsgAt, Get32, Get64, Line, Emitted, PadLen;
      HeldFields(queue.View(Ready, Holding(queue.read, front.total)));
      var mem, header := queue.blk[..], front.header;
      var level, tsc, logFunc := Get32(mem, header + 4), AsI64(Get64(mem, header + 8)), Get64(mem, header + 16);
      var payload := mem[header + HEADER..header + front.total];
      assert ToMsg(r) == Msg(level, tsc, logFunc, payload);
      Args2RoundTrip(r.a1, r.a2, r.pad1, r.pad2, trail);
      ns := clock(tsc);
      ok := sink.OnRecord(tid, level, tsc, ns, sites[logFunc], payload + trail, now);
    }

    method IdleOnce(now: i64)
      requires Valid() && alive
      modifies sink`batch, sink`written, sink`lastFlush
      ensures Valid() && Performed(sites, tid, old(Snapshot()), Idle(now), false, Snapshot())
    {
      hide Inv, Contents, Rendered;
      sink.OnIdle(now);
    }

    /** The operation that comes next, unless it is a publish that would fool the space guard. */
    method Perform(op: Op) returns (done: bool, ok: bool)
      requires Valid() && OpOk(sites, op)
      modifies this`accepted, this`times, this`alive, queue, queue.blk
      modifies sink`batch, sink`written, sink`lastFlush
      modifies sink.scratch, sink.scratch.inner, sink.timeCache, sink.timeCache.buf
      ensures Valid()
      ensures done ==> Performed(sites, tid, old(Snapshot()), op, ok, Snapshot())
      ensures !done ==> Snapshot() == old(Snapshot()) && op.Publish? &&
                        !Trusted(queue.View(Ready, Waiting), ToMsg(op.r))
    {
      hide Inv, Contents, Args2, BitAnd, TrustedWords, Trusted, Performed, Conserves;
      done, ok := true, false;
      match op {
        case Publish(r) =>
          TrustedWordsExact(queue.View(Ready, Waiting), ToMsg(r));
          done := TrustedWords(queue.n, queue.writingIdx, queue.readIdx, queue.readIdxCache, |ToMsg(r).payload|);
          if done {
            ok := PublishRecord(r);
          }
        case Consume(clock, trail, now) =>
          if alive {
            ok := ConsumeOne(clock, trail, now);
          } else {
            NoTurn(sites, tid, Snapshot(), op);
          }
        case Idle(now) =>
          if alive {
            IdleOnce(now);
          } else {
            NoTurn(sites, tid, Snapshot(), op);
          }
      }
    }

    /** Any run of complete operations, in any order: it stops only where a call would fool the space
        guard, conserves at every boundary, also while publishing goes on after the back end has
        panicked, and each operation does exactly what it should. With one clock for the whole run,
        what was written, the batch and the rendering of what is queued make up the rendering of
        exactly the accepted records. */
    method Run(ops: seq<Op>, ghost clock: i64 -> Time) returns (results: seq<bool>, ghost states: seq<Snap>)
      requires Valid() && forall i :: 0 <= i < |ops| ==> OpOk(sites, ops[i])
      modifies this`accepted, this`times, this`alive, queue, queue.blk
      modifies sink`batch, sink`written, sink`lastFlush
      modifies sink.scratch, sink.scratch.inner, sink.timeCache, sink.timeCache.buf
      ensures Valid() && Follows(sites, tid, ops, results, states)
      ensures states[0] == old(Snapshot()) && states[|results|] == Snapshot()
      ensures |results| < |ops| ==>
                ops[|results|].Publish? && !Trusted(queue.View(Ready, Waiting), ToMsg(ops[|results|].r))
      ensures old(Steady(clock, Snapshot())) && OneClock(clock, ops) ==>
                EndToEnd(sites, tid, clock, Snapshot()) &&
                accepted == old(accepted) + Chosen(ops, results)
    {
      hide Inv, Contents, Rendered, Args2, Trusted, Performed, Conserves, OpOk, Steady, EndToEnd;
      results, states := [], [Snapshot()];
      while |results| < |ops|
        invariant Valid() && Follows(sites, tid, ops, results, states)
        invariant states[0] == old(Snapshot()) && states[|results|] == Snapshot()
        decreases |ops| - |results|
      {
        var done, ok := Perform(ops[|results|]);
        if !done {
          break;
        }
        results, states := results + [ok], states + [Snapshot()];
      }
      if old(Steady(clock, Snapshot())) && OneClock(clock, ops) {
        Conservation(sites, tid, clock, ops, results, states, |results|);
        assert results[..|results|] == results;
      }
    }
  }
}
