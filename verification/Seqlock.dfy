/** The clock parameters behind their sequence counter: one writer in `save_param`, any number of
    readers in `tsc2ns`, every load and store one step.

    `asWritten` selects the code as it stands, where the first store of `save_param` puts the base
    error into BASE_NS; with `asWritten` false that store goes to BASE_NS_ERR, the variable its
    comment names.
  */
module Seqlock {
  datatype Save = Save(baseTsc: int, baseNs: int, sysNs: int, rate: real)

  datatype Writer =
    | Free
    | PutErr(s: Save)
    | PutNext(s: Save)
    | Lock(s: Save)
    | PutTsc(s: Save, seqNo: nat)
    | PutNs(s: Save, seqNo: nat)
    | PutRate(s: Save, seqNo: nat)
    | Unlock(s: Save, seqNo: nat)

  /** `early` remembers where the writer was at the reader's load of BASE_NS: between the first store
      of a save and its lock. */
  datatype Reader =
    | Enter
    | ReadTsc(before: nat)
    | ReadRate(before: nat, tsc: int)
    | ReadNs(before: nat, tsc: int, rate: real)
    | Check(before: nat, tsc: int, rate: real, ns: int, early: bool)

  datatype Machine = Machine(
    asWritten: bool,
    seqNo: nat, baseTsc: int, baseNs: int, baseNsErr: int, nsPerTsc: real,
    nextCalibrateTsc: int, intervalNs: int,
    writer: Writer, readers: seq<Reader>)

  datatype Action =
    | Begin(s: Save)   // the writer enters `save_param`
    | Write            // the writer takes its next step
    | Read(i: nat)     // reader i takes its next step

  datatype Event =
    | Started(s: Save)
    | Returned(i: nat, before: nat, tsc: int, rate: real, ns: int, early: bool)  // what it was computed from
    | Retried(i: nat)

  const INITIAL := Save(0, 0, 0, 0.0)

  function Init(asWritten: bool, readers: nat): Machine
  {
    Machine(asWritten, 0, 0, 0, 0, 0.0, 0, 0, Free, seq(readers, _ => Enter))
  }

  /** What the first store of `save_param` computes. */
  function BaseError(s: Save): int { s.baseNs - s.sysNs }

  /** `x as i64` for a float. */
  function Truncate(x: real): int { if x >= 0.0 then x.Floor else -(-x).Floor }

  /** It drops the fraction, toward zero from either side. */
  lemma TruncateDrops(x: real)
    ensures x >= 0.0 ==> Truncate(x) as real <= x < Truncate(x) as real + 1.0
    ensures x < 0.0 ==> Truncate(x) as real - 1.0 < x <= Truncate(x) as real
  {
  }

  function NextCalibration(m: Machine, s: Save): int
  {
    if s.rate == 0.0 then s.baseTsc
    else s.baseTsc + Truncate((m.intervalNs - 1000) as real / s.rate)
  }

  function WriterStep(m: Machine): (Machine, seq<Event>)
  {
    match m.writer
    case Free => (m, [])
    case PutErr(s) =>
      ((if m.asWritten then m.(baseNs := BaseError(s)) else m.(baseNsErr := BaseError(s)))
       .(writer := PutNext(s)), [])
    case PutNext(s) => (m.(nextCalibrateTsc := NextCalibration(m, s), writer := Lock(s)), [])
    case Lock(s) => (m.(seqNo := m.seqNo + 1, writer := PutTsc(s, m.seqNo)), [])
    case PutTsc(s, q) => (m.(baseTsc := s.baseTsc, writer := PutNs(s, q)), [])
    case PutNs(s, q) => (m.(baseNs := s.baseNs, writer := PutRate(s, q)), [])
    case PutRate(s, q) => (m.(nsPerTsc := s.rate, writer := Unlock(s, q)), [])
    case Unlock(s, q) => (m.(seqNo := q + 2, writer := Free), [])
  }

  /** The writer has made the first store of a save and has not yet locked. */
  predicate Early(w: Writer) { w.PutNext? || w.Lock? }

  function ReaderStep(m: Machine, i: nat): (Machine, seq<Event>)
    requires i < |m.readers|
  {
    match m.readers[i]
    case Enter => (m.(readers := m.readers[i := ReadTsc(m.seqNo - m.seqNo % 2)]), [])
    case ReadTsc(b) => (m.(readers := m.readers[i := ReadRate(b, m.baseTsc)]), [])
    case ReadRate(b, t) => (m.(readers := m.readers[i := ReadNs(b, t, m.nsPerTsc)]), [])
    case ReadNs(b, t, rate) => (m.(readers := m.readers[i := Check(b, t, rate, m.baseNs, Early(m.writer))]), [])
    case Check(b, t, rate, ns, early) =>
      (m.(readers := m.readers[i := Enter]),
       if b == m.seqNo then [Returned(i, b, t, rate, ns, early)] else [Retried(i)])
  }

  function Step(m: Machine, a: Action): (Machine, seq<Event>)
  {
    match a
    case Begin(s) => if m.writer.Free? then (m.(writer := PutErr(s)), [Started(s)]) else (m, [])
    case Write => WriterStep(m)
    case Read(i) => if i < |m.readers| then ReaderStep(m, i) else (m, [])
  }

  function Run(m: Machine, schedule: seq<Action>): (Machine, seq<Event>)
    decreases |schedule|
  {
    if schedule == [] then (m, [])
    else
      var (m1, now) := Step(m, schedule[0]);
      var (m2, later) := Run(m1, schedule[1..]);
      (m2, now + later)
  }

  // ----- invariant -----

  /** The index of the last completed save. */
  function Done(m: Machine, saves: seq<Save>): int
  {
    if m.writer.Free? then |saves| - 1 else |saves| - 2
  }

  predicate Locked(w: Writer) { w.PutTsc? || w.PutNs? || w.PutRate? || w.Unlock? }

  /** Which save each variable's value comes from, by the writer's position. */
  predicate WriterInv(m: Machine, saves: seq<Save>)
  {
    var done := Done(m, saves);
    && 0 <= done < |saves|
    && (!m.writer.Free? ==> m.writer.s == saves[done + 1])
    && m.seqNo == 2 * done + (if Locked(m.writer) then 1 else 0)
    && (Locked(m.writer) ==> m.writer.seqNo == 2 * done)
    && m.baseTsc == (if m.writer.PutNs? || m.writer.PutRate? || m.writer.Unlock?
                     then saves[done + 1] else saves[done]).baseTsc
    && m.nsPerTsc == (if m.writer.Unlock? then saves[done + 1] else saves[done]).rate
    && m.baseNs == (if m.writer.Free? || m.writer.PutErr? then saves[done].baseNs
                    else if m.writer.PutRate? || m.writer.Unlock? then saves[done + 1].baseNs
                    else if m.asWritten then saves[done + 1].baseNs - saves[done + 1].sysNs
                    else saves[done].baseNs)
  }

  /** The base-ns value that goes with save j: its own, unless it was loaded early in the code as
      written; then it is the error of the save that was beginning. */
  predicate NsOf(asWritten: bool, saves: seq<Save>, j: nat, ns: int, early: bool)
    requires j < |saves|
  {
    if asWritten && early then j + 1 < |saves| && ns == saves[j + 1].baseNs - saves[j + 1].sysNs
    else ns == saves[j].baseNs
  }

  /** As long as the counter still shows what the reader saw, its values are those of one save. */
  predicate ReaderInv(m: Machine, saves: seq<Save>, r: Reader)
  {
    r.Enter? ||
    (r.before <= m.seqNo && r.before % 2 == 0 &&
     (r.before == m.seqNo && r.before / 2 < |saves| ==>
        var j := r.before / 2;
        && (!r.ReadTsc? ==> r.tsc == saves[j].baseTsc)
        && (r.ReadNs? || r.Check? ==> r.rate == saves[j].rate)
        && (r.Check? ==> NsOf(m.asWritten, saves, j, r.ns, r.early))))
  }

  predicate Inv(m: Machine, saves: seq<Save>)
  {
    WriterInv(m, saves) && forall i :: 0 <= i < |m.readers| ==> ReaderInv(m, saves, m.readers[i])
  }

  function SavesOf(trace: seq<Event>): seq<Save>
  {
    if trace == [] then []
    else (if trace[0].Started? then [trace[0].s] else []) + SavesOf(trace[1..])
  }

  /** What a result was computed from: time base and rate of the save its counter value stands for,
      and the base-ns that goes with it. */
  predicate Consistent(asWritten: bool, saves: seq<Save>, e: Event)
  {
    e.Returned? ==>
      var j := e.before / 2;
      && j < |saves| && e.tsc == saves[j].baseTsc && e.rate == saves[j].rate
      && NsOf(asWritten, saves, j, e.ns, e.early)
  }

  lemma {:induction false} WriterKeeps(m: Machine, saves: seq<Save>)
    requires Inv(m, saves)
    ensures Inv(WriterStep(m).0, saves) && WriterStep(m).1 == []
  {
  }

  lemma {:induction false} ReaderMoves(m: Machine, saves: seq<Save>, i: nat)
    requires WriterInv(m, saves) && i < |m.readers| && ReaderInv(m, saves, m.readers[i])
    ensures ReaderInv(ReaderStep(m, i).0, saves, ReaderStep(m, i).0.readers[i])
    ensures forall e :: e in ReaderStep(m, i).1 ==> !e.Started? && Consistent(m.asWritten, saves, e)
  {
  }

  lemma {:induction false} ReaderKeeps(m: Machine, saves: seq<Save>, i: nat)
    requires Inv(m, saves) && i < |m.readers|
    ensures Inv(ReaderStep(m, i).0, saves)
    ensures forall e :: e in ReaderStep(m, i).1 ==> !e.Started? && Consistent(m.asWritten, saves, e)
  {
    var m' := ReaderStep(m, i).0;
    ReaderMoves(m, saves, i);
    assert m' == m.(readers := m.readers[i := m'.readers[i]]);
    hide ReaderStep, Consistent, NsOf;
    forall k | 0 <= k < |m'.readers|
      ensures ReaderInv(m', saves, m'.readers[k])
    {
      assert ReaderInv(m, saves, m.readers[k]);
    }
  }

  lemma {:induction false} BeginKeeps(m: Machine, saves: seq<Save>, s: Save)
    requires Inv(m, saves) && m.writer.Free?
    ensures Inv(Step(m, Begin(s)).0, saves + [s])
  {
  }

  /** Every step keeps the invariant for the saves started so far, and every result it returns was
      computed from one save (or with the next save's early error, as written). */
  lemma {:induction false} StepKeeps(m: Machine, saves: seq<Save>, a: Action)
    requires Inv(m, saves)
    ensures var (m', now) := Step(m, a);
            && |now| <= 1 && m'.asWritten == m.asWritten
            && Inv(m', saves + SavesOf(now))
            && forall e :: e in now ==> Consistent(m.asWritten, saves, e)
  {
    var (m', now) := Step(m, a);
    assert now != [] ==> now[1..] == [];
    assert saves + [] == saves;
    match a
    case Begin(s) => if m.writer.Free? { BeginKeeps(m, saves, s); }
    case Write => WriterKeeps(m, saves);
    case Read(i) => if i < |m.readers| { ReaderKeeps(m, saves, i); }
  }

  lemma {:induction false} ConsistentGrows(asWritten: bool, saves: seq<Save>, more: seq<Save>, e: Event)
    requires Consistent(asWritten, saves, e)
    ensures Consistent(asWritten, saves + more, e)
  {
    assert e.Returned? && e.before / 2 + 1 < |saves| ==> (saves + more)[e.before / 2 + 1] == saves[e.before / 2 + 1];
  }

  lemma {:induction false} SavesSplit(now: seq<Event>, later: seq<Event>)
    requires |now| <= 1
    ensures SavesOf(now + later) == SavesOf(now) + SavesOf(later)
  {
    if now == [] {
      assert now + later == later;
    } else {
      assert (now + later)[1..] == later;
      assert now[1..] == [];
    }
  }

  lemma {:induction false} RunKeeps(m: Machine, saves: seq<Save>, schedule: seq<Action>)
    requires Inv(m, saves)
    ensures var (m', trace) := Run(m, schedule);
            && Inv(m', saves + SavesOf(trace))
            && forall e :: e in trace ==> Consistent(m.asWritten, saves + SavesOf(trace), e)
    decreases |schedule|
  {
    hide Inv, Step, Consistent;
    if schedule == [] {
      assert saves + [] == saves;
    } else {
      StepKeeps(m, saves, schedule[0]);
      var (m1, now) := Step(m, schedule[0]);
      RunKeeps(m1, saves + SavesOf(now), schedule[1..]);
      var (m2, later) := Run(m1, schedule[1..]);
      SavesSplit(now, later);
      var all := saves + SavesOf(now + later);
      assert all == (saves + SavesOf(now)) + SavesOf(later);
      forall e | e in now + later
        ensures Consistent(m.asWritten, all, e)
      {
        if e in now {
          ConsistentGrows(m.asWritten, saves, SavesOf(now + later), e);
        }
      }
    }
  }

  /** In every interleaving of one writer and any number of readers, from start-up on. */
  lemma {:induction false} ReadersSeeOneSave(asWritten: bool, readers: nat, schedule: seq<Action>, e: Event)
    requires e in Run(Init(asWritten, readers), schedule).1
    ensures Consistent(asWritten, [INITIAL] + SavesOf(Run(Init(asWritten, readers), schedule).1), e)
  {
    assert Inv(Init(asWritten, readers), [INITIAL]);
    hide Inv;
    RunKeeps(Init(asWritten, readers), [INITIAL], schedule);
  }

  /** So the whole triple is that of the save the reader's counter value stands for if and only if
      the code is the redirected one, or BASE_NS was not loaded early, or the next save's error
      happens to be the base it replaces. */
  lemma {:induction false} TripleFromOneSave(asWritten: bool, readers: nat, schedule: seq<Action>, e: Event)
    requires e in Run(Init(asWritten, readers), schedule).1 && e.Returned?
    ensures var saves, j := [INITIAL] + SavesOf(Run(Init(asWritten, readers), schedule).1), e.before / 2;
            && j < |saves| && (asWritten && e.early ==> j + 1 < |saves|)
            && ((e.tsc, e.rate, e.ns) == (saves[j].baseTsc, saves[j].rate, saves[j].baseNs) <==>
                !asWritten || !e.early || saves[j + 1].baseNs - saves[j + 1].sysNs == saves[j].baseNs)
  {
    hide Run;
    ReadersSeeOneSave(asWritten, readers, schedule, e);
  }

  // ----- the early store is visible -----

  lemma {:induction false} RunCons(m: Machine, a: Action, rest: seq<Action>)
    ensures Run(m, [a] + rest) ==
            (Run(Step(m, a).0, rest).0, Step(m, a).1 + Run(Step(m, a).0, rest).1)
  {
    assert ([a] + rest)[1..] == rest;
  }

  /** A reader that runs between the first store of a save and its lock returns with the error in
      place of the base, in the code as written; redirected, it returns the completed save. */
  lemma {:induction false} EarlyStoreWitness(m: Machine, saves: seq<Save>, s: Save)
    requires Inv(m, saves) && m.writer.Free? && |m.readers| == 1 && m.readers[0].Enter?
    ensures var done := saves[|saves| - 1];
            Run(m, [Begin(s), Write, Read(0), Read(0), Read(0), Read(0), Read(0)]).1 ==
            [Started(s),
             Returned(0, m.seqNo, done.baseTsc, done.rate,
                      if m.asWritten then s.baseNs - s.sysNs else done.baseNs, true)]
  {
    var looks := [Read(0), Read(0), Read(0), Read(0), Read(0)];
    var m1 := Step(m, Begin(s)).0;
    var m2 := Step(m1, Write).0;
    RunCons(m, Begin(s), [Write] + looks);
    RunCons(m1, Write, looks);
    SoloRead(m2);
    assert [Begin(s)] + ([Write] + looks) ==
           [Begin(s), Write, Read(0), Read(0), Read(0), Read(0), Read(0)];
  }

  /** A reader left alone while the counter is even returns in five steps with what is there. */
  lemma {:induction false} SoloRead(m: Machine)
    requires |m.readers| == 1 && m.readers[0].Enter? && m.seqNo % 2 == 0
    ensures Run(m, [Read(0), Read(0), Read(0), Read(0), Read(0)]).1 ==
            [Returned(0, m.seqNo, m.baseTsc, m.nsPerTsc, m.baseNs, Early(m.writer))]
  {
    hide Run, Step;
    var q, t, r := m.seqNo, m.baseTsc, m.nsPerTsc;
    var m1, m2, m3 := Solo(m, ReadTsc(q)), Solo(m, ReadRate(q, t)), Solo(m, ReadNs(q, t, r));
    var m4, m5 := Solo(m, Check(q, t, r, m.baseNs, Early(m.writer))), Solo(m, Enter);
    SoloSteps(m);
    RunCons(m4, Read(0), []);
    RunNone(m5);
    RunQuiet(m3, m4, [Read(0)] + []);
    RunQuiet(m2, m3, [Read(0)] + ([Read(0)] + []));
    RunQuiet(m1, m2, [Read(0)] + ([Read(0)] + ([Read(0)] + [])));
    RunQuiet(m, m1, [Read(0)] + ([Read(0)] + ([Read(0)] + ([Read(0)] + []))));
    assert [Read(0)] + ([Read(0)] + ([Read(0)] + ([Read(0)] + ([Read(0)] + [])))) ==
           [Read(0), Read(0), Read(0), Read(0), Read(0)];
  }

  function Solo(m: Machine, r: Reader): Machine { m.(readers := [r]) }

  lemma RunNone(m: Machine)
    ensures Run(m, []) == (m, [])
  {
  }

  lemma {:induction false} RunQuiet(m: Machine, m1: Machine, rest: seq<Action>)
    requires Step(m, Read(0)) == (m1, [])
    ensures Run(m, [Read(0)] + rest).1 == Run(m1, rest).1
  {
    hide Step, Run;
    RunCons(m, Read(0), rest);
    assert [] + Run(m1, rest).1 == Run(m1, rest).1;
  }

  lemma {:induction false} SoloSteps(m: Machine)
    requires |m.readers| == 1 && m.readers[0].Enter? && m.seqNo % 2 == 0
    ensures var q, t, r := m.seqNo, m.baseTsc, m.nsPerTsc;
            var ns, early := m.baseNs, Early(m.writer);
            && Step(m, Read(0)) == (Solo(m, ReadTsc(q)), [])
            && Step(Solo(m, ReadTsc(q)), Read(0)) == (Solo(m, ReadRate(q, t)), [])
            && Step(Solo(m, ReadRate(q, t)), Read(0)) == (Solo(m, ReadNs(q, t, r)), [])
            && Step(Solo(m, ReadNs(q, t, r)), Read(0)) == (Solo(m, Check(q, t, r, ns, early)), [])
            && Step(Solo(m, Check(q, t, r, ns, early)), Read(0)) ==
               (Solo(m, Enter), [Returned(0, q, t, r, ns, early)])
  {
    var q, t, r := m.seqNo, m.baseTsc, m.nsPerTsc;
    var check := Check(q, t, r, m.baseNs, Early(m.writer));
    assert m.readers == [Enter];
    assert [Enter][0 := ReadTsc(q)] == [ReadTsc(q)];
    assert [ReadTsc(q)][0 := ReadRate(q, t)] == [ReadRate(q, t)];
    assert [ReadRate(q, t)][0 := ReadNs(q, t, r)] == [ReadNs(q, t, r)];
    assert [ReadNs(q, t, r)][0 := check] == [check];
    assert [check][0 := Enter] == [Enter];
  }
}
