/** The clock in the source's form: module-level state updated in place, with readings of the
    hardware counter and the system clock passed in. */
module ClockObject {
  import opened Bits
  import opened Seqlock
  import opened ClockMath

  /** The writer alone, from inside `save_param` to its return. */
  function WriteOut(m: Machine): Machine
    decreases match m.writer case Free => 0 case PutErr(_) => 7 case PutNext(_) => 6 case Lock(_) => 5
              case PutTsc(_, _) => 4 case PutNs(_, _) => 3 case PutRate(_, _) => 2 case Unlock(_, _) => 1
  {
    if m.writer.Free? then m else WriteOut(WriterStep(m).0)
  }

  lemma {:induction false} WriteOutIs(m: Machine, s: Save)
    requires m.writer.Free?
    ensures WriteOut(Step(m, Begin(s)).0) ==
            m.(seqNo := m.seqNo + 2, baseTsc := s.baseTsc, baseNs := s.baseNs, nsPerTsc := s.rate,
               nextCalibrateTsc := NextCalibration(m, s),
               baseNsErr := if m.asWritten then m.baseNsErr else s.baseNs - s.sysNs)
  {
    var m1 := WriterStep(Step(m, Begin(s)).0).0;
    var m2 := WriterStep(m1).0;
    var m3 := WriterStep(m2).0;
    var m4 := WriterStep(m3).0;
    var m5 := WriterStep(m4).0;
    var m6 := WriterStep(m5).0;
    assert WriteOut(m5) == WriteOut(m6) == WriterStep(m6).0;
    assert WriteOut(m3) == WriteOut(m4) == WriteOut(m5);
    assert WriteOut(m1) == WriteOut(m2) == WriteOut(m3);
  }

  lemma DueAfterBase(p: Params, interval: int, due: int)
    requires interval >= 1000 && DueOnTime(p, interval, due)
    ensures p.baseTsc <= due
  {
  }

  datatype Outcome = NotDue | DividedByZero | Saved

  class TscClock {
    var seqNo: nat
    var baseTsc: int
    var baseNs: int
    var baseNsErr: int
    var nsPerTsc: real
    var nextCalibrateTsc: int
    var intervalNs: int

    ghost function View(): Machine
      reads this
    {
      Machine(true, seqNo, baseTsc, baseNs, baseNsErr, nsPerTsc, nextCalibrateTsc, intervalNs, Free, [])
    }

    /** No save in progress, and BASE_NS_ERR still has its initial value: nothing writes it. */
    ghost predicate Valid()
      reads this
    {
      seqNo % 2 == 0 && baseNsErr == 0
    }

    ghost function Current(): Params
      reads this
    {
      Params(baseTsc, baseNs, nsPerTsc)
    }

    /** `early` is what BASE_NS holds between the first store and the lock. */
    method SaveParam(newTsc: int, newNs: int, sysNs: int, newRate: real) returns (ghost early: int)
      requires Valid()
      modifies this
      ensures early == newNs - sysNs
      ensures newRate > 0.0 ==> DueOnTime(Params(newTsc, newNs, newRate), intervalNs, nextCalibrateTsc)
      ensures newRate > 0.0 && intervalNs >= 1000 ==>
                newTsc <= nextCalibrateTsc &&
                (newNs + intervalNs - 1000) as real - newRate - 1.0 < Convert(Current(), nextCalibrateTsc) as real &&
                Convert(Current(), nextCalibrateTsc) <= newNs + intervalNs - 1000
      ensures Valid() && Current() == Params(newTsc, newNs, newRate) && intervalNs == old(intervalNs)
      ensures View() == WriteOut(Step(old(View()), Begin(Save(newTsc, newNs, sysNs, newRate))).0)
    {
      hide Convert, DueOnTime;
      WriteOutIs(View(), Save(newTsc, newNs, sysNs, newRate));
      if newRate > 0.0 {
        DueIs(Params(newTsc, newNs, newRate), intervalNs);
      }
      baseNs := newNs - sysNs;
      early := baseNs;
      nextCalibrateTsc :=
        if newRate == 0.0 then newTsc else newTsc + Truncate((intervalNs - 1000) as real / newRate);
      var seen := seqNo;
      seqNo := seen + 1;
      baseTsc := newTsc;
      baseNs := newNs;
      nsPerTsc := newRate;
      seqNo := seen + 2;
      if newRate > 0.0 && intervalNs >= 1000 {
        DueReads(Current(), intervalNs, nextCalibrateTsc);
        DueAfterBase(Current(), intervalNs, nextCalibrateTsc);
      }
    }

    /** With no save in progress the loop returns on its first turn. */
    method Tsc2Ns(tsc: int) returns (ns: int)
      requires Valid()
      ensures ns == Convert(Current(), tsc)
    {
      ns := 0;
      var retry := true;
      while retry
        invariant !retry ==> ns == Convert(Current(), tsc)
        decreases retry
      {
        var before := seqNo - seqNo % 2;
        var diffTsc := (tsc - baseTsc) as real;
        var diffNs := Truncate(diffTsc * nsPerTsc);
        ns := baseNs + diffNs;
        var after := seqNo;
        retry := before != after;
      }
    }

    /** `now` is the counter at entry; (tsc, ns) is the pair `sync_time` returns. */
    method Calibrate(now: int, tsc: int, ns: int) returns (outcome: Outcome, ghost early: int)
      requires Valid() && intervalNs > 0
      modifies this
      ensures Valid() && intervalNs == old(intervalNs)
      ensures outcome == NotDue <==> now < old(nextCalibrateTsc)
      ensures outcome == DividedByZero <==>
              now >= old(nextCalibrateTsc) && Elapsed(old(Current()), Sample(tsc, ns, 0)) == 0
      ensures outcome != Saved ==> Current() == old(Current()) && nextCalibrateTsc == old(nextCalibrateTsc)
      ensures outcome == Saved ==>
                Current() == Calibrated(old(Current()), Sample(tsc, ns, 0), intervalNs) &&
                early == Convert(old(Current()), tsc) - ns
      ensures outcome == Saved && Current().rate > 0.0 ==> DueOnTime(Current(), intervalNs, nextCalibrateTsc)
      ensures outcome == Saved && Current().rate > 0.0 && intervalNs >= 1000 ==>
                var shown := Convert(Current(), nextCalibrateTsc);
                && Current().baseTsc <= nextCalibrateTsc
                && (Current().baseNs + intervalNs - 1000) as real - Current().rate - 1.0 < shown as real
                && shown <= Current().baseNs + intervalNs - 1000
    {
      hide Convert, DueOnTime;
      early := 0;
      if now < nextCalibrateTsc {
        return NotDue, 0;
      }
      var calculated := Tsc2Ns(tsc);
      var nsErr := calculated - ns;
      var elapsed := ns - baseNs + baseNsErr;
      if elapsed == 0 {
        return DividedByZero, 0;
      }
      var expected := nsErr + TruncDiv((nsErr - baseNsErr) * intervalNs, elapsed);
      var newRate := nsPerTsc * (1.0 - expected as real / intervalNs as real);
      early := SaveParam(tsc, calculated, ns, newRate);
      outcome := Saved;
    }

    /** `init`: the first save has no base error, and its rate is the slope between the samples. */
    method Initialise(interval: int, firstTsc: int, firstNs: int, laterTsc: int, laterNs: int)
      returns (ghost early: int)
      requires Valid() && laterTsc != firstTsc
      modifies this
      ensures early == 0
      ensures Current().rate > 0.0 ==> DueOnTime(Current(), interval, nextCalibrateTsc)
      ensures Current().rate > 0.0 && interval >= 1000 ==>
                var shown := Convert(Current(), nextCalibrateTsc);
                && firstTsc <= nextCalibrateTsc
                && (firstNs + interval - 1000) as real - Current().rate - 1.0 < shown as real
                && shown <= firstNs + interval - 1000
      ensures Valid() && intervalNs == interval
      ensures Current().baseTsc == firstTsc && Current().baseNs == firstNs
      ensures Current().rate * (laterTsc - firstTsc) as real == (laterNs - firstNs) as real
      ensures (laterTsc - firstTsc > 0) == (laterNs - firstNs > 0) && laterNs != firstNs ==>
                Current().rate > 0.0
    {
      hide Convert, DueOnTime;
      intervalNs := interval;
      var rate := (laterNs - firstNs) as real / (laterTsc - firstTsc) as real;
      assert rate * (laterTsc - firstTsc) as real == (laterNs - firstNs) as real;
      early := SaveParam(firstTsc, firstNs, firstNs, rate);
    }
  }

  function Gap(counter: seq<int>, i: nat): int
    requires 1 <= i < |counter|
  {
    counter[i] - counter[i - 1]
  }

  /** Of the readings before `upto`, b is the first with the smallest gap to its predecessor. */
  predicate Closest(counter: seq<int>, upto: nat, b: nat)
  {
    && 1 <= b < upto <= |counter|
    && (forall i :: 1 <= i < upto ==> Gap(counter, b) <= Gap(counter, i))
    && (forall i :: 1 <= i < b ==> Gap(counter, b) < Gap(counter, i))
  }

  /** `sync_time`: of the N paired readings, the one whose two surrounding counter readings are
      closest is used; the counter value returned is their midpoint. `counter` and `system` are the
      values the hardware gives, in order. */
  method SyncTime(n: nat, counter: seq<int>, system: seq<int>) returns (tscOut: int, nsOut: int)
    requires n >= 1 && |counter| == n + 1 && |system| == n
    ensures exists b: nat {:trigger Closest(counter, n + 1, b)} ::
              Closest(counter, n + 1, b) && nsOut == system[b - 1] && Midpoint(counter[b - 1], counter[b], tscOut)
  {
    var tsc := new int[n + 1];
    var ns := new int[n + 1];
    tsc[0] := counter[0];
    for i := 1 to n + 1
      invariant tsc[..i] == counter[..i]
      invariant ns[1..i] == system[..i - 1]
    {
      ns[i] := system[i - 1];
      tsc[i] := counter[i];
    }
    assert tsc[..] == tsc[..n + 1] == counter[..n + 1] == counter;
    assert ns[1..] == ns[1..n + 1] == system[..n] == system;
    var pick := 1;
    for i := 2 to n + 1
      invariant Closest(counter, i, pick)
    {
      assert tsc[..][i] == counter[i] && tsc[..][i - 1] == counter[i - 1];
      assert tsc[..][pick] == counter[pick] && tsc[..][pick - 1] == counter[pick - 1];
      if tsc[i] - tsc[i - 1] < tsc[pick] - tsc[pick - 1] {
        pick := i;
      }
    }
    assert tsc[..][pick] == counter[pick] && tsc[..][pick - 1] == counter[pick - 1];
    assert ns[1..][pick - 1] == system[pick - 1];
    tscOut := (tsc[pick] + tsc[pick - 1]) / 2;
    nsOut := ns[pick];
    assert Midpoint(counter[pick - 1], counter[pick], tscOut);
  }

  /** Halfway between, and between them if they are in order. */
  predicate Midpoint(low: int, high: int, mid: int)
  {
    2 * mid <= low + high <= 2 * mid + 1 && (low <= high ==> low <= mid <= high)
  }
}
