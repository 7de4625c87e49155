/** The console sink: one record in, one line out, in batches. */
module Sink {
  import opened Bits
  import opened Wrappers
  import opened TimeText
  import opened ArgsCodec
  import opened Scratch

  /** A log statement: where it is, and how its format string renders two arguments as the pieces
      the formatter writes one after the other. */
  datatype Site = Site(modulePath: seq<byte>, fileName: seq<byte>, line: seq<byte>,
                       format: (Arg, Arg) -> seq<seq<byte>>)

  function LevelText(level: nat): seq<byte>
    requires level < 6
  {
    match level
    case 0 => [116, 114, 97, 99, 101]
    case 1 => [100, 101, 98, 117, 103]
    case 2 => [27, 91, 51, 50, 109, 105, 110, 102, 111, 27, 91, 109, 32]
    case 3 => [27, 91, 51, 49, 109, 119, 97, 114, 110, 27, 91, 109, 32]
    case 4 => [27, 91, 51, 49, 109, 101, 114, 114, 111, 114, 27, 91, 109]
    case 5 => [117, 110, 107, 32, 32]
  }

  function Flat(pieces: seq<seq<byte>>): seq<byte>
  {
    if pieces == [] then [] else pieces[0] + Flat(pieces[1..])
  }

  function Place(site: Site): seq<byte>
  {
    site.modulePath + [58, 58] + site.fileName + [35] + site.line + [93, 32]
  }

  function SiteText(site: Site, a1: Arg, a2: Arg): seq<byte> { Place(site) + Flat(site.format(a1, a2)) }

  function Prefix(tid: nat, ns: nat): (s: seq<byte>)
    requires tid < 32
    ensures |s| == 29
  {
    [91] + Stamp(ns) + [32] + TidText(tid) + [32]
  }

  /** The line of a record: a fixed function of its contents and of the time it stands for. */
  function Line(tid: nat, level: nat, ns: nat, site: Site, a1: Arg, a2: Arg): seq<byte>
    requires tid < 32 && level < 6
  {
    Prefix(tid, ns) + LevelText(level) + SiteText(site, a1, a2) + [10]
  }

  // ----- what a line says -----

  /** The bytes of an ASCII text. */
  function Ascii(text: string): (s: seq<byte>)
    ensures |s| == |text|
  {
    seq(|text|, i requires 0 <= i < |text| => text[i] as int % 256)
  }

  /** How a level is shown, by its number. */
  function LevelName(level: nat): string
    requires level < 6
  {
    if level == 0 then "trace"
    else if level == 1 then "debug"
    else if level == 2 then "\U{1b}[32minfo\U{1b}[m "
    else if level == 3 then "\U{1b}[31mwarn\U{1b}[m "
    else if level == 4 then "\U{1b}[31merror\U{1b}[m"
    else "unk  "
  }

  lemma LevelShown(level: nat)
    requires level < 6
    ensures LevelText(level) == Ascii(LevelName(level))
  {
  }

  /** The pieces of a formatted text appear one after the other. */
  lemma {:induction false} FlatConcat(a: seq<seq<byte>>, b: seq<seq<byte>>)
    ensures Flat(a + b) == Flat(a) + Flat(b)
    ensures |a| == 1 ==> Flat(a) == a[0]
  {
    if a == [] {
      assert a + b == b;
    } else {
      assert (a + b)[1..] == a[1..] + b;
      FlatConcat(a[1..], b);
    }
  }

  lemma {:induction false} SiteTextIs(site: Site, a1: Arg, a2: Arg)
    ensures SiteText(site, a1, a2) ==
            site.modulePath + Ascii("::") + site.fileName + Ascii("#") + site.line + Ascii("] ") +
            Flat(site.format(a1, a2))
  {
    assert Ascii("::") == [58, 58] && Ascii("#") == [35] && Ascii("] ") == [93, 32];
  }

  /** A line reads back: the stamp between `[` and a space, `T=` and the thread id in two digits, the
      level by its own name, then the place, and the text of the record's own first and second
      argument, to the end of the line. */
  lemma {:induction false} LineReads(tid: nat, level: nat, ns: nat, site: Site, a1: Arg, a2: Arg)
    requires tid < 32 && level < 6
    ensures var line, name := Line(tid, level, ns, site, a1, a2), Ascii(LevelName(level));
            && |line| > 29 + |name|
            && line[0] as char == '[' && line[1..23] == Stamp(ns) && line[23] as char == ' '
            && line[24] as char == 'T' && line[25] as char == '=' && IsDigit(line[26]) && IsDigit(line[27])
            && Num2(line, 26) == tid && line[28] as char == ' '
            && line[29..29 + |name|] == name
            && line[29 + |name|..] ==
               site.modulePath + Ascii("::") + site.fileName + Ascii("#") + site.line + Ascii("] ") +
               Flat(site.format(a1, a2)) + [10]
  {
    hide Stamp, TidText, LevelText, SiteText, LevelName, Flat, Ascii;
    LevelShown(level);
    SiteTextIs(site, a1, a2);
    TidReads(tid);
    var line, head := Line(tid, level, ns, site, a1, a2), Prefix(tid, ns);
    var name, text := LevelText(level), SiteText(site, a1, a2);
    assert head[1..23] == Stamp(ns) && head[24..28] == TidText(tid) && head[23] == head[28] == 32;
    assert line == head + (name + (text + [10]));
    assert line[..29] == head && line[29..29 + |name|] == name && line[29 + |name|..] == text + [10];
    assert line[26] == TidText(tid)[2] && line[27] == TidText(tid)[3];
  }

  // ----- the batch -----

  const SCRATCH_BYTES: nat := 512
  const FLUSH_BYTES: nat := 262_144
  const FLUSH_INTERVAL: int := 1_500_000

  /** `a.wrapping_sub(b)` on 64-bit counters. */
  function WrappingSub(a: i64, b: i64): i64 { AsI64(Wrap64(a as int - b)) }

  /** `should_flush`, for a batch of this many bytes. */
  predicate ShouldFlush(bytes: nat, now: i64, lastFlush: i64)
  {
    bytes >= FLUSH_BYTES || WrappingSub(now, lastFlush) >= FLUSH_INTERVAL
  }

  /** The counter has moved on by at least 1_500_000 since the last flush; a difference beyond 64 bits
      is one that wrapped. */
  predicate Aged(now: i64, lastFlush: i64)
  {
    var age := now as int - lastFlush;
    (1_500_000 <= age < 0x8000_0000_0000_0000) ||
    (age < -0x8000_0000_0000_0000 && 1_500_000 <= age + 0x1_0000_0000_0000_0000)
  }

  lemma AgedIs(bytes: nat, now: i64, lastFlush: i64)
    ensures WrappingSub(now, lastFlush) >= FLUSH_INTERVAL <==> Aged(now, lastFlush)
    ensures ShouldFlush(bytes, now, lastFlush) <==> bytes >= 262_144 || Aged(now, lastFlush)
  {
  }

  /** Between counters less than 2^63 apart the wrapped difference is the difference. */
  lemma WrappingSubNear(a: i64, b: i64)
    ensures 0 <= a as int - b < 0x8000_0000_0000_0000 ==> WrappingSub(a, b) as int == a as int - b
  {
  }

  /** What has gone to stdout, what waits in the batch, and when the batch was last written out. */
  datatype Stream = Stream(written: seq<byte>, batch: seq<byte>, lastFlush: i64)

  /** The bytes have joined the batch, and the batch has been written out exactly when `flush`. */
  ghost predicate Joined(o: Stream, bytes: seq<byte>, flush: bool, now: i64, o': Stream)
  {
    o' == if flush then Stream(o.written + (o.batch + bytes), [], now)
          else Stream(o.written, o.batch + bytes, o.lastFlush)
  }

  /** A record's line has joined the batch, with its flush rule. */
  ghost predicate Emitted(o: Stream, line: seq<byte>, tsc: i64, now: i64, o': Stream)
  {
    Joined(o, line, |o.batch| + |line| >= 262_144 || Aged(tsc, o.lastFlush), now, o')
  }

  /** An idle turn, with its flush rule. */
  ghost predicate Idled(o: Stream, now: i64, o': Stream)
  {
    Joined(o, [], o.batch != [] && Aged(now, o.lastFlush), now, o')
  }

  /** `SourceLocation::write_to`: six writes, stopping where one panics. */
  method WriteTo(site: Site, out: MyBytesMut) returns (ok: bool)
    requires out.Valid()
    modifies out, out.inner
    ensures out.Valid()
    ensures ok <==> out.inner.Length > |old(out.Filled())| + |Place(site)|
    ensures ok ==> out.Filled() == old(out.Filled()) + Place(site)
  {
    hide Place;
    PlaceIs(site);
    ghost var f := out.Filled();
    ok := WriteFile(site, out);
    if !ok { return; }
    assert out.Filled() == f + FilePart(site);
    ok := WriteLine(site, out);
    assert f + FilePart(site) + (site.line + [93, 32]) == f + (FilePart(site) + (site.line + [93, 32]));
  }

  function FilePart(site: Site): seq<byte> { site.modulePath + [58, 58] + site.fileName + [35] }

  lemma PlaceIs(site: Site)
    ensures Place(site) == FilePart(site) + (site.line + [93, 32])
  {
  }

  method WriteFile(site: Site, out: MyBytesMut) returns (ok: bool)
    requires out.Valid()
    modifies out, out.inner
    ensures out.Valid()
    ensures ok <==> out.inner.Length >= |old(out.Filled())| + |FilePart(site)|
    ensures ok ==> out.Filled() == old(out.Filled()) + FilePart(site)
  {
    ghost var f := out.Filled();
    ok := out.ExtendFromSlice(site.modulePath);
    if !ok { return; }
    ok := out.ExtendFromSlice([58, 58]);
    if !ok { return; }
    assert out.Filled() == f + (site.modulePath + [58, 58]);
    ok := out.ExtendFromSlice(site.fileName);
    if !ok { return; }
    out.Push(35);
    assert f + (site.modulePath + [58, 58]) + site.fileName + [35] == f + FilePart(site);
  }

  method WriteLine(site: Site, out: MyBytesMut) returns (ok: bool)
    requires out.Valid()
    modifies out, out.inner
    ensures out.Valid()
    ensures ok <==> out.inner.Length > |old(out.Filled())| + |site.line + [93, 32]|
    ensures ok ==> out.Filled() == old(out.Filled()) + (site.line + [93, 32])
  {
    ok := out.ExtendFromSlice(site.line);
    if !ok { return; }
    ok := out.ExtendFromSlice([93, 32]);
  }

  /** `write!` of the formatted arguments. */
  method WritePieces(pieces: seq<seq<byte>>, out: MyBytesMut) returns (ok: bool)
    requires out.Valid() && out.pos < out.inner.Length
    modifies out, out.inner
    ensures out.Valid()
    ensures ok <==> out.inner.Length > |old(out.Filled())| + |Flat(pieces)|
    ensures ok ==> out.Filled() == old(out.Filled()) + Flat(pieces)
  {
    ghost var start := out.Filled();
    assert Flat([]) == [];
    var k := 0;
    assert pieces[k..] == pieces;
    while k < |pieces|
      invariant 0 <= k <= |pieces| && out.Valid() && out.pos < out.inner.Length
      invariant start + Flat(pieces) == out.Filled() + Flat(pieces[k..])
    {
      assert pieces[k..][1..] == pieces[k + 1..];
      ghost var now := out.Filled();
      ok := out.ExtendFromSlice(pieces[k]);
      if !ok {
        assert |start + Flat(pieces)| == |now| + |pieces[k]| + |Flat(pieces[k + 1..])|;
        return;
      }
      assert now + (pieces[k] + Flat(pieces[k + 1..])) == (now + pieces[k]) + Flat(pieces[k + 1..]);
      k := k + 1;
    }
    ok := true;
  }

  /** The shim behind every log call: location, decoded arguments, formatted text. */
  method Shim(site: Site, out: MyBytesMut, bytes: seq<byte>) returns (ok: bool)
    requires out.Valid()
    modifies out, out.inner
    ensures out.Valid()
    ensures DecodeArgs2(bytes).None? ==> !ok
    ensures DecodeArgs2(bytes).Some? ==>
              var (a1, a2) := DecodeArgs2(bytes).value;
              && (ok <==> out.inner.Length > |old(out.Filled())| + |SiteText(site, a1, a2)|)
              && (ok ==> out.Filled() == old(out.Filled()) + SiteText(site, a1, a2))
  {
    hide DecodeArgs2;
    ok := WriteTo(site, out);
    if !ok { return; }
    var args := DecodeArgs2(bytes);
    if args.None? { return false; }
    ok := WritePieces(site.format(args.value.0, args.value.1), out);
  }

  class ConsoleBatchSink {
    var batch: seq<byte>
    var written: seq<byte>          // everything handed to stdout so far
    var lastFlush: i64
    const scratch: MyBytesMut
    const timeCache: TimeCache
    const digits: seq<byte>
    const tidLut: seq<byte>

    ghost predicate Valid()
      reads this, scratch, scratch.inner, timeCache, timeCache.buf
    {
      && scratch.Valid() && scratch.inner.Length == 512
      && timeCache.Valid() && timeCache.buf != scratch.inner
      && Is4DigitTable(digits) && IsTidTable(tidLut)
      && |batch| < 262_144
    }

    constructor (now: i64)
      ensures Valid() && batch == [] && written == [] && lastFlush == now
      ensures fresh(scratch) && fresh(scratch.inner) && fresh(timeCache) && fresh(timeCache.buf)
    {
      var table := Build4DigitTable();
      var tids := NewTidTable();
      var buffer := new MyBytesMut(SCRATCH_BYTES);
      var cache := new TimeCache();
      batch, written, lastFlush := [], [], now;
      scratch, timeCache := buffer, cache;
      digits, tidLut := table[..], tids;
    }

    ghost function Out(): Stream
      reads this
    {
      Stream(written, batch, lastFlush)
    }

    method FlushNow(now: i64)
      modifies this`batch, this`written, this`lastFlush
      ensures batch == [] && written == old(written) + old(batch) && lastFlush == now
    {
      if batch == [] {
        lastFlush := now;
        return;
      }
      written := written + batch;
      batch := [];
      lastFlush := now;
    }

    /** The fixed part of the line. Every unchecked copy and push lands inside the scratch. */
    method WritePrefix(tid: nat, ns: nat)
      requires Valid() && tid < 32 && ns < TWO_63
      modifies scratch, scratch.inner, timeCache, timeCache.buf
      ensures Valid() && scratch.Filled() == Prefix(tid, ns)
    {
      hide Stamp, TidText, DateTimeText;
      WriteStamp(ns);
      scratch.Push(32);
      ghost var mem := scratch.inner[..];
      assert mem[..scratch.pos] == scratch.Filled();
      WriteTid(tidLut, tid, scratch.inner, scratch.pos);
      scratch.Advance(4, mem, TidText(tid));
      scratch.Push(32);
    }

    method WriteSecond(currSec: nat)
      requires Valid() && currSec <= TWO_63 / NS_PER_SEC
      modifies scratch, scratch.inner, timeCache, timeCache.buf
      ensures Valid() && scratch.Filled() == [91] + DateTimeText(currSec)
    {
      hide DateTimeText;
      scratch.Clear();
      scratch.Push(91);
      ghost var mem := scratch.inner[..];
      assert mem[..scratch.pos] == [91];
      timeCache.RefreshDt(currSec, scratch.inner, scratch.pos);
      scratch.Advance(14, mem, DateTimeText(currSec));
    }

    method WriteStamp(ns: nat)
      requires Valid() && ns < TWO_63
      modifies scratch, scratch.inner, timeCache, timeCache.buf
      ensures Valid() && scratch.Filled() == [91] + Stamp(ns)
    {
      hide DateTimeText, ThreeDigits;
      var currSec, subNs := ns / NS_PER_SEC, ns % NS_PER_SEC;
      var subUs := subNs / 1000;
      var currMs, currUs := subUs / 1000, subUs % 1000;
      MicroParts(ns);
      WriteSecond(currSec);
      ghost var mem := scratch.inner[..];
      assert mem[..scratch.pos] == [91] + DateTimeText(currSec);
      LutMsus(digits, scratch.inner, scratch.pos, currMs, currUs);
      scratch.Advance(8, mem, ThreeDigits(currMs) + ThreeDigits(currUs));
    }

    /** One record. The line is emitted whole, and only the scratch is touched when it does not fit;
        it fits exactly when it is at most 512 bytes. `ns` is the record's time, `now` the counter
        read if the batch is flushed. */
    method OnRecord(tid: nat, level: nat, tsc: i64, ns: nat, site: Site, payload: seq<byte>, now: i64)
      returns (ok: bool)
      requires Valid() && tid < 32 && level < 6 && ns < TWO_63
      modifies this`batch, this`written, this`lastFlush
      modifies scratch, scratch.inner, timeCache, timeCache.buf
      ensures Valid()
      ensures !ok ==> Out() == old(Out())
      ensures DecodeArgs2(payload).None? ==> !ok
      ensures DecodeArgs2(payload).Some? ==>
                var (a1, a2) := DecodeArgs2(payload).value;
                && (ok <==> |Line(tid, level, ns, site, a1, a2)| <= 512)
                && (ok ==> Emitted(old(Out()), Line(tid, level, ns, site, a1, a2), tsc, now, Out()))
                && (ok ==> |old(batch)| + |Line(tid, level, ns, site, a1, a2)| <= 262_144 + 511)
      ensures ok && 0 <= tsc as int - old(lastFlush) < 0x8000_0000_0000_0000 ==>
                var (a1, a2) := DecodeArgs2(payload).value;
                var bytes := |old(batch)| + |Line(tid, level, ns, site, a1, a2)|;
                batch == [] <==> bytes >= 262_144 || tsc as int - old(lastFlush) >= 1_500_000
      ensures ok && batch == [] ==> lastFlush == now
      ensures ok && batch != [] ==> lastFlush == old(lastFlush) && written == old(written)
    {
      hide DecodeArgs2, Prefix, SiteText, DateTimeText, ShouldFlush, WrappingSub;
      WritePrefix(tid, ns);
      ok := scratch.ExtendFromSlice(LevelText(level));
      if !ok {
        LevelFits(level);
        assert false;
      }
      ok := Shim(site, scratch, payload);
      if !ok { return; }
      scratch.Push(10);
      AgedIs(|batch| + scratch.pos, tsc, lastFlush);
      batch := batch + scratch.inner[..scratch.pos];
      if ShouldFlush(|batch|, tsc, lastFlush) {
        FlushNow(now);
      }
    }

    /** Writes out a batch that has waited too long; never changes the byte stream. */
    method OnIdle(now: i64)
      requires Valid()
      modifies this`batch, this`written, this`lastFlush
      ensures Valid() && Idled(old(Out()), now, Out())
      ensures old(batch) != [] && 0 <= now as int - old(lastFlush) < 0x8000_0000_0000_0000 ==>
                if now as int - old(lastFlush) >= 1_500_000 then
                  batch == [] && written == old(written + batch) && lastFlush == now
                else
                  Out() == old(Out())
      ensures old(batch) == [] ==> Out() == old(Out())
    {
      hide WrappingSub;
      AgedIs(|batch|, now, lastFlush);
      if batch != [] && WrappingSub(now, lastFlush) >= FLUSH_INTERVAL {
        FlushNow(now);
      }
    }
  }

  lemma LevelFits(level: nat)
    requires level < 6
    ensures |LevelText(level)| <= 13
  {
  }
}
