/** Rendering of times and thread ids: the digit tables, the per-second cache, and the text they
    produce, against a cache-free rendering of the Gregorian date. */
module TimeText {
  import opened Bits
  import opened Calendar

  const I64_MAX: int := 0x7fff_ffff_ffff_ffff
  const NS_PER_SEC: int := 1_000_000_000

  // ----- the two-digit table, one decade per line -----

  const DECADE_0: string := "00010203040506070809"
  const DECADE_1: string := "10111213141516171819"
  const DECADE_2: string := "20212223242526272829"
  const DECADE_3: string := "30313233343536373839"
  const DECADE_4: string := "40414243444546474849"
  const DECADE_5: string := "50515253545556575859"
  const DECADE_6: string := "60616263646566676869"
  const DECADE_7: string := "70717273747576777879"
  const DECADE_8: string := "80818283848586878889"
  const DECADE_9: string := "90919293949596979899"

  function Decade(t: nat): string
    requires t < 10
  {
    match t
    case 0 => DECADE_0
    case 1 => DECADE_1
    case 2 => DECADE_2
    case 3 => DECADE_3
    case 4 => DECADE_4
    case 5 => DECADE_5
    case 6 => DECADE_6
    case 7 => DECADE_7
    case 8 => DECADE_8
    case 9 => DECADE_9
  }

  predicate Entry(row: string, o: nat, t: nat)
  {
    |row| == 20 && 2 * o + 1 < |row| && row[2 * o] as int == 48 + t && row[2 * o + 1] as int == 48 + o
  }

  // One literal row each, so that each is a small proof.
  lemma Decade0(o: nat) requires o < 10 ensures Entry(DECADE_0, o, 0) {}
  lemma Decade1(o: nat) requires o < 10 ensures Entry(DECADE_1, o, 1) {}
  lemma Decade2(o: nat) requires o < 10 ensures Entry(DECADE_2, o, 2) {}
  lemma Decade3(o: nat) requires o < 10 ensures Entry(DECADE_3, o, 3) {}
  lemma Decade4(o: nat) requires o < 10 ensures Entry(DECADE_4, o, 4) {}
  lemma Decade5(o: nat) requires o < 10 ensures Entry(DECADE_5, o, 5) {}
  lemma Decade6(o: nat) requires o < 10 ensures Entry(DECADE_6, o, 6) {}
  lemma Decade7(o: nat) requires o < 10 ensures Entry(DECADE_7, o, 7) {}
  lemma Decade8(o: nat) requires o < 10 ensures Entry(DECADE_8, o, 8) {}
  lemma Decade9(o: nat) requires o < 10 ensures Entry(DECADE_9, o, 9) {}

  function TwoDigits(v: nat): (s: seq<byte>)
    requires v < 100
    ensures |s| == 2
  {
    [48 + v / 10, 48 + v % 10]
  }

  /** Two bytes of the table at offset 2v, as the code copies them. */
  function Dec2(v: nat): seq<byte>
    requires v < 100
  {
    var row := Decade(v / 10);
    if |row| == 20 then [row[2 * (v % 10)] as int % 256, row[2 * (v % 10) + 1] as int % 256] else []
  }

  lemma DecadeEntry(t: nat, o: nat)
    requires t < 10 && o < 10
    ensures Entry(Decade(t), o, t)
  {
    hide Entry;
    match t
    case 0 => Decade0(o);
    case 1 => Decade1(o);
    case 2 => Decade2(o);
    case 3 => Decade3(o);
    case 4 => Decade4(o);
    case 5 => Decade5(o);
    case 6 => Decade6(o);
    case 7 => Decade7(o);
    case 8 => Decade8(o);
    case 9 => Decade9(o);
  }

  lemma Dec2Is(v: nat)
    requires v < 100
    ensures Dec2(v) == TwoDigits(v)
  {
    hide Decade;
    DecadeEntry(v / 10, v % 10);
  }

  // ----- the table of ".ddd" -----

  function ThreeDigits(i: nat): (s: seq<byte>)
    requires i < 1000
    ensures |s| == 4
  {
    [46, 48 + i / 100 % 10, 48 + i / 10 % 10, 48 + i % 10]
  }

  predicate Is4DigitTable(table: seq<byte>)
  {
    |table| == 4000 && forall i :: 0 <= i < 1000 ==> Holds(table, 4 * i, ThreeDigits(i))
  }

  method Build4DigitTable() returns (table: array<byte>)
    ensures fresh(table) && Is4DigitTable(table[..])
  {
    table := new byte[4000];
    var i := 0;
    while i < 1000
      invariant 0 <= i <= 1000
      invariant forall j :: 0 <= j < i ==> Holds(table[..], 4 * j, ThreeDigits(j))
    {
      ghost var was := table[..];
      var off := i * 4;
      table[off] := 46;
      table[off + 1] := 48 + i / 100 % 10;
      table[off + 2] := 48 + i / 10 % 10;
      table[off + 3] := 48 + i % 10;
      forall j | 0 <= j <= i
        ensures Holds(table[..], 4 * j, ThreeDigits(j))
      {
        if j < i {
          assert Holds(was, 4 * j, ThreeDigits(j));
          assert forall k :: 4 * j <= k < 4 * j + 4 ==> table[..][k] == was[k];
        }
      }
      i := i + 1;
    }
  }

  /** `copy_nonoverlapping` into a buffer. */
  method CopyTo(src: seq<byte>, dest: array<byte>, at: nat)
    requires at + |src| <= dest.Length
    modifies dest
    ensures dest[..] == Store(old(dest[..]), at, src)
  {
    for k := 0 to |src|
      invariant forall i :: 0 <= i < dest.Length ==>
        dest[i] == if at <= i < at + k then src[i - at] else old(dest[i])
    {
      dest[at + k] := src[k];
    }
  }

  lemma HoldsIs(s: seq<byte>, at: nat, bytes: seq<byte>)
    requires Holds(s, at, bytes)
    ensures s[at..at + |bytes|] == bytes
  {
  }

  lemma StoreTwice(s: seq<byte>, at: nat, a: seq<byte>, b: seq<byte>)
    requires at + |a| + |b| <= |s|
    ensures Store(Store(s, at, a), at + |a|, b) == Store(s, at, a + b)
  {
  }

  /** `lut_msus`: the millisecond and microsecond digits. */
  method LutMsus(table: seq<byte>, dest: array<byte>, at: nat, ms: nat, us: nat)
    requires Is4DigitTable(table) && ms < 1000 && us < 1000 && at + 8 <= dest.Length
    modifies dest
    ensures dest[..] == Store(old(dest[..]), at, ThreeDigits(ms) + ThreeDigits(us))
  {
    HoldsIs(table, 4 * ms, ThreeDigits(ms));
    HoldsIs(table, 4 * us, ThreeDigits(us));
    CopyTo(table[4 * ms..4 * ms + 4], dest, at);
    CopyTo(table[4 * us..4 * us + 4], dest, at + 4);
    StoreTwice(old(dest[..]), at, ThreeDigits(ms), ThreeDigits(us));
  }

  // ----- the text -----

  /** MM-DD HH:MM:SS of a second count, from the calendar. */
  function DateTimeText(sec: int): (s: seq<byte>)
    ensures |s| == 14
  {
    CivilFromDaysCorrect(sec / 86_400);
    var t, sod := DateOf(sec / 86_400), sec % 86_400;
    TwoDigits(t.m) + [45] + TwoDigits(t.d) + [32] +
    TwoDigits(sod / 3600) + [58] + TwoDigits(sod % 3600 / 60) + [58] + TwoDigits(sod % 60)
  }

  /** The stamp of a record: date, time, milliseconds, microseconds. */
  function Stamp(ns: nat): (s: seq<byte>)
    ensures |s| == 22
  {
    var us := ns % NS_PER_SEC / 1000;
    DateTimeText(ns / NS_PER_SEC) + (ThreeDigits(us / 1000) + ThreeDigits(us % 1000))
  }

  function Num2(s: seq<byte>, at: nat): int
    requires at + 2 <= |s|
  {
    10 * (s[at] as int - 48) + (s[at + 1] as int - 48)
  }

  function Num3(s: seq<byte>, at: nat): int
    requires at + 3 <= |s|
  {
    100 * (s[at] as int - 48) + 10 * (s[at + 1] as int - 48) + (s[at + 2] as int - 48)
  }

  /** Reads a stamp back, given the year it does not show. */
  function ParseStamp(year: int, s: seq<byte>): int
    requires |s| == 22
  {
    var days := DaysFromCivil(Date(year, Num2(s, 0), Num2(s, 3)));
    var sec := days * 86_400 + Num2(s, 6) * 3600 + Num2(s, 9) * 60 + Num2(s, 12);
    sec * 1_000_000_000 + Num3(s, 15) * 1_000_000 + Num3(s, 19) * 1000
  }

  lemma ClockParts(sod: int)
    requires 0 <= sod < 86_400
    ensures sod / 3600 * 3600 + sod % 3600 / 60 * 60 + sod % 60 == sod
  {
  }

  lemma MicroParts(ns: nat)
    ensures var us := ns % NS_PER_SEC / 1000;
            0 <= us / 1000 < 1000 && 0 <= us % 1000 < 1000 &&
            ns / NS_PER_SEC * NS_PER_SEC + us / 1000 * 1_000_000 + us % 1000 * 1000 == ns - ns % 1000
  {
  }

  lemma ThreeRead(i: nat)
    requires i < 1000
    ensures 100 * (i / 100 % 10) + 10 * (i / 10 % 10) + i % 10 == i
  {
    var tens, ones := i / 10, i % 10;
    assert i == 10 * tens + ones;
    var hundreds, digit := tens / 10, tens % 10;
    assert tens == 10 * hundreds + digit;
    Hundreds(i, hundreds, 10 * digit + ones);
  }

  lemma Hundreds(i: nat, q: nat, r: nat)
    requires i < 1000 && i == 100 * q + r && r < 100
    ensures i / 100 == q && i / 100 % 10 == q
  {
  }

  predicate IsDigit(b: byte) { 48 <= b <= 57 }

  /** The stamp has the shape MM-DD HH:MM:SS.mmm.uuu. */
  lemma {:induction false} StampShape(ns: nat)
    ensures var s := Stamp(ns);
            && s[2] as char == '-' && s[5] as char == ' ' && s[8] as char == ':' && s[11] as char == ':'
            && s[14] as char == '.' && s[18] as char == '.'
            && forall i :: 0 <= i < 22 && i !in {2, 5, 8, 11, 14, 18} ==> IsDigit(s[i])
  {
    var sec, us := ns / NS_PER_SEC, ns % NS_PER_SEC / 1000;
    MicroParts(ns);
    DateTimeShape(sec);
    var text, ms, rest := DateTimeText(sec), ThreeDigits(us / 1000), ThreeDigits(us % 1000);
    hide DateTimeText;
    assert Stamp(ns) == text + (ms + rest);
  }

  lemma {:induction false} DateTimeShape(sec: int)
    ensures var s := DateTimeText(sec);
            && s[2] as char == '-' && s[5] as char == ' ' && s[8] as char == ':' && s[11] as char == ':'
            && forall i :: 0 <= i < 14 && i !in {2, 5, 8, 11} ==> IsDigit(s[i])
  {
    hide DateOf, CivilFromDays;
    CivilFromDaysCorrect(sec / 86_400);
  }

  /** The stamp is exact to the microsecond: with the year it reads back to the instant. */
  lemma {:induction false} StampRoundTrip(ns: nat)
    ensures ParseStamp(DateOf(ns / 1_000_000_000 / 86_400).y, Stamp(ns)) == ns - ns % 1000
  {
    hide DateOf, DaysFromCivil, CivilFromDays;
    var sec, us := ns / NS_PER_SEC, ns % NS_PER_SEC / 1000;
    var days, sod := sec / 86_400, sec % 86_400;
    var t, s := DateOf(days), Stamp(ns);
    CivilFromDaysCorrect(days);
    DaysRoundTrip(days);
    ClockParts(sod);
    MicroParts(ns);
    ThreeRead(us / 1000);
    ThreeRead(us % 1000);
    DateTimeRead(sec);
    var text := DateTimeText(sec);
    assert forall i :: 0 <= i < 14 ==> s[i] == text[i];
    assert s[15..18] == ThreeDigits(us / 1000)[1..];
    assert s[19..22] == ThreeDigits(us % 1000)[1..];
    assert t == Date(t.y, t.m, t.d);
  }

  lemma {:induction false} DateTimeRead(sec: int)
    ensures var s, t, sod := DateTimeText(sec), DateOf(sec / 86_400), sec % 86_400;
            Num2(s, 0) == t.m && Num2(s, 3) == t.d && Num2(s, 6) == sod / 3600 &&
            Num2(s, 9) == sod % 3600 / 60 && Num2(s, 12) == sod % 60
  {
    hide DateOf, CivilFromDays;
    CivilFromDaysCorrect(sec / 86_400);
  }

  // ----- the per-second cache -----

  class TimeCache {
    var sec: int
    const buf: array<byte>

    /** The separators are in place, and the text is that of `sec`. I64_MAX is the mark of a cache
        that has no text yet. */
    ghost predicate Valid()
      reads this, buf
    {
      && buf.Length == 32
      && buf[2] == 45 && buf[5] == 32 && buf[8] == 58 && buf[11] == 58
      && (sec != I64_MAX ==> buf[..14] == DateTimeText(sec))
    }

    constructor ()
      ensures Valid() && fresh(buf) && sec == I64_MAX
    {
      sec := I64_MAX;
      buf := new byte[32];
      new;
      CopyTo([48, 48, 45, 48, 48, 32, 48, 48, 58, 48, 48, 58, 48, 48], buf, 0);
    }

    /** Whatever was cached, the bytes written are the text of `currSec`. (A second count equal to
        the mark, on a cache still marked, gets the text the cache was created with.) */
    method RefreshDt(currSec: int, dest: array<byte>, at: nat)
      requires Valid() && dest != buf && at + 14 <= dest.Length
      modifies this`sec, buf, dest
      ensures Valid()
      ensures dest[..] == Store(old(dest[..]), at,
                                if currSec == old(sec) == I64_MAX then old(buf[..14]) else DateTimeText(currSec))
    {
      hide DateOf, CivilFromDays;
      if currSec == sec {
        CopyTo(buf[..14], dest, at);
      } else {
        sec := currSec;
        Fill(currSec);
        CopyTo(buf[..14], dest, at);
      }
    }

    method Fill(currSec: int)
      requires buf.Length == 32
      requires buf[2] == 45 && buf[5] == 32 && buf[8] == 58 && buf[11] == 58
      modifies buf
      ensures buf[2] == 45 && buf[5] == 32 && buf[8] == 58 && buf[11] == 58
      ensures buf[..14] == DateTimeText(currSec)
    {
      hide DateOf, Dec2, TwoDigits, CivilFromDays;
      CivilFromDaysCorrect(currSec / 86_400);
      var (month, day, hour, minute, second) := SplitUtc(currSec);
      Dec2Is(month);
      Dec2Is(day);
      Dec2Is(hour);
      Dec2Is(minute);
      Dec2Is(second);
      CopyTo(Dec2(month), buf, 0);
      CopyTo(Dec2(day), buf, 3);
      CopyTo(Dec2(hour), buf, 6);
      CopyTo(Dec2(minute), buf, 9);
      CopyTo(Dec2(second), buf, 12);
      assert buf[..14] == DateTimeText(currSec);
    }
  }

  // ----- thread ids -----

  function TidText(tid: nat): (s: seq<byte>)
    requires tid < 100
    ensures |s| == 4
  {
    [84, 61] + TwoDigits(tid)
  }

  /** It is `T=` and two digits that read as the id. */
  lemma TidReads(tid: nat)
    requires tid < 100
    ensures var s := TidText(tid);
            && s[0] as char == 'T' && s[1] as char == '=' && IsDigit(s[2]) && IsDigit(s[3])
            && Num2(s, 2) == tid
  {
  }

  predicate IsTidTable(lut: seq<byte>)
  {
    |lut| == 128 && forall tid :: 0 <= tid < 32 ==> Holds(lut, 4 * tid, TidText(tid))
  }

  method NewTidTable() returns (lut: seq<byte>)
    ensures IsTidTable(lut)
  {
    hide Dec2, TwoDigits;
    lut := [];
    for tid := 0 to 32
      invariant |lut| == 4 * tid
      invariant forall t :: 0 <= t < tid ==> Holds(lut, 4 * t, TidText(t))
    {
      Dec2Is(tid);
      lut := lut + [84, 61] + Dec2(tid);
    }
  }

  method WriteTid(lut: seq<byte>, tid: nat, dest: array<byte>, at: nat)
    requires IsTidTable(lut) && tid < 32 && at + 4 <= dest.Length
    modifies dest
    ensures dest[..] == Store(old(dest[..]), at, TidText(tid))
  {
    HoldsIs(lut, 4 * tid, TidText(tid));
    CopyTo(lut[4 * tid..4 * tid + 4], dest, at);
  }
}
