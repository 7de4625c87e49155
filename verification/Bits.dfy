/** Machine words: wrapping, the signed view of a word, bitwise `and`, little-endian bytes.

    Integers are unbounded in the model, so every wrap, cast and mask of the source is one of
    these functions.
  */
module Bits {
  const TWO_31: int := 0x8000_0000
  const TWO_32: int := 0x1_0000_0000
  const TWO_63: int := 0x8000_0000_0000_0000
  const TWO_64: int := 0x1_0000_0000_0000_0000

  type byte = x: int | 0 <= x < 0x100
  type u32 = x: int | 0 <= x < 0x1_0000_0000
  type u64 = x: int | 0 <= x < 0x1_0000_0000_0000_0000
  type i64 = x: int | -0x8000_0000_0000_0000 <= x < 0x8000_0000_0000_0000

  function Wrap32(x: int): u32 { x % TWO_32 }
  function Wrap64(x: int): u64 { x % TWO_64 }

  /** `x as i32` for a `u32`. */
  function AsI32(x: u32): int { if x < TWO_31 then x else x - TWO_32 }

  /** `x as i64` for a `u64`, and back. */
  function AsI64(x: u64): i64 { if x < TWO_63 then x else x - TWO_64 }
  function AsU64(x: i64): u64 { x % TWO_64 }

  lemma I64RoundTrip(x: i64)
    ensures AsI64(AsU64(x)) == x
  {
  }

  /** `a / b` on signed integers, rounding toward zero. */
  function TruncDiv(a: int, b: int): int
    requires b != 0
  {
    if (a >= 0) == (b >= 0) then Abs(a) / Abs(b) else -(Abs(a) / Abs(b))
  }

  /** The quotient rounds toward zero: what it leaves has the sign of a and is less than b. */
  lemma TruncDivDrops(a: int, b: int)
    requires b != 0
    ensures var left := a - TruncDiv(a, b) * b;
            Abs(left) < Abs(b) && (a >= 0 ==> left >= 0) && (a <= 0 ==> left <= 0)
  {
    var q, r := Abs(a) / Abs(b), Abs(a) % Abs(b);
    DivSplit(Abs(a), Abs(b));
    SignedProducts(q, Abs(b));
  }

  lemma DivSplit(a: nat, b: nat)
    requires b > 0
    ensures a == a / b * b + a % b && a % b < b
  {
  }

  lemma SignedProducts(q: int, b: int)
    ensures (-q) * b == -(q * b) && q * (-b) == -(q * b) && (-q) * (-b) == q * b
  {
  }

  function Abs(x: int): nat { if x >= 0 then x else -x }

  // ----- signed comparison of wrapped values -----

  /** Which of the windows [2^31 * (2k - 1), 2^31 * (2k + 1)) holds x. */
  function Window(x: int): int { (x + TWO_31) / TWO_32 }

  /** The comparison the space guard makes: both operands wrapped, then read as signed. */
  predicate SignedLess(a: int, b: int) { AsI32(Wrap32(a)) < AsI32(Wrap32(b)) }

  lemma SignedViewShifts(x: int)
    ensures AsI32(Wrap32(x)) == x - TWO_32 * Window(x)
  {
    var q, r := x / TWO_32, x % TWO_32;
    assert x == q * TWO_32 + r;
    if r < TWO_31 {
      assert (x + TWO_31) / TWO_32 == q;
    } else {
      assert (x + TWO_31) / TWO_32 == q + 1;
    }
  }

  /** For true values less than 2^32 apart, the signed comparison of their wrapped forms
      decides the true comparison exactly when both lie in one window. */
  lemma SignedCompareExact(a: int, b: int)
    requires -TWO_32 < a - b < TWO_32
    ensures (SignedLess(a, b) <==> a < b) <==> Window(a) == Window(b) || a == b
    ensures a < b && Window(a) != Window(b) ==> SignedLess(b, a)
  {
    SignedViewShifts(a);
    SignedViewShifts(b);
  }

  // ----- bitwise and -----

  function Pow2(k: nat): (p: nat)
    ensures p >= 1
  {
    if k == 0 then 1 else 2 * Pow2(k - 1)
  }

  function BitAnd(x: nat, y: nat): nat
    decreases x
  {
    if x == 0 || y == 0 then 0
    else 2 * BitAnd(x / 2, y / 2) + (if x % 2 == 1 && y % 2 == 1 then 1 else 0)
  }

  /** The source's constructor-time test. */
  predicate IsPow2(x: nat) { x != 0 && BitAnd(x, x - 1) == 0 }

  lemma {:induction false} ModDouble(x: nat, m: nat)
    requires m > 0
    ensures x % (2 * m) == 2 * ((x / 2) % m) + x % 2
  {
    var q, r := (x / 2) / m, (x / 2) % m;
    assert x / 2 == q * m + r;
    assert x == (2 * m) * q + (2 * r + x % 2);
    ModUnique(x, 2 * m, q, 2 * r + x % 2);
  }

  lemma ModUnique(x: int, n: int, q: int, r: int)
    requires n > 0 && 0 <= r < n && x == n * q + r
    ensures x % n == r && x / n == q
  {
    var q', r' := x / n, x % n;
    assert x == n * q' + r';
    assert n * (q - q') == r' - r;
    assert q - q' >= 1 ==> n * (q - q') >= n;
    assert q - q' <= -1 ==> n * (q - q') <= -n;
  }

  lemma {:induction false} FloorAdd(n: int, k: int, x: int)
    requires n > 0
    ensures (n * k + x) % n == x % n && (n * k + x) / n == k + x / n
  {
    assert n * (k + x / n) == n * k + n * (x / n);
    ModUnique(n * k + x, n, k + x / n, x % n);
  }

  lemma ModAdd(i: nat, k: nat, n: nat)
    requires n > 0 && i % n + k < n
    ensures (i + k) % n == i % n + k
  {
    ModUnique(i + k, n, i / n, i % n + k);
  }

  lemma ModNextLap(i: nat, n: nat)
    requires n > 0
    ensures (i + (n - i % n)) % n == 0
  {
    ModUnique(i + (n - i % n), n, i / n + 1, 0);
  }

  lemma ModDistinct(i: nat, j: nat, n: nat)
    requires n > 0 && i < j < i + n
    ensures i % n != j % n
  {
    var d := j / n - i / n;
    assert j - i == n * d + (j % n - i % n);
    assert d >= 1 ==> n * d >= n;
    assert d <= 0 ==> n * d <= 0;
  }

  lemma {:induction false} MaskPow2(x: nat, k: nat)
    ensures BitAnd(x, Pow2(k) - 1) == x % Pow2(k)
    decreases k
  {
    hide BitAnd, Pow2;
    if k == 0 {
      Pow2Zero();
      MaskNone(x);
    } else {
      Pow2Doubles(k - 1);
      MaskPow2(x / 2, k - 1);
      MaskStep(x, Pow2(k - 1), Pow2(k));
    }
  }

  lemma Pow2Zero()
    ensures Pow2(0) == 1
  {
  }

  lemma MaskNone(x: nat)
    ensures BitAnd(x, 0) == 0 == x % 1
  {
  }

  lemma {:induction false} MaskStep(x: nat, m: nat, p: nat)
    requires m >= 1 && p == 2 * m && BitAnd(x / 2, m - 1) == (x / 2) % m
    ensures BitAnd(x, p - 1) == x % p
  {
    hide BitAnd;
    AndLow(x, m);
    ModDouble(x, m);
  }

  /** Masking with 2m - 1 keeps the last bit and masks the rest with m - 1. */
  lemma {:induction false} AndLow(x: nat, m: nat)
    requires m >= 1
    ensures BitAnd(x, 2 * m - 1) == 2 * BitAnd(x / 2, m - 1) + x % 2
  {
    assert (2 * m - 1) / 2 == m - 1 && (2 * m - 1) % 2 == 1;
    if x == 0 {
      assert BitAnd(0, m - 1) == 0;
    }
  }

  /** A number passes the test exactly when it is a power of two. */
  lemma {:induction false} IsPow2Log(n: nat) returns (k: nat)
    requires IsPow2(n)
    ensures n == Pow2(k)
  {
    if n == 1 {
      k := 0;
    } else {
      if n % 2 == 1 {
        assert (n - 1) / 2 == n / 2;
        AndSelf(n / 2);
        assert false;
      }
      assert (n - 1) / 2 == n / 2 - 1;
      var j := IsPow2Log(n / 2);
      k := j + 1;
    }
  }

  lemma {:induction false} AndSelf(x: nat)
    ensures BitAnd(x, x) == x
  {
    if x > 0 {
      AndSelf(x / 2);
    }
  }

  lemma {:induction false} Pow2Passes(k: nat)
    ensures IsPow2(Pow2(k))
  {
    MaskPow2(Pow2(k), k);
    ModUnique(Pow2(k), Pow2(k), 1, 0);
  }

  /** `x & (n - 1)` is `x mod n` for every n the constructor accepts. */
  lemma MaskIsMod(x: nat, n: nat)
    requires IsPow2(n)
    ensures BitAnd(x, n - 1) == x % n
  {
    var k := IsPow2Log(n);
    MaskPow2(x, k);
  }

  lemma {:induction false} Pow2Split(j: nat, k: nat)
    ensures Pow2(j + k) == Pow2(j) * Pow2(k)
  {
    hide Pow2;
    if j == 0 {
      Pow2Zero();
    } else {
      Pow2Split(j - 1, k);
      Pow2Doubles(j - 1);
      Pow2Doubles(j - 1 + k);
      TwiceProduct(Pow2(j - 1), Pow2(k));
      assert j + k == j - 1 + k + 1;
    }
  }

  lemma TwiceProduct(a: nat, b: nat)
    ensures 2 * (a * b) == (2 * a) * b
  {
  }

  lemma {:induction false} Pow2OfWords()
    ensures Pow2(32) == TWO_32 && Pow2(64) == TWO_64
  {
    assert Pow2(4) == 16;
    Pow2Split(4, 4);
    assert Pow2(8) == 0x100;
    Pow2Split(8, 8);
    assert Pow2(16) == 0x1_0000;
    Pow2Split(16, 16);
    Pow2Split(32, 32);
  }

  /** Wrapping a word does not disturb the remainder by a power of two that fits the word. */
  lemma {:induction false} WrapKeepsMod(x: nat, n: nat)
    requires IsPow2(n)
    ensures n <= TWO_32 ==> Wrap32(x) % n == x % n
    ensures n <= TWO_64 ==> Wrap64(x) % n == x % n
  {
    Pow2OfWords();
    if n <= TWO_32 {
      BitsKeepMod(x, n, 32);
    }
    if n <= TWO_64 {
      BitsKeepMod(x, n, 64);
    }
  }

  lemma {:induction false} BitsKeepMod(x: nat, n: nat, bits: nat)
    requires IsPow2(n) && n <= Pow2(bits)
    ensures x % Pow2(bits) % n == x % n
  {
    hide Pow2, IsPow2;
    var k := IsPow2Log(n);
    if k > bits {
      Pow2Grows(bits, k);
      assert false;
    }
    Pow2Split(k, bits - k);
    LapsKeepMod(x, n, Pow2(bits - k), Pow2(bits));
  }

  lemma Pow2Doubles(k: nat)
    ensures Pow2(k + 1) == 2 * Pow2(k)
  {
  }

  lemma {:induction false} Pow2Orders(j: nat, k: nat)
    ensures j <= k <==> Pow2(j) <= Pow2(k)
  {
    hide Pow2;
    if j < k {
      Pow2Grows(j, k);
    } else if k < j {
      Pow2Grows(k, j);
    }
  }

  lemma {:induction false} Pow2Grows(j: nat, k: nat)
    requires j < k
    ensures Pow2(j) < Pow2(k)
    decreases k
  {
    if j < k - 1 {
      Pow2Grows(j, k - 1);
    }
  }

  lemma {:induction false} LapsKeepMod(x: nat, n: nat, laps: nat, word: nat)
    requires n > 0 && n * laps == word > 0
    ensures x % word % n == x % n
  {
    var q, r := x / word, x % word;
    assert x == (n * laps) * q + r == n * (laps * q) + r;
    var d, e := r / n, r % n;
    assert r == n * d + e;
    assert n * (laps * q) + n * d == n * (laps * q + d);
    ModUnique(x, n, laps * q + d, e);
  }

  // ----- little-endian words -----

  function LE32(v: u32): (s: seq<byte>)
    ensures |s| == 4
  {
    [v % 0x100, v / 0x100 % 0x100, v / 0x1_0000 % 0x100, v / 0x100_0000]
  }

  function Get32(s: seq<byte>, at: nat): u32
    requires at + 4 <= |s|
  {
    s[at] as int + 0x100 * s[at + 1] as int + 0x1_0000 * s[at + 2] as int + 0x100_0000 * s[at + 3] as int
  }

  function LE64(v: u64): (s: seq<byte>)
    ensures |s| == 8
  {
    LE32(v % TWO_32) + LE32(v / TWO_32)
  }

  function Get64(s: seq<byte>, at: nat): u64
    requires at + 8 <= |s|
  {
    Get32(s, at) as int + TWO_32 * Get32(s, at + 4) as int
  }

  /** `mem` with `bytes` written at `at`. */
  function Store(mem: seq<byte>, at: nat, bytes: seq<byte>): (mem': seq<byte>)
    ensures |mem'| == |mem|
    ensures forall i :: 0 <= i < |mem| ==>
      mem'[i] == if at <= i < at + |bytes| then bytes[i - at] else mem[i]
  {
    seq(|mem|, i requires 0 <= i < |mem| => if at <= i < at + |bytes| then bytes[i - at] else mem[i])
  }

  /** The bytes at `at` are exactly `bytes`. */
  predicate Holds(s: seq<byte>, at: nat, bytes: seq<byte>)
  {
    at + |bytes| <= |s| && forall i :: 0 <= i < |bytes| ==> s[at + i] == bytes[i]
  }

  lemma Digits32(v: u32)
    ensures v % 0x100 + 0x100 * (v / 0x100 % 0x100) + 0x1_0000 * (v / 0x1_0000 % 0x100) +
            0x100_0000 * (v / 0x100_0000) == v
  {
    assert v / 0x1_0000 == v / 0x100 / 0x100;
    assert v / 0x100_0000 == v / 0x1_0000 / 0x100;
  }

  lemma Word32RoundTrip(s: seq<byte>, at: nat, v: u32)
    requires Holds(s, at, LE32(v))
    ensures Get32(s, at) == v
  {
    var b := LE32(v);
    assert s[at + 0] == b[0] && s[at + 1] == b[1] && s[at + 2] == b[2] && s[at + 3] == b[3];
    Digits32(v);
  }

  lemma Word64RoundTrip(s: seq<byte>, at: nat, v: u64)
    requires Holds(s, at, LE64(v))
    ensures Get64(s, at) == v
  {
    var lo, hi := LE32(v % TWO_32), LE32(v / TWO_32);
    assert forall i :: 0 <= i < 4 ==> s[at + i] == LE64(v)[i] == lo[i];
    assert forall i :: 0 <= i < 4 ==> s[at + 4 + i] == s[at + (4 + i)] == LE64(v)[4 + i] == hi[i];
    Word32RoundTrip(s, at, v % TWO_32);
    Word32RoundTrip(s, at + 4, v / TWO_32);
  }

  /** Words are stored with the low byte first. */
  lemma LowByteFirst32(v: u32)
    ensures var s := LE32(v);
            v == s[0] as int + 0x100 * s[1] as int + 0x1_0000 * s[2] as int + 0x100_0000 * s[3] as int
  {
    Digits32(v);
  }

  lemma LowByteFirst64(v: u64)
    ensures exists low: u32, high: u32 {:trigger LE32(low), LE32(high)} ::
              LE64(v) == LE32(low) + LE32(high) && v == low + 0x1_0000_0000 * high
  {
    hide LE32;
    var low: u32, high: u32 := v % TWO_32, v / TWO_32;
    assert LE64(v) == LE32(low) + LE32(high) && v == low + 0x1_0000_0000 * high;
  }
}
