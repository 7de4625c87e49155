/** The index of a position in a power-of-two ring, `i & (n - 1)`, as both rings compute it. */
module RingIndex {
  import opened Bits

  /** The offset of position i in its lap. */
  function Slot(i: nat, n: nat): (s: nat)
    requires n > 0
    ensures s < n && s <= i
  {
    if i < n then i else Slot(i - n, n)
  }

  lemma {:induction false} SlotIsMod(i: nat, n: nat)
    requires n > 0
    ensures Slot(i, n) == i % n
  {
    if i < n {
      ModUnique(i, n, 0, i);
    } else {
      SlotIsMod(i - n, n);
      var q := (i - n) / n;
      ModUnique(i, n, q + 1, (i - n) % n);
    }
  }

  /** `i & (n - 1)` is this slot, for every n that passes the constructor's test. */
  lemma MaskIsSlot(i: nat, n: nat)
    requires IsPow2(n)
    ensures BitAnd(i, n - 1) == Slot(i, n)
  {
    MaskIsMod(i, n);
    SlotIsMod(i, n);
  }

  /** Positions that stay before the ring end are contiguous. */
  lemma {:induction false} SlotAdd(i: nat, k: nat, n: nat)
    requires n > 0 && Slot(i, n) + k < n
    ensures Slot(i + k, n) == Slot(i, n) + k
  {
    SlotIsMod(i, n);
    SlotIsMod(i + k, n);
    ModAdd(i, k, n);
  }

  /** The position just past the ring end is the start of the ring. */
  lemma {:induction false} SlotRewind(i: nat, n: nat)
    requires n > 0
    ensures Slot(i + (n - Slot(i, n)), n) == 0
  {
    SlotIsMod(i, n);
    SlotIsMod(i + (n - i % n), n);
    ModNextLap(i, n);
  }

  /** Two positions less than a lap apart never share a slot. */
  lemma {:induction false} SlotDistinct(i: nat, j: nat, n: nat)
    requires n > 0 && i < j < i + n
    ensures Slot(i, n) != Slot(j, n)
  {
    SlotIsMod(i, n);
    SlotIsMod(j, n);
    ModDistinct(i, j, n);
  }

  /** A span of slots starting at position w meets no slot of a position i behind it, as long as
      the span ends within one lap of i. */
  lemma {:induction false} SpanDisjoint(i: nat, w: nat, len: nat, n: nat)
    requires n > 0 && i < w && w + len <= i + n
    requires Slot(w, n) + len <= n
    ensures Slot(i, n) < Slot(w, n) || Slot(w, n) + len <= Slot(i, n)
  {
    if Slot(w, n) <= Slot(i, n) < Slot(w, n) + len {
      var k := Slot(i, n) - Slot(w, n);
      SlotAdd(w, k, n);
      SlotDistinct(i, w + k, n);
      assert false;
    }
  }
}
