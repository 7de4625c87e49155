/** The fixed scratch buffer a line is assembled in. `push` and the copies through `unfilled` are
    unchecked in the source, so staying inside the buffer is what their callers must ensure;
    `extend_from_slice` checks, and refuses to fill the last byte. */
module Scratch {
  import opened Bits

  class MyBytesMut {
    const inner: array<byte>
    var pos: nat

    ghost predicate Valid()
      reads this
    {
      pos <= inner.Length
    }

    /** `result()`: the bytes written so far. */
    ghost function Filled(): seq<byte>
      requires Valid()
      reads this, inner
    {
      inner[..pos]
    }

    constructor (capacity: nat)
      ensures Valid() && Filled() == [] && inner.Length == capacity && fresh(inner)
    {
      inner := new byte[capacity](_ => 0);
      pos := 0;
    }

    method Clear()
      modifies this
      ensures Valid() && Filled() == []
    {
      pos := 0;
    }

    method Push(b: byte)
      requires Valid() && pos < inner.Length
      modifies this, inner
      ensures Valid() && Filled() == old(Filled()) + [b]
    {
      inner[pos] := b;
      pos := pos + 1;
    }

    /** False where the source panics: when the bytes would reach the end of the buffer. What is
        accepted leaves at least one byte for a push. */
    method ExtendFromSlice(src: seq<byte>) returns (ok: bool)
      requires Valid()
      modifies this, inner
      ensures Valid()
      ensures ok <==> inner.Length > |old(Filled())| + |src|
      ensures Filled() == old(Filled()) + if ok then src else []
    {
      var newLen := pos + |src|;
      if !(inner.Length > newLen) {
        return false;
      }
      for k := 0 to |src|
        invariant pos == old(pos)
        invariant forall i :: 0 <= i < pos ==> inner[i] == old(inner[i])
        invariant forall i :: 0 <= i < k ==> inner[pos + i] == src[i]
      {
        inner[pos + k] := src[k];
      }
      pos := newLen;
      return true;
    }

    /** Takes in `bytes` that have been copied to the start of `unfilled()`. */
    method Advance(len: nat, ghost before: seq<byte>, ghost bytes: seq<byte>)
      requires Valid() && |bytes| == len && pos + len <= inner.Length
      requires |before| == inner.Length && inner[..] == Store(before, pos, bytes)
      modifies this
      ensures Valid() && Filled() == before[..old(pos)] + bytes
    {
      pos := pos + len;
      assert Filled() == inner[..][..pos];
    }
  }
}
