/** The two-argument record: a tag per argument, then the arguments as the compiler lays them out,
    and the decoder that walks the bytes by tag. */
module ArgsCodec {
  import opened Bits
  import opened Wrappers

  /** An argument as it is stored. A user value carries the address of its decode function. */
  datatype Arg =
    | F64(bits: u64)
    | U64(v: u64)
    | I64(i: i64)
    | Pod(decodeFn: u64, data: seq<byte>)

  /** `size_of::<T>() as u8 + 8`, a constant that must not overflow for the program to compile. */
  predicate Compiles(a: Arg) { a.Pod? ==> |a.data| % 256 + 8 < 256 }

  function Tag(a: Arg): byte
    requires Compiles(a)
  {
    match a
    case F64(_) => 0
    case U64(_) => 1
    case I64(_) => 2
    case Pod(_, data) => |data| % 256 + 8
  }

  /** Bytes the compiler appends to a snapshot of a value with alignment at most 8. */
  function PadLen(a: Arg): nat { if a.Pod? then (8 - |a.data| % 8) % 8 else 0 }

  function Encode(a: Arg, pad: seq<byte>): seq<byte>
  {
    match a
    case F64(bits) => LE64(bits)
    case U64(v) => LE64(v)
    case I64(i) => LE64(AsU64(i))
    case Pod(decodeFn, data) => LE64(decodeFn) + data + pad
  }

  /** The record `args2` builds, packed; `pad1` and `pad2` are whatever the padding holds. */
  function Args2(a1: Arg, a2: Arg, pad1: seq<byte>, pad2: seq<byte>): seq<byte>
    requires Compiles(a1) && Compiles(a2)
  {
    [Tag(a1), Tag(a2), 0, 0, 0, 0, 0, 0] + Encode(a1, pad1) + Encode(a2, pad2)
  }

  /** `decode`: the argument and the offset after it. None where the slice or a read would leave
      the buffer. */
  function Decode(tag: byte, bytes: seq<byte>, offset: nat): Option<(Arg, nat)>
  {
    if offset + 8 > |bytes| then None
    else
      var word := Get64(bytes, offset);
      if tag == 0 then Some((F64(word), offset + 8))
      else if tag == 1 then Some((U64(word), offset + 8))
      else if tag == 2 then Some((I64(AsI64(word)), offset + 8))
      else if tag < 8 || offset + tag > |bytes| then None
      else Some((Pod(word, bytes[offset + 8..offset + tag]), offset + tag))
  }

  /** What the formatting shim does with its slice. */
  function DecodeArgs2(bytes: seq<byte>): Option<(Arg, Arg)>
  {
    if |bytes| < 2 then None
    else
      match Decode(bytes[0], bytes, 8)
      case None => None
      case Some((a1, offset)) =>
        match Decode(bytes[1], bytes, offset)
        case None => None
        case Some((a2, _)) => Some((a1, a2))
  }

  /** The size survives the 8-bit tag. */
  predicate Small(a: Arg) { a.Pod? ==> |a.data| < 256 }

  /** The compiler adds no padding after it. */
  predicate Whole(a: Arg) { PadLen(a) == 0 }

  /** A user value's tag is never one of the word tags. */
  lemma TagsApart(a: Arg)
    requires Compiles(a)
    ensures a.Pod? <==> Tag(a) !in {0, 1, 2}
    ensures a.Pod? ==> Tag(a) >= 8
  {
  }

  /** Decoding fails exactly where a word would be read past the end, or the bytes of a user value
      would end before they start or past the end. */
  lemma DecodeFails(tag: byte, bytes: seq<byte>, offset: nat)
    ensures Decode(tag, bytes, offset).None? <==>
            offset + 8 > |bytes| || (tag > 2 && (offset + tag < offset + 8 || offset + tag > |bytes|))
  {
    hide Get64;
  }

  lemma {:induction false} WordAt(bytes: seq<byte>, at: nat, v: u64, rest: seq<byte>)
    requires at <= |bytes| && bytes[at..] == LE64(v) + rest
    ensures at + 8 <= |bytes| && Get64(bytes, at) == v
  {
    hide LE64, Get64;
    forall i | 0 <= i < 8
      ensures bytes[at + i] == LE64(v)[i]
    {
      assert bytes[at..][i] == LE64(v)[i];
    }
    Word64RoundTrip(bytes, at, v);
  }

  /** Decoding where an argument starts: it comes back exactly when its size fits the tag, and the
      offset lands on what follows exactly when also no padding separates the two. */
  lemma {:induction false} DecodeExact(a: Arg, pad: seq<byte>, bytes: seq<byte>, at: nat, rest: seq<byte>)
    requires Compiles(a) && |pad| == PadLen(a)
    requires at <= |bytes| && bytes[at..] == Encode(a, pad) + rest
    ensures Decode(Tag(a), bytes, at).Some?
    ensures Decode(Tag(a), bytes, at).value.0 == a <==> Small(a)
    ensures Decode(Tag(a), bytes, at).value.1 == at + |Encode(a, pad)| <==> Small(a) && Whole(a)
  {
    hide LE64, Get64;
    if a.Pod? {
      assert Encode(a, pad) + rest == LE64(a.decodeFn) + (a.data + pad + rest);
      WordAt(bytes, at, a.decodeFn, a.data + pad + rest);
      var len := |a.data| % 256;
      assert at + 8 + |a.data| <= |bytes|;
      assert bytes[at + 8..at + 8 + len] == a.data[..len] by {
        forall i | 0 <= i < len
          ensures bytes[at + 8 + i] == a.data[i]
        {
          assert bytes[at..][8 + i] == (LE64(a.decodeFn) + (a.data + pad + rest))[8 + i];
        }
      }
      if Small(a) {
        assert a.data[..len] == a.data;
      }
    } else {
      WordAt(bytes, at, if a.F64? then a.bits else if a.U64? then a.v else AsU64(a.i), rest);
      if a.I64? {
        I64RoundTrip(a.i);
      }
    }
  }

  /** Both arguments come back, whatever bytes trail the record, if the first is small and unpadded
      and the second is small. */
  lemma {:induction false} Args2RoundTrip(a1: Arg, a2: Arg, pad1: seq<byte>, pad2: seq<byte>, trail: seq<byte>)
    requires Compiles(a1) && Compiles(a2) && |pad1| == PadLen(a1) && |pad2| == PadLen(a2)
    requires Small(a1) && Whole(a1) && Small(a2)
    ensures DecodeArgs2(Args2(a1, a2, pad1, pad2) + trail) == Some((a1, a2))
  {
    hide Encode, Decode, Tag, PadLen;
    var bytes := Args2(a1, a2, pad1, pad2) + trail;
    var e1, e2 := Encode(a1, pad1), Encode(a2, pad2);
    assert bytes[8..] == e1 + (e2 + trail);
    DecodeExact(a1, pad1, bytes, 8, e2 + trail);
    assert bytes[8 + |e1|..] == e2 + trail;
    DecodeExact(a2, pad2, bytes, 8 + |e1|, trail);
  }

  /** The first argument is found in every record, the second exactly where the padding allows: an
      odd-sized first value moves the second decode off its argument. */
  lemma {:induction false} SecondOffsetExact(a1: Arg, a2: Arg, pad1: seq<byte>, pad2: seq<byte>, trail: seq<byte>)
    requires Compiles(a1) && Compiles(a2) && |pad1| == PadLen(a1) && |pad2| == PadLen(a2)
    ensures var bytes := Args2(a1, a2, pad1, pad2) + trail;
            && Decode(bytes[0], bytes, 8).Some?
            && (Decode(bytes[0], bytes, 8).value.0 == a1 <==> Small(a1))
            && (bytes[Decode(bytes[0], bytes, 8).value.1..] == Encode(a2, pad2) + trail <==>
                Small(a1) && Whole(a1))
  {
    hide Decode, Tag, PadLen, Small, Whole;
    var bytes := Args2(a1, a2, pad1, pad2) + trail;
    var e1, e2 := Encode(a1, pad1), Encode(a2, pad2);
    assert bytes[8..] == e1 + (e2 + trail);
    DecodeExact(a1, pad1, bytes, 8, e2 + trail);
    var next := Decode(bytes[0], bytes, 8).value.1;
    assert bytes[8 + |e1|..] == e2 + trail;
    DecodeInside(Tag(a1), bytes, 8);
    assert next != 8 + |e1| ==> |bytes[next..]| != |e2 + trail|;
  }

  lemma DecodeInside(tag: byte, bytes: seq<byte>, at: nat)
    requires Decode(tag, bytes, at).Some?
    ensures at <= Decode(tag, bytes, at).value.1 <= |bytes|
  {
  }

  // ----- exactly which pairs come back -----

  /** The first word an argument is stored as. */
  function FirstWord(a: Arg): u64
  {
    match a
    case F64(bits) => bits
    case U64(v) => v
    case I64(i) => AsU64(i)
    case Pod(decodeFn, _) => decodeFn
  }

  lemma DecodeReadsWord(tag: byte, bytes: seq<byte>, at: nat)
    requires Decode(tag, bytes, at).Some?
    ensures at + 8 <= |bytes| && FirstWord(Decode(tag, bytes, at).value.0) == Get64(bytes, at)
  {
    hide Get64;
  }

  lemma LowByte(bytes: seq<byte>, at: nat)
    requires at + 8 <= |bytes|
    ensures Get64(bytes, at) % 256 == bytes[at]
  {
  }

  /** Bytes that fill a stored argument up to the next multiple of eight, and no more. */
  predicate Fills(a: Arg, pad: seq<byte>)
  {
    if a.Pod? then |pad| < 8 && (8 + |a.data| + |pad|) % 8 == 0 else pad == []
  }

  lemma FillsIs(a: Arg, pad: seq<byte>)
    ensures Fills(a, pad) <==> |pad| == PadLen(a)
  {
  }

  /** A stored argument takes the least multiple of eight bytes that holds its word and its data. */
  lemma {:induction false} StoredSize(a: Arg, pad: seq<byte>)
    requires |pad| == PadLen(a)
    ensures |Encode(a, pad)| % 8 == 0
    ensures var least := if a.Pod? then 8 + |a.data| else 8; least <= |Encode(a, pad)| < least + 8
  {
    hide LE64;
  }

  /** The record: the tags, six zero bytes, the first argument's word and data, its padding, and the
      second argument at the next multiple of eight. */
  lemma {:induction false} RecordLayout(a1: Arg, a2: Arg, pad1: seq<byte>, pad2: seq<byte>)
    requires Compiles(a1) && Compiles(a2) && |pad1| == PadLen(a1) && |pad2| == PadLen(a2)
    ensures Args2(a1, a2, pad1, pad2) ==
            [TagNumber(a1), TagNumber(a2), 0, 0, 0, 0, 0, 0] +
            (LE64(FirstWord(a1)) + (if a1.Pod? then a1.data + pad1 else [])) +
            (LE64(FirstWord(a2)) + (if a2.Pod? then a2.data + pad2 else []))
    ensures |Encode(a1, pad1)| == if a1.Pod? then (8 + |a1.data| + 7) / 8 * 8 else 8
  {
    hide LE64, Encode, PadLen, FirstWord;
    EncodeIs(a1, pad1);
    EncodeIs(a2, pad2);
    StoredSize(a1, pad1);
    if a1.Pod? {
      NextMultiple(8 + |a1.data|, |Encode(a1, pad1)|);
    }
  }

  lemma EncodeIs(a: Arg, pad: seq<byte>)
    ensures Encode(a, pad) == LE64(FirstWord(a)) + (if a.Pod? then a.data + pad else [])
    ensures !a.Pod? ==> |Encode(a, pad)| == 8
  {
    hide LE64;
  }

  lemma NextMultiple(least: nat, size: nat)
    requires size % 8 == 0 && least <= size < least + 8
    ensures size == (least + 7) / 8 * 8
  {
  }

  /** The tags of the three word kinds, and of a value by its size. */
  function TagNumber(a: Arg): byte
    requires Compiles(a)
  {
    if a.F64? then 0 else if a.U64? then 1 else if a.I64? then 2 else |a.data| % 256 + 8
  }

  /** The pair comes back, whatever the padding holds and whatever bytes trail the record. */
  ghost predicate RoundTrips(a1: Arg, a2: Arg)
    requires Compiles(a1) && Compiles(a2)
  {
    forall pad1: seq<byte>, pad2: seq<byte>, trail: seq<byte> ::
      Fills(a1, pad1) && Fills(a2, pad2) ==>
      DecodeArgs2(Args2(a1, a2, pad1, pad2) + trail) == Some((a1, a2))
  }

  /** Padding after the first value that differs from the second argument's first byte is decoded in
      its place. */
  lemma {:induction false} PaddedFirstFails(a1: Arg, a2: Arg, pad1: seq<byte>, pad2: seq<byte>, trail: seq<byte>)
    requires Compiles(a1) && Compiles(a2) && |pad1| == PadLen(a1) && |pad2| == PadLen(a2)
    requires Small(a1) && !Whole(a1) && pad1[0] != FirstWord(a2) % 256
    ensures DecodeArgs2(Args2(a1, a2, pad1, pad2) + trail) != Some((a1, a2))
  {
    assert a1.Pod?;
    hide LE64, Get64, Tag, PadLen, Encode;
    var bytes := Args2(a1, a2, pad1, pad2) + trail;
    var e1, e2 := Encode(a1, pad1), Encode(a2, pad2);
    var at := 16 + |a1.data|;
    assert bytes[8..] == e1 + (e2 + trail);
    DecodeExact(a1, pad1, bytes, 8, e2 + trail);
    PadInPlace(a1, pad1);
    assert bytes[8 + (8 + |a1.data|)] == e1[8 + |a1.data|];
    SmallTag(a1);
    if Decode(bytes[1], bytes, at).Some? {
      DecodeReadsWord(bytes[1], bytes, at);
      LowByte(bytes, at);
    }
  }

  lemma PadInPlace(a: Arg, pad: seq<byte>)
    requires a.Pod? && pad != []
    ensures |Encode(a, pad)| == 8 + |a.data| + |pad| && Encode(a, pad)[8 + |a.data|] == pad[0]
  {
    hide LE64;
  }

  lemma SmallTag(a: Arg)
    requires Compiles(a) && a.Pod? && Small(a)
    ensures Tag(a) == |a.data| + 8
  {
  }

  lemma {:induction false} LargeFails(a1: Arg, a2: Arg, pad1: seq<byte>, pad2: seq<byte>, trail: seq<byte>)
    requires Compiles(a1) && Compiles(a2) && |pad1| == PadLen(a1) && |pad2| == PadLen(a2)
    requires !Small(a1) || (Whole(a1) && !Small(a2))
    ensures DecodeArgs2(Args2(a1, a2, pad1, pad2) + trail) != Some((a1, a2))
  {
    hide Encode, Decode, Tag, PadLen;
    var bytes := Args2(a1, a2, pad1, pad2) + trail;
    var e1, e2 := Encode(a1, pad1), Encode(a2, pad2);
    assert bytes[8..] == e1 + (e2 + trail);
    DecodeExact(a1, pad1, bytes, 8, e2 + trail);
    if Small(a1) {
      assert bytes[8 + |e1|..] == e2 + trail;
      DecodeExact(a2, pad2, bytes, 8 + |e1|, trail);
    }
  }

  /** A pair of arguments survives the record if and only if both sizes are below 256 and the first
      is a multiple of eight, so that no padding follows it. */
  lemma {:induction false} RoundTripsExactly(a1: Arg, a2: Arg)
    requires Compiles(a1) && Compiles(a2)
    ensures RoundTrips(a1, a2) <==>
            (a1.Pod? ==> |a1.data| < 256 && |a1.data| % 8 == 0) && (a2.Pod? ==> |a2.data| < 256)
  {
    assert Whole(a1) <==> (a1.Pod? ==> |a1.data| % 8 == 0);
    hide DecodeArgs2, Args2, PadLen, Whole, Fills;
    if Small(a1) && Whole(a1) && Small(a2) {
      forall pad1: seq<byte>, pad2: seq<byte>, trail: seq<byte> | Fills(a1, pad1) && Fills(a2, pad2)
        ensures DecodeArgs2(Args2(a1, a2, pad1, pad2) + trail) == Some((a1, a2))
      {
        FillsIs(a1, pad1);
        FillsIs(a2, pad2);
        Args2RoundTrip(a1, a2, pad1, pad2, trail);
      }
    } else {
      var other: byte := if FirstWord(a2) % 256 == 0 then 1 else 0;
      var pad1, pad2 := seq(PadLen(a1), _ => other), seq(PadLen(a2), _ => other);
      FillsIs(a1, pad1);
      FillsIs(a2, pad2);
      if Small(a1) && !Whole(a1) {
        PaddedFirstFails(a1, a2, pad1, pad2, []);
      } else {
        LargeFails(a1, a2, pad1, pad2, []);
      }
      assert DecodeArgs2(Args2(a1, a2, pad1, pad2) + []) != Some((a1, a2));
    }
  }
}
