/**
 The decoder with its input streams, length-limited substreams, the field iterator and the bit mask of
 required fields, proved against the decoding functions.
 */
module PbDecoder {
  import opened ByteStrings
  import opened Varints
  import opened PbIntegers
  import opened PbFields
  import opened PbMessages
  import PbRoundTrip

  class IStream {
    const buf: Bytes
    var state: nat           // where the next byte is
    var bytesLeft: nat

    ghost predicate Valid()
      reads this
    {
      state + bytesLeft <= |buf|
    }

    ghost function Rest(): Bytes
      requires Valid()
      reads this
    {
      buf[state..state + bytesLeft]
    }

    /** Where the stream's bytes end in the buffer. */
    ghost function End(): nat
      reads this
    {
      state + bytesLeft
    }

    constructor (buf: Bytes)
      ensures Valid() && this.buf == buf && Rest() == buf
    {
      this.buf := buf;
      state := 0;
      bytesLeft := |buf|;
    }

    /** A copy of the stream's position with its own limit. */
    constructor Copy(buf: Bytes, state: nat, bytesLeft: nat)
      requires state + bytesLeft <= |buf|
      ensures Valid() && this.buf == buf && this.state == state && this.bytesLeft == bytesLeft
    {
      this.buf := buf;
      this.state := state;
      this.bytesLeft := bytesLeft;
    }

    method Read(n: nat) returns (ok: bool, b: Bytes)
      requires Valid()
      modifies this
      ensures Valid() && (ok <==> n <= |old(Rest())|)
      ensures ok ==> b == old(Rest())[..n] && Rest() == old(Rest())[n..]
      ensures !ok ==> Rest() == old(Rest())
      ensures End() == old(End()) && bytesLeft <= old(bytesLeft)
    {
      if bytesLeft < n {
        return false, [];
      }
      b := buf[state..state + n];
      state := state + n;
      bytesLeft := bytesLeft - n;
      return true, b;
    }

    method ReadByte() returns (ok: bool, b: byte)
      requires Valid()
      modifies this
      ensures Valid() && (ok <==> old(Rest()) != [])
      ensures ok ==> b == old(Rest())[0] && Rest() == old(Rest())[1..]
      ensures !ok ==> Rest() == old(Rest())
      ensures End() == old(End()) && bytesLeft <= old(bytesLeft)
    {
      if bytesLeft == 0 {
        return false, 0;
      }
      b := buf[state];
      state := state + 1;
      bytesLeft := bytesLeft - 1;
      return true, b;
    }
  }

  // ----- varints -----

  /** Seven bits shifted to the place of byte `k`. */
  function Shifted(bits: nat, k: nat): nat {
    bits * Power128(k)
  }

  /** `result |= bits << bitpos` in a word of 64 bits, the new bits lying above the old ones. */
  function Accumulate64(v: nat, bits: nat, k: nat): uint64 {
    (v + Shifted(bits, k) % TWO_64) % TWO_64
  }

  function Accumulate32(v: nat, bits: nat, k: nat): uint32 {
    (v + Shifted(bits, k) % TWO_32) % TWO_32
  }

  lemma Accumulate64Mod(low: nat, bits: nat, k: nat)
    ensures Accumulate64(low % TWO_64, bits, k) == (low + Shifted(bits, k)) % TWO_64
  {
    hide Shifted;
    SumMod64(low, Shifted(bits, k));
  }

  lemma SumMod64(a: nat, b: nat)
    ensures (a % TWO_64 + b % TWO_64) % TWO_64 == (a + b) % TWO_64
  {
  }

  lemma Accumulate32Mod(low: nat, bits: nat, k: nat)
    ensures Accumulate32(low % TWO_32, bits, k) == (low + Shifted(bits, k)) % TWO_32
  {
    hide Shifted;
    SumMod32(low, Shifted(bits, k));
  }

  lemma SumMod32(a: nat, b: nat)
    ensures (a % TWO_32 + b % TWO_32) % TWO_32 == (a + b) % TWO_32
  {
  }

  /** After `k` bytes with continuation bits that hold `low`: what the rest says about the whole. */
  ghost predicate Midway(s: Bytes, limit: nat, k: nat, low: nat, rest: Bytes) {
    && k <= limit && |rest| + k == |s|
    && ParseVarint(s, limit) ==
       (match ParseVarint(rest, limit - k)
        case None => None
        case Some(p) => Some(Parsed(low + Shifted(p.value, k), p.rest)))
  }

  lemma MidwayStart(s: Bytes, limit: nat)
    ensures Midway(s, limit, 0, 0, s)
  {
    hide ParseVarint;
    assert Power128(0) == 1;
  }

  lemma MidwayStep(s: Bytes, limit: nat, k: nat, low: nat, rest: Bytes)
    requires Midway(s, limit, k, low, rest) && k < limit && rest != [] && rest[0] >= 128
    ensures Midway(s, limit, k + 1, low + Shifted(rest[0] - 128, k), rest[1..])
  {
    ParseStep(rest, limit - k);
    hide ParseVarint, Shifted;
    var p := ParseVarint(rest[1..], limit - k - 1);
    if p.Some? {
      ShiftedStep(rest[0] - 128, p.value.value, k);
    }
  }

  lemma ShiftedStep(bits: nat, high: nat, k: nat)
    ensures Shifted(bits + 128 * high, k) == Shifted(bits, k) + Shifted(high, k + 1)
  {
    var w := Power128(k);
    assert Power128(k + 1) == 128 * w;
    assert (bits + 128 * high) * w == bits * w + high * (128 * w);
  }

  lemma MidwayEnd(s: Bytes, limit: nat, k: nat, low: nat, rest: Bytes)
    requires Midway(s, limit, k, low, rest) && k < limit && rest != [] && rest[0] < 128
    ensures ParseVarint(s, limit) == Some(Parsed(low + Shifted(rest[0], k), rest[1..]))
  {
    ParseStep(rest, limit - k);
    hide ParseVarint;
  }

  lemma MidwayFails(s: Bytes, limit: nat, k: nat, low: nat, rest: Bytes)
    requires Midway(s, limit, k, low, rest) && (k == limit || rest == [])
    ensures ParseVarint(s, limit) == None
  {
  }

  /** `pb_decode_varint`.  The new seven bits lie above those collected so far, so that the source's OR is
      a sum; bits shifted out of the word are lost. */
  method ReadVarint(stream: IStream) returns (ok: bool, v: uint64)
    requires stream.Valid()
    modifies stream
    ensures stream.Valid() && stream.End() == old(stream.End()) && stream.bytesLeft <= old(stream.bytesLeft)
    ensures ok <==> DecodeVarint(old(stream.Rest())).Ok?
    ensures ok ==> v == DecodeVarint(old(stream.Rest())).value && stream.Rest() == DecodeVarint(old(stream.Rest())).rest
  {
    hide ParseVarint, Midway, Shifted, Accumulate64, Accumulate32;
    ghost var s := stream.Rest();
    ghost var low: nat := 0;
    var k := 0;                 // bitpos is 7 * k
    v := 0;
    MidwayStart(s, 10);
    while true
      invariant stream.Valid() && stream.End() == old(stream.End()) && stream.bytesLeft <= old(stream.bytesLeft)
      invariant 0 <= k <= 10
      invariant Midway(s, 10, k, low, stream.Rest()) && v == low % TWO_64
      decreases 10 - k
    {
      if 7 * k >= 64 {
        MidwayFails(s, 10, k, low, stream.Rest());
        return false, 0;
      }
      ghost var rest := stream.Rest();
      var got, b := stream.ReadByte();
      if !got {
        MidwayFails(s, 10, k, low, rest);
        return false, 0;
      }
      var bits: nat := b % 128;
      v := Accumulate64(v, bits, k);
      Accumulate64Mod(low, bits, k);
      if b < 128 {
        MidwayEnd(s, 10, k, low, rest);
        return true, v;
      }
      MidwayStep(s, 10, k, low, rest);
      low := low + Shifted(bits, k);
      k := k + 1;
    }
  }

  /** `pb_decode_varint32`; a failure leaves the stream empty when at most five bytes were left. */
  method ReadVarint32(stream: IStream) returns (ok: bool, v: uint32)
    requires stream.Valid()
    modifies stream
    ensures stream.Valid() && stream.End() == old(stream.End()) && stream.bytesLeft <= old(stream.bytesLeft)
    ensures ok <==> DecodeVarint32(old(stream.Rest())).Ok?
    ensures ok ==> v == DecodeVarint32(old(stream.Rest())).value && stream.Rest() == DecodeVarint32(old(stream.Rest())).rest
    ensures !ok ==> (stream.bytesLeft == 0 <==> |old(stream.Rest())| <= 5)
  {
    hide ParseVarint, Midway, Shifted, Accumulate64, Accumulate32;
    ghost var s := stream.Rest();
    MidwayStart(s, 5);
    var got, b := stream.ReadByte();
    if !got {
      MidwayFails(s, 5, 0, 0, s);
      return false, 0;
    }
    ShiftedOf0(b);
    ShiftedOf0(if b < 128 then 0 else b - 128);
    if b < 128 {
      MidwayEnd(s, 5, 0, 0, s);
      return true, b;
    }
    MidwayStep(s, 5, 0, 0, s);
    ghost var low: nat := b - 128;
    v := b % 128;
    var k := 1;
    while true
      invariant stream.Valid() && stream.End() == old(stream.End()) && stream.bytesLeft <= old(stream.bytesLeft)
      invariant 1 <= k <= 5
      invariant |stream.Rest()| + k == |s|
      invariant Midway(s, 5, k, low, stream.Rest()) && v == low % TWO_32
      decreases 5 - k
    {
      if 7 * k >= 32 {
        MidwayFails(s, 5, k, low, stream.Rest());
        return false, 0;
      }
      ghost var rest := stream.Rest();
      got, b := stream.ReadByte();
      if !got {
        MidwayFails(s, 5, k, low, rest);
        return false, 0;
      }
      var bits: nat := b % 128;
      v := Accumulate32(v, bits, k);
      Accumulate32Mod(low, bits, k);
      if b < 128 {
        MidwayEnd(s, 5, k, low, rest);
        return true, v;
      }
      MidwayStep(s, 5, k, low, rest);
      low := low + Shifted(bits, k);
      k := k + 1;
    }
  }

  lemma ShiftedOf0(bits: nat)
    ensures Shifted(bits, 0) == bits
  {
  }

  /** `pb_decode_tag`: a tag, the end of the message, or an error. */
  method ReadTag(stream: IStream) returns (t: Tag)
    requires stream.Valid()
    modifies stream
    ensures stream.Valid() && stream.End() == old(stream.End()) && stream.bytesLeft <= old(stream.bytesLeft)
    ensures t == DecodeTag(old(stream.Rest()))
    ensures !t.BadTag? ==> stream.Rest() == t.rest
  {
    hide DecodeVarint32;
    var ok, temp := ReadVarint32(stream);
    ghost var rest := stream.Rest();
    if !ok {
      if stream.bytesLeft == 0 {
        return End([]);
      }
      return BadTag;
    }
    var left := stream.buf[stream.state..stream.state + stream.bytesLeft];
    if temp == 0 {
      return End(left);
    }
    return Tag(temp % 8, temp / 8, left);
  }

  // ----- skipping -----

  method SkipTo(stream: IStream, wireType: nat) returns (ok: bool)
    requires stream.Valid()
    modifies stream
    ensures stream.Valid() && stream.End() == old(stream.End()) && stream.bytesLeft <= old(stream.bytesLeft)
    ensures ok <==> SkipField(wireType, old(stream.Rest())).Ok?
    ensures ok ==> stream.Rest() == SkipField(wireType, old(stream.Rest())).rest
  {
    hide DecodeVarint32;
    if wireType == WT_VARINT {
      ghost var all := SkipVarint(stream.Rest());
      while true
        invariant stream.Valid() && stream.End() == old(stream.End()) && stream.bytesLeft <= old(stream.bytesLeft)
        invariant SkipVarint(stream.Rest()) == all
        decreases stream.bytesLeft
      {
        var got, b := stream.ReadByte();
        if !got {
          return false;
        }
        if b < 128 {
          return true;
        }
      }
    } else if wireType == WT_64BIT {
      var b;
      ok, b := stream.Read(8);
    } else if wireType == WT_STRING {
      var size;
      ok, size := ReadVarint32(stream);
      if ok {
        var b;
        ok, b := stream.Read(size);
      }
    } else if wireType == WT_32BIT {
      var b;
      ok, b := stream.Read(4);
    } else {
      ok := false;
    }
  }

  // ----- substreams -----

  /** A stream limited to the string that comes next; the parent already counts it as consumed. */
  method MakeSubstream(stream: IStream) returns (ok: bool, sub: IStream)
    requires stream.Valid()
    modifies stream
    ensures stream.Valid() && stream.bytesLeft <= old(stream.bytesLeft) && stream.End() <= old(stream.End()) && fresh(sub)
    ensures ok <==> DecodeString(old(stream.Rest())).Ok?
    ensures ok ==>
              && sub.Valid() && sub.buf == stream.buf && sub.bytesLeft < old(stream.bytesLeft)
              && sub.Rest() == DecodeString(old(stream.Rest())).value
              && sub.End() + stream.bytesLeft == old(stream.End())
              && stream.buf[sub.End()..sub.End() + stream.bytesLeft] == DecodeString(old(stream.Rest())).rest
  {
    hide DecodeVarint32;
    var size;
    ok, size := ReadVarint32(stream);
    if !ok || stream.bytesLeft < size {
      sub := new IStream.Copy(stream.buf, stream.state, 0);
      return false, sub;
    }
    ghost var rest := stream.Rest();
    sub := new IStream.Copy(stream.buf, stream.state, size);
    stream.bytesLeft := stream.bytesLeft - size;
    assert sub.Rest() == rest[..size];
    assert stream.buf[sub.End()..sub.End() + stream.bytesLeft] == rest[size..];
  }

  /** Reads the substream to its end and moves the parent behind it. */
  method CloseSubstream(stream: IStream, sub: IStream)
    requires sub.Valid() && sub.buf == stream.buf && sub != stream
    requires sub.End() + stream.bytesLeft <= |stream.buf|
    modifies stream, sub
    ensures stream.Valid() && stream.state == old(sub.End()) && stream.bytesLeft == old(stream.bytesLeft)
  {
    if sub.bytesLeft > 0 {
      var ok, b := sub.Read(sub.bytesLeft);
    }
    stream.state := sub.state;
  }

  // ----- values -----

  /** Types that the decoder handles: distinct tags, no extension fields, and a number of required fields
      that the final check can cope with, here and in all nested types. */
  ghost predicate Decodable(fields: seq<Field>)
    decreases fields
  {
    && DistinctTags(fields) && Checkable(RequiredBefore(fields, |fields|))
    && forall i :: 0 <= i < |fields| ==> FieldDecodable(fields[i])
  }

  ghost predicate FieldDecodable(f: Field)
    decreases f
  {
    f.ltype != Extension && (f.ltype == Submessage ==> Decodable(f.sub))
  }

  method DecodeOne(stream: IStream, f: Field, prior: Option<Value>) returns (ok: bool, v: Value)
    requires stream.Valid() && FieldDecodable(f)
    modifies stream
    ensures stream.Valid() && stream.bytesLeft <= old(stream.bytesLeft)
    ensures stream.End() <= old(stream.End()) && (ok ==> stream.End() == old(stream.End()))
    ensures ok <==> DecodeValue(f, old(stream.Rest()), prior).Ok?
    ensures ok ==> v == DecodeValue(f, old(stream.Rest()), prior).value && stream.Rest() == DecodeValue(f, old(stream.Rest()), prior).rest
    decreases stream.bytesLeft, 0
  {
    v := Int(0);
    if f.ltype == LType.Varint || f.ltype == UVarint || f.ltype == SVarint {
      ok, v := DecodeInteger(stream, f, prior);
    } else if f.ltype == Fixed32 || f.ltype == Fixed64 {
      var width := if f.ltype == Fixed32 then 4 else 8;
      var b;
      ok, b := stream.Read(width);
      if ok {
        v := Int(FromLittleEndian(b));
      }
    } else if f.ltype == Submessage {
      ok, v := DecodeSub(stream, f, prior);
    } else {
      ok, v := DecodeBlob(stream, f, prior);
    }
  }

  method DecodeInteger(stream: IStream, f: Field, prior: Option<Value>) returns (ok: bool, v: Value)
    requires stream.Valid() && (f.ltype == LType.Varint || f.ltype == UVarint || f.ltype == SVarint)
    modifies stream
    ensures stream.Valid() && stream.bytesLeft <= old(stream.bytesLeft)
    ensures stream.End() <= old(stream.End()) && (ok ==> stream.End() == old(stream.End()))
    ensures ok <==> DecodeValue(f, old(stream.Rest()), prior).Ok?
    ensures ok ==> v == DecodeValue(f, old(stream.Rest()), prior).value && stream.Rest() == DecodeValue(f, old(stream.Rest()), prior).rest
  {
    hide DecodeVarint, AsSigned, UnZigZag;
    v := Int(0);
    var value;
    ok, value := ReadVarint(stream);
    if !ok {
      return;
    }
    var svalue: int := value;
    if f.ltype == LType.Varint {
      svalue := if f.dataSize == 8 then AsSigned(value, TWO_63) else AsSigned(value, 0x8000_0000);
    } else if f.ltype == SVarint {
      svalue := UnZigZag(value);
    }
    var half := HalfRange(f.dataSize);
    ok := IntSize(f.dataSize) && (if f.ltype == UVarint then svalue < 2 * half else -half <= svalue < half);
    v := Int(svalue);
  }

  method DecodeBlob(stream: IStream, f: Field, prior: Option<Value>) returns (ok: bool, v: Value)
    requires stream.Valid() && (f.ltype == BytesType || f.ltype == StringType || f.ltype == FixedLengthBytes)
    modifies stream
    ensures stream.Valid() && stream.bytesLeft <= old(stream.bytesLeft)
    ensures stream.End() <= old(stream.End()) && (ok ==> stream.End() == old(stream.End()))
    ensures ok <==> DecodeValue(f, old(stream.Rest()), prior).Ok?
    ensures ok ==> v == DecodeValue(f, old(stream.Rest()), prior).value && stream.Rest() == DecodeValue(f, old(stream.Rest()), prior).rest
  {
    hide DecodeVarint32;
    v := Blob([]);
    var size;
    ok, size := ReadVarint32(stream);
    if !ok {
      return;
    }
    if f.ltype == BytesType && size + BYTES_HEADER > f.dataSize {
      return false, v;
    }
    if f.ltype == StringType && size + 1 > f.dataSize {
      return false, v;
    }
    if f.ltype == FixedLengthBytes {
      if size == 0 {
        v := Blob(Zeros(f.dataSize));
        return true, v;
      }
      if size != f.dataSize {
        return false, v;
      }
    }
    var b;
    ok, b := stream.Read(size);
    v := Blob(if f.ltype == StringType then CString(b) else b);
  }

  /** `pb_dec_submessage`: decodes a limited substream, then closes it. */
  method DecodeSub(stream: IStream, f: Field, prior: Option<Value>) returns (ok: bool, v: Value)
    requires stream.Valid() && f.ltype == Submessage && Decodable(f.sub)
    modifies stream
    ensures stream.Valid() && stream.bytesLeft <= old(stream.bytesLeft)
    ensures stream.End() <= old(stream.End()) && (ok ==> stream.End() == old(stream.End()))
    ensures ok <==> DecodeValue(f, old(stream.Rest()), prior).Ok?
    ensures ok ==> v == DecodeValue(f, old(stream.Rest()), prior).value && stream.Rest() == DecodeValue(f, old(stream.Rest()), prior).rest
    decreases stream.bytesLeft, 0, 0
  {
    hide DecodeFields, DecodeString;
    v := Int(0);
    var sub;
    ok, sub := MakeSubstream(stream);
    if !ok {
      return;
    }
    var base := if prior.Some? && prior.value.Sub? && |prior.value.m.slots| == |f.sub| then prior.value.m else Empty(f.sub);
    var status, m := DecodeMessage(sub, f.sub, base);
    CloseSubstream(stream, sub);
    ok := status;
    v := Sub(m);
  }

  // ----- fields and messages -----

  /** One occurrence of a field: `decode_static_field`. */
  method DecodeInto(stream: IStream, f: Field, wireType: nat, slot: Slot) returns (ok: bool, slot': Slot)
    requires stream.Valid() && FieldDecodable(f)
    modifies stream
    ensures stream.Valid() && stream.bytesLeft <= old(stream.bytesLeft)
    ensures stream.End() <= old(stream.End()) && (ok ==> stream.End() == old(stream.End()))
    ensures ok <==> DecodeSlot(f, wireType, old(stream.Rest()), slot).Ok?
    ensures ok ==>
              && slot' == DecodeSlot(f, wireType, old(stream.Rest()), slot).value
              && stream.Rest() == DecodeSlot(f, wireType, old(stream.Rest()), slot).rest
    decreases stream.bytesLeft, 1
  {
    hide DecodeValue, DecodeItems, DecodeString;
    slot' := slot;
    if f.alloc != Static {
      return false, slot;
    }
    match f.rule
    case Repeated =>
      if wireType == WT_STRING && Packable(f.ltype) {
        ok, slot' := DecodePacked(stream, f, slot);
      } else {
        if |slot.items| >= f.arraySize {
          return false, slot;
        }
        var v;
        ok, v := DecodeOne(stream, f, None);
        slot' := slot.(items := slot.items + [v]);
      }
    case Oneof =>
      var v;
      ok, v := DecodeOne(stream, f, None);
      slot' := Slot(f.tag, [v]);
    case _ =>
      var v;
      ok, v := DecodeOne(stream, f, if slot.items == [] then None else Some(slot.items[0]));
      slot' := Slot(0, [v]);
  }

  /** A packed array: items are read until the substream is empty or the array full. */
  method DecodePacked(stream: IStream, f: Field, slot: Slot) returns (ok: bool, slot': Slot)
    requires stream.Valid() && FieldDecodable(f)
    modifies stream
    ensures stream.Valid() && stream.bytesLeft <= old(stream.bytesLeft)
    ensures stream.End() <= old(stream.End()) && (ok ==> stream.End() == old(stream.End()))
    ensures
      var r := DecodeString(old(stream.Rest()));
      && (ok <==> r.Ok? && DecodeItems(f, r.value, slot.items).Some?)
      && (ok ==> slot' == slot.(items := DecodeItems(f, r.value, slot.items).value) && stream.Rest() == r.rest)
    decreases stream.bytesLeft, 0, 1
  {
    hide DecodeValue, DecodeString, DecodeItems;
    slot' := slot;
    var sub;
    ok, sub := MakeSubstream(stream);
    if !ok {
      return;
    }
    var status, items := PackedLoop(sub, f, slot.items);
    if sub.bytesLeft != 0 {
      return false, slot;      // the array is full, or an item was bad
    }
    CloseSubstream(stream, sub);
    ok := status;
    slot' := slot.(items := items);
  }

  method PackedLoop(sub: IStream, f: Field, before: seq<Value>) returns (status: bool, items: seq<Value>)
    requires sub.Valid() && FieldDecodable(f)
    modifies sub
    ensures sub.Valid() && sub.End() <= old(sub.End()) && (status ==> sub.End() == old(sub.End()))
    ensures
      var r := DecodeItems(f, old(sub.Rest()), before);
      && (status && sub.bytesLeft == 0 <==> r.Some?)
      && (r.Some? ==> items == r.value)
    decreases sub.bytesLeft, 1
  {
    hide DecodeValue;
    status := true;
    items := before;
    while sub.bytesLeft > 0 && |items| < f.arraySize
      invariant sub.Valid() && status && sub.End() == old(sub.End()) && sub.bytesLeft <= old(sub.bytesLeft)
      invariant DecodeItems(f, sub.Rest(), items) == DecodeItems(f, old(sub.Rest()), before)
      decreases sub.bytesLeft
    {
      var ok, v := DecodeOne(sub, f, None);
      if !ok {
        status := false;
        return;
      }
      items := items + [v];
    }
  }

  /** What the loop over the fields ends with. */
  function Finished(fields: seq<Field>, m: Msg, seen: set<nat>, rest: Bytes): Result<Msg> {
    if AllSeen(fields, seen) then Ok(m, rest) else Fail
  }

  /** `pb_decode_noinit`: finds each field with the cyclic iterator, marks required ones in the bit mask,
      skips what it does not know, and checks the mask at the end. */
  method DecodeMessage(stream: IStream, fields: seq<Field>, base: Msg) returns (ok: bool, m: Msg)
    requires stream.Valid() && Decodable(fields) && |base.slots| == |fields|
    modifies stream
    ensures stream.Valid() && stream.bytesLeft <= old(stream.bytesLeft)
    ensures stream.End() <= old(stream.End()) && (ok ==> stream.End() == old(stream.End()))
    ensures ok <==> DecodeFields(fields, old(stream.Rest()), base, {}).Ok?
    ensures ok ==> DecodeFields(fields, old(stream.Rest()), base, {}) == Ok(m, stream.Rest())
    decreases stream.bytesLeft, 2
  {
    hide DecodeFields, DecodeSlot, SkipField, DecodeTag, RequiredBefore, FieldDecodable, Indexes, Tracks, AllSeen;
    m := base;
    ghost var seen: set<nat>, indices: set<nat> := {}, {};
    ghost var target := DecodeFields(fields, stream.Rest(), base, {});
    var words: seq<Word> := [seq(32, _ => false), seq(32, _ => false)];
    NothingSeen(fields);
    var iter := new FieldIter(fields);
    var over := false;
    while !over && stream.bytesLeft > 0
      invariant stream.Valid() && stream.bytesLeft <= old(stream.bytesLeft) && stream.End() == old(stream.End())
      invariant iter.Valid() && iter.fields == fields && fresh(iter)
      invariant |m.slots| == |fields|
      invariant Tracks(words, indices) && Indexes(fields, seen, indices)
      invariant !over ==> DecodeFields(fields, stream.Rest(), m, seen) == target
      invariant over ==> target == Finished(fields, m, seen, stream.Rest())
      decreases !over, stream.bytesLeft
    {
      ghost var s := stream.Rest();
      var t := ReadTag(stream);
      if t.BadTag? {
        BadTagFails(fields, s, m, seen);
        return false, m;
      }
      if t.End? {
        TagEnds(fields, s, m, seen);
        over := true;
      } else {
        var found, _ := iter.Find(t.number);
        FoundIsFirst(fields, t.number, iter.pos);
        if found && fields == [] {
          UnknownTag(fields, s, m, seen);
          return false, m;         // the terminator is no field
        }
        if !found {
          UnknownTag(fields, s, m, seen);
          ok := SkipTo(stream, t.wireType);
          if !ok {
            return false, m;
          }
        } else {
          var i := iter.pos;
          PbRoundTrip.DecodeOne(fields, s, m, seen, t.wireType, t.number, t.rest, i);
          if fields[i].rule == Required {
            RequiredFits(fields, i);
            words := MarkSeen(words, iter.requiredIndex, indices);
            MarkIndexes(fields, seen, indices, i);
            indices := indices + {RequiredBefore(fields, i)};
          }
          var slot;
          ok, slot := DecodeInto(stream, fields[i], t.wireType, m.slots[SlotOf(fields, i)]);
          if !ok {
            return false, m;
          }
          seen := PbRoundTrip.See(fields, seen, i);
          m := PbRoundTrip.Put(fields, m, i, slot);
        }
      }
    }
    if !over {
      StreamEnds(fields, m, seen, stream.Rest());
    }
    var count := iter.CountRequired();
    TrackingIsExact(fields, seen, indices);
    ok := CheckRequired(words, count, indices);
    AllSeenIs(fields, seen);
  }

  // ----- one turn of the loop, in terms of the decoding function -----

  lemma NothingSeen(fields: seq<Field>)
    ensures Tracks([seq(32, _ => false), seq(32, _ => false)], {}) && Indexes(fields, {}, {})
  {
  }

  lemma BadTagFails(fields: seq<Field>, s: Bytes, m: Msg, seen: set<nat>)
    requires |m.slots| == |fields| && s != [] && DecodeTag(s).BadTag?
    ensures DecodeFields(fields, s, m, seen).Fail?
  {
  }

  lemma TagEnds(fields: seq<Field>, s: Bytes, m: Msg, seen: set<nat>)
    requires |m.slots| == |fields| && s != [] && DecodeTag(s).End?
    ensures DecodeFields(fields, s, m, seen) == Finished(fields, m, seen, DecodeTag(s).rest)
  {
  }

  lemma StreamEnds(fields: seq<Field>, m: Msg, seen: set<nat>, s: Bytes)
    requires |m.slots| == |fields| && s == []
    ensures DecodeFields(fields, s, m, seen) == Finished(fields, m, seen, s)
  {
  }

  lemma UnknownTag(fields: seq<Field>, s: Bytes, m: Msg, seen: set<nat>)
    requires |m.slots| == |fields| && s != [] && DecodeTag(s).Tag? && Find(fields, DecodeTag(s).number, 0).None?
    ensures
      var Tag(wireType, number, rest) := DecodeTag(s);
      var r := SkipField(wireType, rest);
      DecodeFields(fields, s, m, seen) ==
      if (fields == [] && number == 0) || r.Fail? then Fail else DecodeFields(fields, r.rest, m, seen)
  {
    hide SkipField;
  }

  /** With distinct tags, the field found from anywhere is the first one with the tag. */
  lemma FoundIsFirst(fields: seq<Field>, tag: nat, pos: nat)
    requires DistinctTags(fields)
    ensures pos < |fields| && Matches(fields, pos, tag) ==> Find(fields, tag, 0) == Some(pos)
    ensures (forall i: nat :: i < |fields| ==> !Matches(fields, i, tag)) ==> Find(fields, tag, 0).None?
  {
    var r := Find(fields, tag, 0);
  }

  lemma RequiredFits(fields: seq<Field>, i: nat)
    requires Decodable(fields) && i < |fields| && fields[i].rule == Required
    ensures RequiredBefore(fields, i) < MAX_REQUIRED_FIELDS
  {
    RequiredIndexGrows(fields, i, |fields|);
  }

  lemma MarkIndexes(fields: seq<Field>, seen: set<nat>, indices: set<nat>, i: nat)
    requires Indexes(fields, seen, indices) && i < |fields| && fields[i].rule == Required
    ensures Indexes(fields, seen + {i}, indices + {RequiredBefore(fields, i)})
  {
    hide RequiredBefore;
    var seen', indices' := seen + {i}, indices + {RequiredBefore(fields, i)};
    forall k | k in indices'
      ensures Occurred(fields, seen', k)
    {
      if k in indices {
        assert Occurred(fields, seen, k);
        var j :| j in seen && j < |fields| && RequiredBefore(fields, j) == k;
        assert j in seen';
      } else {
        assert i in seen';
      }
    }
  }

  lemma AllSeenIs(fields: seq<Field>, seen: set<nat>)
    ensures AllSeen(fields, seen) <==> forall i: nat :: i < |fields| && fields[i].rule == Required ==> i in seen
  {
  }
}
