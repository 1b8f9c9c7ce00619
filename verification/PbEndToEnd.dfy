/**
 Encoder and decoder together, through real buffers.
 */
module PbEndToEnd {
  import opened ByteStrings
  import opened PbIntegers
  import opened PbFields
  import opened PbMessages
  import opened PbRoundTrip
  import opened PbEncoder
  import opened PbDecoder

  /** `pb_decode`: fields start out without contents. */
  method DecodeFresh(stream: IStream, fields: seq<Field>) returns (ok: bool, m: Msg)
    requires stream.Valid() && Decodable(fields)
    modifies stream
    ensures stream.Valid()
    ensures ok <==> Decode(fields, old(stream.Rest())).Ok?
    ensures ok ==> Decode(fields, old(stream.Rest())) == Ok(m, stream.Rest())
  {
    hide DecodeFields, Decodable;
    ok, m := DecodeMessage(stream, fields, Empty(fields));
  }

  // ----- well-formed messages fit the encoder -----

  lemma IntIsShort(f: Field, v: Value)
    requires EncodeValue(f, v).Some? && Packable(f.ltype)
    ensures |EncodeValue(f, v).value| <= 10
  {
    hide Varints.Varint, LittleEndian;
    match f.ltype
    case Varint => VarintFits(AsUint64(v.i));
    case UVarint => VarintFits(v.i);
    case SVarint => VarintFits(ZigZag(v.i));
    case Fixed32 =>
    case Fixed64 =>
  }

  lemma PrefixedIsShort(body: Bytes)
    requires |body| < TWO_32
    ensures Lengths(Prefixed(Some(body)))
  {
    hide Varints.Varint;
    VarintFits(|body|);
  }

  lemma {:induction false} WfValueFits(f: Field, v: Value)
    requires WfField(f) && WfValue(f, v) && ValuePrefixes(f, v)
    ensures ValueFits(f, v)
    decreases v
  {
    hide Varints.Varint, EncodeFrom, LittleEndian, MsgFits, WfMsg, MsgPrefixes, WfFields;
    if Packable(f.ltype) {
      if EncodeValue(f, v).Some? {
        IntIsShort(f, v);
      }
    } else if f.ltype == Submessage {
      WfMeansFits(f.sub, v.m);
      if EncodeFrom(f.sub, v.m, 0).Some? {
        PrefixedIsShort(EncodeFrom(f.sub, v.m, 0).value);
      }
    } else {
      PrefixedIsShort(v.bytes);
    }
  }

  lemma {:induction false} WfMeansFits(fields: seq<Field>, m: Msg)
    requires WfFields(fields) && WfMsg(fields, m) && MsgPrefixes(fields, m) && Lengths(EncodeFrom(fields, m, 0))
    ensures MsgFits(fields, m)
    decreases m, 1
  {
    hide EncodeFrom, WfField, WfValue, ValuePrefixes, ValueFits, SlotFits, FieldPrefixes;
    forall i: nat | i < |fields|
      ensures SlotFits(fields[i], m.slots[SlotOf(fields, i)])
    {
      WfSlotFits(fields, m, i);
    }
  }

  lemma WfSlotFits(fields: seq<Field>, m: Msg, i: nat)
    requires WfFields(fields) && WfMsg(fields, m) && MsgPrefixes(fields, m) && i < |fields|
    ensures SlotFits(fields[i], m.slots[SlotOf(fields, i)])
    decreases m, 0
  {
    hide EncodeFrom, EncodeItems, WfValue, WfField, ValuePrefixes, ValueFits, SlotOf;
    var f, slot := fields[i], m.slots[SlotOf(fields, i)];
    assert WfField(f) && WfSlot(fields, i, m.slots[i]) && FieldPrefixes(f, slot);
    StaticTag(f);
    SlotOfPlain(fields, i);
    if slot.items != [] && (f.rule != Oneof || slot.which == f.tag) {
      forall k | 0 <= k < |slot.items|
        ensures ValueFits(f, slot.items[k])
      {
        ItemIsWf(fields, m, i, k);
        WfValueFits(f, slot.items[k]);
      }
    }
  }

  lemma StaticTag(f: Field)
    requires WfField(f)
    ensures f.alloc == Static && f.tag < TWO_32
  {
  }

  lemma SlotOfPlain(fields: seq<Field>, i: nat)
    requires i < |fields|
    ensures fields[i].rule != Oneof ==> SlotOf(fields, i) == i
  {
  }

  lemma ItemIsWf(fields: seq<Field>, m: Msg, i: nat, k: nat)
    requires WfFields(fields) && WfMsg(fields, m) && i < |fields|
    requires fields[i].rule == Repeated || Present(fields[i], m.slots[SlotOf(fields, i)])
    requires k < |m.slots[SlotOf(fields, i)].items|
    ensures WfValue(fields[i], m.slots[SlotOf(fields, i)].items[k])
  {
    hide WfValue, WfField, SlotOf;
    SlotOfPlain(fields, i);
    if fields[i].rule == Repeated {
      assert WfSlot(fields, i, m.slots[i]);
    } else {
      PresentIsWf(fields, m, i);
    }
  }

  /** Encoding a well-formed message into a buffer succeeds exactly when the buffer is large enough, and
      decoding what was written then returns the message and leaves nothing unread.  Lengths inside the message
      fit 32 bits, and its own fits a size_t. */
  method EncodeThenDecode(fields: seq<Field>, m: Msg, bufsize: nat) returns (ok: bool, decoded: Msg, left: nat)
    requires WfFields(fields) && WfMsg(fields, m) && Decodable(fields)
    requires MsgPrefixes(fields, m) && Lengths(Encode(fields, m))
    ensures Encode(fields, m).Some?
    ensures ok <==> |Encode(fields, m).value| <= bufsize
    ensures ok ==> decoded == m && left == 0
  {
    hide DecodeFields, EncodeFrom, Decodable, MsgFits, WfFields, WfMsg, MsgPrefixes;
    decoded, left := m, 0;
    MessageRoundTrip(fields, m);
    WfMeansFits(fields, m);
    var stream := new OStream.Buffer([], bufsize);
    ok := EncodeMessage(stream, fields, m);
    if !ok {
      return;
    }
    assert [] + Encode(fields, m).value == Encode(fields, m).value;
    var input := new IStream(stream.out);
    var status;
    status, decoded := DecodeFresh(input, fields);
    assert status;
    left := input.bytesLeft;
  }
}
