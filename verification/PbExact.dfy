/**
 Exactly which bytes the decoder accepts for a field, what it skips, and the bytes of known messages.
 */
module PbExact {
  import opened ByteStrings
  import opened PbIntegers
  import opened PbFields
  import opened PbMessages
  import opened PbRoundTrip
  import opened PbUnknown

  // ----- integers -----

  /** How many values an integer member of `n` bytes has. */
  function Values(n: nat): nat {
    if n == 1 then 256 else if n == 2 then 65536 else if n == 4 then 0x1_0000_0000 else 0x1_0000_0000_0000_0000
  }

  /** An unsigned field is accepted iff the varint is a value of its member. */
  lemma UnsignedIsAcceptedIff(f: Field, s: Bytes, u: uint64, rest: Bytes, prior: Option<Value>)
    requires f.ltype == UVarint && f.dataSize in {1, 2, 4, 8} && DecodeVarint(s) == Ok(u, rest)
    ensures DecodeValue(f, s, prior) == if u < Values(f.dataSize) then Ok(Int(u), rest) else Fail
  {
    hide DecodeVarint;
  }

  /** So is a zigzag field, with the signed value that was encoded. */
  lemma ZigZagIsAcceptedIff(f: Field, s: Bytes, v: int64, rest: Bytes, prior: Option<Value>)
    requires f.ltype == SVarint && f.dataSize in {1, 2, 4, 8} && DecodeVarint(s) == Ok(ZigZag(v), rest)
    ensures DecodeValue(f, s, prior) ==
            if -(Values(f.dataSize) / 2) <= v < Values(f.dataSize) / 2 then Ok(Int(v), rest) else Fail
  {
    hide DecodeVarint, UnZigZag, ZigZag;
    ZigZagInverts(v);
  }

  /** A signed field of eight bytes takes every varint; a smaller one looks at the low 32 bits only, as a signed
      number, and is accepted iff that is a value of its member.  Higher bits are dropped without an error. */
  lemma SignedIsAcceptedIff(f: Field, s: Bytes, u: uint64, v: int, rest: Bytes, prior: Option<Value>)
    requires f.ltype == LType.Varint && f.dataSize in {1, 2, 4, 8} && DecodeVarint(s) == Ok(u, rest)
    requires
      if f.dataSize == 8 then v == (if u < 0x8000_0000_0000_0000 then u else u - 0x1_0000_0000_0000_0000)
      else -0x8000_0000 <= v < 0x8000_0000 && (u - v) % 0x1_0000_0000 == 0
    ensures DecodeValue(f, s, prior) ==
            if -(Values(f.dataSize) / 2) <= v < Values(f.dataSize) / 2 then Ok(Int(v), rest) else Fail
  {
    hide DecodeVarint;
    if f.dataSize != 8 {
      assert u % 0x1_0000_0000 == if v < 0 then v + 0x1_0000_0000 else v;
    }
  }

  /** Without a whole varint, or with a member of another size, an integer field fails. */
  lemma IntegerFails(f: Field, s: Bytes, prior: Option<Value>)
    requires f.ltype == LType.Varint || f.ltype == UVarint || f.ltype == SVarint
    requires DecodeVarint(s).Fail? || f.dataSize !in {1, 2, 4, 8}
    ensures DecodeValue(f, s, prior) == Fail
  {
    hide DecodeVarint, AsSigned, UnZigZag;
  }

  // ----- strings and bytes -----

  /** Bytes are accepted iff they fit behind the four bytes of their count. */
  lemma BytesAreAcceptedIff(f: Field, s: Bytes, b: Bytes, rest: Bytes, prior: Option<Value>)
    requires f.ltype == BytesType && DecodeString(s) == Ok(b, rest)
    ensures DecodeValue(f, s, prior) == if 4 + |b| <= f.dataSize then Ok(Blob(b), rest) else Fail
  {
    hide DecodeString;
  }

  /** Bytes of fixed length are accepted iff they have that length, or none: then they are all zero. */
  lemma FixedBytesAreAcceptedIff(f: Field, s: Bytes, b: Bytes, rest: Bytes, prior: Option<Value>)
    requires f.ltype == FixedLengthBytes && DecodeString(s) == Ok(b, rest)
    ensures DecodeValue(f, s, prior) ==
            if b == [] then Ok(Blob(seq(f.dataSize, _ => 0)), rest)
            else if |b| == f.dataSize then Ok(Blob(b), rest) else Fail
  {
    hide DecodeString;
    assert Zeros(f.dataSize) == seq(f.dataSize, _ => 0);
  }

  /** A string is accepted iff it leaves room for its NUL; it then ends at the first NUL inside it. */
  lemma StringIsAcceptedIff(f: Field, s: Bytes, b: Bytes, rest: Bytes, prior: Option<Value>, n: nat)
    requires f.ltype == StringType && DecodeString(s) == Ok(b, rest)
    requires n <= |b| && 0 !in b[..n] && (n < |b| ==> b[n] == 0)
    ensures DecodeValue(f, s, prior) == if |b| < f.dataSize then Ok(Blob(b[..n]), rest) else Fail
  {
    hide DecodeString;
    EndsAtNul(b, n);
  }

  lemma {:induction false} EndsAtNul(b: Bytes, n: nat)
    requires n <= |b| && 0 !in b[..n] && (n < |b| ==> b[n] == 0)
    ensures CString(b) == b[..n]
    decreases n
  {
    if n > 0 {
      assert b[0] in b[..n];
      assert forall x :: x in b[1..][..n - 1] ==> x in b[..n];
      EndsAtNul(b[1..], n - 1);
      assert [b[0]] + b[1..][..n - 1] == b[..n];
    }
  }

  // ----- wire types -----

  /** The decoder does not compare a field's wire type with its declaration, except to tell a packed array. */
  lemma WireTypeIsIgnored(f: Field, w: nat, w': nat, s: Bytes, slot: Slot)
    requires f.rule != Repeated || !Packable(f.ltype) || (w == 2 <==> w' == 2)
    ensures DecodeSlot(f, w, s, slot) == DecodeSlot(f, w', s, slot)
  {
    hide DecodeValue, DecodeString, DecodeItems;
  }

  /** The bytes 0d 05, a tag of wire type 5 and a varint, give 5 to a field numbered 1 of type uint32. */
  lemma WrongWireTypeIsDecoded()
    ensures Decode([Known(1, UVarint, Optional, 4, [])], [0x0d, 0x05]) == Ok(One(Int(5)), [])
  {
    hide Varints.Varint, DecodeFields, DecodeTag, DecodeVarint, EncodeTag;
    var f := Known(1, UVarint, Optional, 4, []);
    var p := Empty([f]);
    Varints.VarintOpen(5);
    Varints.VarintOpen(13);
    VarintInverts(5, []);
    assert [0x05] + [] == [0x05];
    UnsignedIsAcceptedIff(f, [0x05], 5, [], None);
    TagInverts(5, 1, [0x05]);
    assert EncodeTag(5, 1) == [0x0d] by { TagBytes(); }
    assert [0x0d] + [0x05] == [0x0d, 0x05];
    assert Find([f], 1, 0) == Some(0);
    WireTypeIsIgnored(f, 5, 0, [0x05], NOTHING);
    DecodeOne([f], [0x0d, 0x05], p, {}, 5, 1, [0x05], 0);
    assert Put([f], p, 0, Slot(0, [Int(5)])).slots == [Slot(0, [Int(5)])];
    NothingLeft([f], One(Int(5)));
  }

  lemma TagBytes()
    ensures EncodeTag(5, 1) == [0x0d]
  {
    Varints.VarintOpen(13);
  }

  lemma NothingLeft(fields: seq<Field>, m: Msg)
    requires |m.slots| == |fields| && forall i :: 0 <= i < |fields| ==> fields[i].rule != Required
    ensures DecodeFields(fields, [], m, {}) == Ok(m, [])
  {
  }

  /** How many bytes a skip takes, by wire type. */
  lemma SkipTakes(wireType: nat, s: Bytes)
    ensures wireType == 1 ==> SkipField(1, s) == if |s| < 8 then Fail else Ok((), s[8..])
    ensures wireType == 5 ==> SkipField(5, s) == if |s| < 4 then Fail else Ok((), s[4..])
    ensures wireType == 3 || wireType == 4 || wireType > 5 ==> SkipField(wireType, s) == Fail
    ensures wireType == 2 ==>
              SkipField(2, s) == if DecodeString(s).Fail? then Fail else Ok((), DecodeString(s).rest)
  {
    hide SkipVarint, DecodeString;
  }

  /** A varint is skipped up to and including its first byte below 128, however long it is. */
  lemma {:induction false} SkipTakesVarint(s: Bytes, n: nat)
    requires n <= |s| && (forall i :: 0 <= i < n ==> s[i] >= 128) && (n < |s| ==> s[n] < 128)
    ensures SkipField(0, s) == if n < |s| then Ok((), s[n + 1..]) else Fail
    decreases n
  {
    if n > 0 {
      SkipTakesVarint(s[1..], n - 1);
    }
  }

  // ----- what the encoder writes is what a skip takes -----

  lemma {:induction false} VarintIsSkipped(n: nat, rest: Bytes)
    ensures SkipVarint(Varints.Varint(n) + rest) == Ok((), rest)
    decreases n
  {
    hide Varints.Varint;
    Varints.VarintStep(n, rest);
    if n >= 128 {
      VarintIsSkipped(n / 128, rest);
    }
  }

  lemma FixedIsSkipped(n: nat, width: nat, rest: Bytes)
    ensures |LittleEndian(n, width)| == width && (LittleEndian(n, width) + rest)[width..] == rest
  {
  }

  /** A value of any field, skipped by one who does not know the field. */
  lemma ValueIsSkipped(f: Field, v: Value, rest: Bytes)
    requires WfField(f) && WfValue(f, v) && ValuePrefixes(f, v)
    ensures EncodeValue(f, v).Some?
    ensures SkipField(WireType(f.ltype), EncodeValue(f, v).value + rest) == Ok((), rest)
  {
    ValueRoundTrip(f, v);
    hide Varints.Varint, EncodeFrom, SkipVarint, DecodeString, LittleEndian, MsgPrefixes, WfMsg, WfFields;
    match f.ltype
    case Varint => VarintIsSkipped(AsUint64(v.i), rest);
    case UVarint => VarintIsSkipped(v.i, rest);
    case SVarint => VarintIsSkipped(ZigZag(v.i), rest);
    case Fixed32 => FixedIsSkipped(v.i, 4, rest);
    case Fixed64 => FixedIsSkipped(v.i, 8, rest);
    case Submessage => PrefixedReads(EncodeFrom(f.sub, v.m, 0).value, rest);
    case BytesType => PrefixedReads(v.bytes, rest);
    case StringType => PrefixedReads(v.bytes, rest);
    case FixedLengthBytes => PrefixedReads(v.bytes, rest);
    case Extension =>
  }

  /** So is a packed array, under the wire type of strings. */
  lemma PackedIsSkipped(f: Field, items: seq<Value>, rest: Bytes)
    requires EncodeItems(f, items, false).Some? && Short(EncodeItems(f, items, false))
    ensures SkipField(2, Prefixed(EncodeItems(f, items, false)).value + rest) == Ok((), rest)
  {
    hide Varints.Varint, DecodeString, SkipVarint, EncodeItems;
    PrefixedReads(EncodeItems(f, items, false).value, rest);
  }

  // ----- tags -----

  /** Five bytes that continue are no tag: with more behind them the message fails, at the end of the bytes it
      ends. */
  lemma OverlongTag(fields: seq<Field>, s: Bytes, m: Msg, seen: set<nat>)
    requires |m.slots| == |fields| && |s| >= 5 && forall i :: 0 <= i < 5 ==> s[i] >= 128
    ensures DecodeFields(fields, s, m, seen) == if |s| == 5 && AllSeen(fields, seen) then Ok(m, []) else Fail
  {
    NoVarint(s, 5);
    hide Varints.ParseVarint, AllSeen;
    assert DecodeTag(s) == if |s| == 5 then End([]) else BadTag;
  }

  lemma {:induction false} NoVarint(s: Bytes, limit: nat)
    requires |s| >= limit && forall i :: 0 <= i < limit ==> s[i] >= 128
    ensures Varints.ParseVarint(s, limit) == None
    decreases limit
  {
    if limit > 0 {
      NoVarint(s[1..], limit - 1);
    }
  }

  // ----- errors of the encoder -----

  /** An array is encoded iff it is no longer than its member, its items being encodable. */
  lemma ArrayIsEncodedIff(f: Field, items: seq<Value>)
    requires f.alloc == Static && f.rule == Repeated
    requires forall k :: 0 <= k < |items| ==> EncodeValue(f, items[k]).Some?
    ensures EncodeField(f, Slot(0, items)).Some? <==> |items| <= f.arraySize
  {
    hide EncodeValue, EncodeItems, EncodeTag;
    ItemsEncode(f, items, false);
    ItemsEncode(f, items, true);
  }

  lemma {:induction false} ItemsEncode(f: Field, items: seq<Value>, tagged: bool)
    requires forall k :: 0 <= k < |items| ==> EncodeValue(f, items[k]).Some?
    ensures EncodeItems(f, items, tagged).Some?
    decreases |items|
  {
    hide EncodeValue, EncodeTag;
    if items != [] {
      ItemsEncode(f, items[1..], tagged);
    }
  }

  /** Bytes are encoded iff their count fits the member; of a string without a NUL the member's bytes. */
  lemma BlobIsEncodedIff(f: Field, b: Bytes)
    ensures f.ltype == BytesType ==> (EncodeValue(f, Blob(b)).Some? <==> 4 + |b| <= f.dataSize)
    ensures f.ltype == StringType && |b| >= f.dataSize ==>
              EncodeValue(f, Blob(b)) == Some(Varints.Varint(f.dataSize) + b[..f.dataSize])
  {
    hide Varints.Varint;
    if |b| == f.dataSize {
      assert b[..f.dataSize] == b;
    }
  }

  // ----- known bytes -----

  function Known(tag: nat, ltype: LType, rule: Rule, size: nat, sub: seq<Field>): Field {
    Field(tag, ltype, rule, Static, 0, -4, size, 4, sub)
  }

  function One(v: Value): Msg {
    Msg([Slot(0, [v])])
  }

  /** The examples of the Protocol Buffers Encoding specification, sections "A Simple Message", "Strings",
      "Embedded Messages" and "Packed Repeated Fields". */
  lemma SpecificationExamples()
    ensures
      var a := Known(1, LType.Varint, Required, 4, []);
      && Encode([a], One(Int(150))) == Some([0x08, 0x96, 0x01])
      && Encode([Known(2, StringType, Required, 16, [])], One(Blob([0x74, 0x65, 0x73, 0x74, 0x69, 0x6e, 0x67])))
         == Some([0x12, 0x07, 0x74, 0x65, 0x73, 0x74, 0x69, 0x6e, 0x67])
      && Encode([Known(3, Submessage, Required, 8, [a])], One(Sub(One(Int(150)))))
         == Some([0x1a, 0x03, 0x08, 0x96, 0x01])
      && Encode([Known(4, LType.Varint, Repeated, 4, [])], Msg([Slot(0, [Int(3), Int(270), Int(86942)])]))
         == Some([0x22, 0x06, 0x03, 0x8e, 0x02, 0x9e, 0xa7, 0x05])
  {
    SimpleExample();
    StringExample();
    NestedExample();
    PackedExample();
  }

  lemma SimpleExample()
    ensures Encode([Known(1, LType.Varint, Required, 4, [])], One(Int(150))) == Some([0x08, 0x96, 0x01])
  {
    hide Varints.Varint, EncodeFrom;
    KnownVarints();
    OneFieldBytes(Known(1, LType.Varint, Required, 4, []), Int(150), [0x96, 0x01], [0x08]);
    assert [0x08] + [0x96, 0x01] == [0x08, 0x96, 0x01];
  }

  lemma StringExample()
    ensures Encode([Known(2, StringType, Required, 16, [])], One(Blob([0x74, 0x65, 0x73, 0x74, 0x69, 0x6e, 0x67])))
         == Some([0x12, 0x07, 0x74, 0x65, 0x73, 0x74, 0x69, 0x6e, 0x67])
  {
    hide Varints.Varint, EncodeFrom;
    KnownVarints();
    var f, b := Known(2, StringType, Required, 16, []), [0x74, 0x65, 0x73, 0x74, 0x69, 0x6e, 0x67];
    assert EncodeValue(f, Blob(b)) == Some([0x07] + b);
    OneFieldBytes(f, Blob(b), [0x07] + b, [0x12]);
    assert [0x12] + ([0x07] + b) == [0x12, 0x07, 0x74, 0x65, 0x73, 0x74, 0x69, 0x6e, 0x67];
  }

  lemma NestedExample()
    ensures Encode([Known(3, Submessage, Required, 8, [Known(1, LType.Varint, Required, 4, [])])], One(Sub(One(Int(150)))))
         == Some([0x1a, 0x03, 0x08, 0x96, 0x01])
  {
    hide Varints.Varint, EncodeFrom;
    KnownThree();
    SimpleExample();
    var f := Known(3, Submessage, Required, 8, [Known(1, LType.Varint, Required, 4, [])]);
    assert [0x03] + [0x08, 0x96, 0x01] == [0x03, 0x08, 0x96, 0x01];
    assert EncodeValue(f, Sub(One(Int(150)))) == Some([0x03, 0x08, 0x96, 0x01]);
    OneFieldBytes(f, Sub(One(Int(150))), [0x03, 0x08, 0x96, 0x01], [0x1a]);
    assert [0x1a] + [0x03, 0x08, 0x96, 0x01] == [0x1a, 0x03, 0x08, 0x96, 0x01];
  }

  lemma OneFieldBytes(f: Field, v: Value, body: Bytes, tag: Bytes)
    requires f.alloc == Static && f.rule == Required && EncodeValue(f, v) == Some(body) && TagFor(f) == tag
    ensures Encode([f], One(v)) == Some(tag + body)
  {
    hide EncodeValue, TagFor;
    EncodeFromOpen([f], One(v), 0);
    EncodeFromOpen([f], One(v), 1);
    assert tag + body + [] == tag + body;
  }

  lemma PackedExample()
    ensures Encode([Known(4, LType.Varint, Repeated, 4, [])], Msg([Slot(0, [Int(3), Int(270), Int(86942)])]))
         == Some([0x22, 0x06, 0x03, 0x8e, 0x02, 0x9e, 0xa7, 0x05])
  {
    hide Varints.Varint;
    KnownVarints();
    var f := Known(4, LType.Varint, Repeated, 4, []);
    var a, b, c := Int(3), Int(270), Int(86942);
    ItemsOpen(f, []);
    ItemsOpen(f, [c]);
    ItemsOpen(f, [b, c]);
    ItemsOpen(f, [a, b, c]);
    assert [c][1..] == [] && [b, c][1..] == [c] && [a, b, c][1..] == [b, c];
    assert [0x9e, 0xa7, 0x05] + [] == [0x9e, 0xa7, 0x05];
    assert [0x8e, 0x02] + [0x9e, 0xa7, 0x05] == [0x8e, 0x02, 0x9e, 0xa7, 0x05];
    var inner: Bytes := [0x03, 0x8e, 0x02, 0x9e, 0xa7, 0x05];
    assert [0x03] + [0x8e, 0x02, 0x9e, 0xa7, 0x05] == inner;
    assert EncodeItems(f, [a, b, c], false) == Some(inner);
    hide EncodeItems;
    assert [0x22] + ([0x06] + inner) + [] == [0x22, 0x06, 0x03, 0x8e, 0x02, 0x9e, 0xa7, 0x05];
    assert EncodeArray(f, [a, b, c]) == Some([0x22] + ([0x06] + inner));
    EncodeFromOpen([f], Msg([Slot(0, [a, b, c])]), 0);
    EncodeFromOpen([f], Msg([Slot(0, [a, b, c])]), 1);
  }

  lemma ItemsOpen(f: Field, items: seq<Value>)
    ensures EncodeItems(f, items, false) ==
            if items == [] then Some([])
            else Joined(EncodeValue(f, items[0]), EncodeItems(f, items[1..], false))
  {
    hide EncodeValue;
  }

  lemma KnownThree()
    ensures Varints.Varint(5) == [0x05] && Varints.Varint(3) == [0x03] && Varints.Varint(26) == [0x1a]
  {
    hide Varints.Varint;
    Varints.VarintOpen(3);
    Varints.VarintOpen(5);
    Varints.VarintOpen(26);
  }

  lemma KnownVarints()
    ensures Varints.Varint(3) == [0x03] && Varints.Varint(6) == [0x06] && Varints.Varint(7) == [0x07] && Varints.Varint(8) == [0x08]
    ensures Varints.Varint(18) == [0x12] && Varints.Varint(26) == [0x1a] && Varints.Varint(34) == [0x22]
    ensures Varints.Varint(150) == [0x96, 0x01] && Varints.Varint(270) == [0x8e, 0x02]
    ensures Varints.Varint(86942) == [0x9e, 0xa7, 0x05]
  {
    hide Varints.Varint;
    Varints.VarintOpen(3);
    Varints.VarintOpen(6);
    Varints.VarintOpen(7);
    Varints.VarintOpen(8);
    Varints.VarintOpen(18);
    Varints.VarintOpen(26);
    Varints.VarintOpen(34);
    Varints.VarintOpen(1);
    Varints.VarintOpen(2);
    Varints.VarintOpen(5);
    Varints.VarintOpen(150);
    Varints.VarintOpen(270);
    Varints.VarintOpen(679);
    Varints.VarintOpen(86942);
  }

  /** Fixed-width integers are little-endian, under wire types 5 and 1; zigzag alternates the signs. */
  lemma FixedExamples()
    ensures Encode([Known(1, Fixed32, Required, 4, [])], One(Int(0x01020304))) == Some([0x0d, 4, 3, 2, 1])
    ensures Encode([Known(1, Fixed64, Required, 8, [])], One(Int(0x0102030405060708))) == Some([0x09, 8, 7, 6, 5, 4, 3, 2, 1])
    ensures Encode([Known(1, SVarint, Required, 4, [])], One(Int(-2))) == Some([0x08, 0x03])
  {
    Fixed32Example();
    Fixed64Example();
    ZigZagExample();
  }

  lemma Fixed32Example()
    ensures Encode([Known(1, Fixed32, Required, 4, [])], One(Int(0x01020304))) == Some([0x0d, 4, 3, 2, 1])
  {
    hide Varints.Varint, EncodeFrom, LittleEndian;
    Varints.VarintOpen(13);
    FourBytes();
    OneFieldBytes(Known(1, Fixed32, Required, 4, []), Int(0x01020304), [4, 3, 2, 1], [0x0d]);
    assert [0x0d] + [4, 3, 2, 1] == [0x0d, 4, 3, 2, 1];
  }

  lemma Fixed64Example()
    ensures Encode([Known(1, Fixed64, Required, 8, [])], One(Int(0x0102030405060708))) == Some([0x09, 8, 7, 6, 5, 4, 3, 2, 1])
  {
    hide Varints.Varint, EncodeFrom, LittleEndian;
    Varints.VarintOpen(9);
    EightBytes();
    OneFieldBytes(Known(1, Fixed64, Required, 8, []), Int(0x0102030405060708), [8, 7, 6, 5, 4, 3, 2, 1], [0x09]);
    assert [0x09] + [8, 7, 6, 5, 4, 3, 2, 1] == [0x09, 8, 7, 6, 5, 4, 3, 2, 1];
  }

  lemma ZigZagExample()
    ensures Encode([Known(1, SVarint, Required, 4, [])], One(Int(-2))) == Some([0x08, 0x03])
  {
    hide Varints.Varint, EncodeFrom, ZigZag;
    Varints.VarintOpen(8);
    Varints.VarintOpen(3);
    ZigZagInverts(-2);
    OneFieldBytes(Known(1, SVarint, Required, 4, []), Int(-2), [0x03], [0x08]);
    assert [0x08] + [0x03] == [0x08, 0x03];
  }

  lemma FourBytes()
    ensures LittleEndian(0x01020304, 4) == [4, 3, 2, 1]
  {
  }

  lemma EightBytes()
    ensures LittleEndian(0x0102030405060708, 8) == [8, 7, 6, 5, 4, 3, 2, 1]
  {
  }
}
