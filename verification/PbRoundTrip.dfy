/**
 Decoding what was encoded gives back the same message and consumes exactly its bytes.
 */
module PbRoundTrip {
  import opened ByteStrings
  import opened Varints
  import opened PbIntegers
  import opened PbFields
  import opened PbMessages

  // ----- well-formed types and values -----

  /** Static fields with positive, distinct field numbers and integer members of 1, 2, 4 or 8 bytes. */
  ghost predicate WfField(f: Field)
    decreases f
  {
    && f.alloc == Static && f.ltype != Extension && 0 < f.tag < 0x2000_0000
    && (f.ltype == LType.Varint || f.ltype == UVarint || f.ltype == SVarint ==> IntSize(f.dataSize))
    && (f.ltype == Submessage ==> WfFields(f.sub))
  }

  ghost predicate WfFields(fields: seq<Field>)
    decreases fields
  {
    DistinctTags(fields) && forall i :: 0 <= i < |fields| ==> WfField(fields[i])
  }

  /** The value fits the member: its range, its buffer (a string with its NUL inside), its type. */
  ghost predicate WfValue(f: Field, v: Value)
    decreases v
  {
    match f.ltype
    case Varint => v.Int? && -HalfRange(f.dataSize) <= v.i < HalfRange(f.dataSize)
    case SVarint => v.Int? && -HalfRange(f.dataSize) <= v.i < HalfRange(f.dataSize)
    case UVarint => v.Int? && 0 <= v.i < 2 * HalfRange(f.dataSize)
    case Fixed32 => v.Int? && 0 <= v.i < TWO_32
    case Fixed64 => v.Int? && 0 <= v.i < TWO_64
    case BytesType => v.Blob? && |v.bytes| + BYTES_HEADER <= f.dataSize
    case StringType => v.Blob? && |v.bytes| < f.dataSize && 0 !in v.bytes
    case FixedLengthBytes => v.Blob? && |v.bytes| == f.dataSize
    case Submessage => v.Sub? && WfMsg(f.sub, v.m)
    case Extension => false
  }

  ghost predicate Active(fields: seq<Field>, j: nat, slot: Slot, p: nat)
    decreases slot, 0
  {
    && p < |fields| && fields[p].rule == Oneof && SlotOf(fields, p) == j
    && fields[p].tag == slot.which && |slot.items| == 1 && WfValue(fields[p], slot.items[0])
  }

  ghost predicate WfSlot(fields: seq<Field>, j: nat, slot: Slot)
    requires j < |fields|
    decreases slot, 1
  {
    var f := fields[j];
    if f.rule == Oneof then
      slot == NOTHING || (SlotOf(fields, j) == j && exists p: nat :: Active(fields, j, slot, p))
    else
      && slot.which == 0
      && (forall k :: 0 <= k < |slot.items| ==> WfValue(f, slot.items[k]))
      && (f.rule == Required ==> |slot.items| == 1)
      && (f.rule == Optional ==> |slot.items| <= 1)
      && (f.rule == Repeated ==> |slot.items| <= f.arraySize)
  }

  ghost predicate WfMsg(fields: seq<Field>, m: Msg)
    decreases m
  {
    |m.slots| == |fields| && forall j :: 0 <= j < |fields| ==> WfSlot(fields, j, m.slots[j])
  }

  // ----- length prefixes -----

  /** The decoder reads lengths as 32-bit integers. */
  ghost predicate Short(enc: Option<Bytes>) {
    enc.Some? ==> |enc.value| < TWO_32
  }

  /** Every length written inside the value fits 32 bits. */
  ghost predicate ValuePrefixes(f: Field, v: Value)
    decreases v
  {
    match v
    case Int(_) => true
    case Blob(b) => |b| < TWO_32
    case Sub(m) => Short(EncodeFrom(f.sub, m, 0)) && MsgPrefixes(f.sub, m)
  }

  ghost predicate FieldPrefixes(f: Field, slot: Slot)
    decreases slot
  {
    f.rule == Repeated || Present(f, slot) ==>
      && (forall k :: 0 <= k < |slot.items| ==> ValuePrefixes(f, slot.items[k]))
      && (f.rule == Repeated && Packable(f.ltype) ==> Short(EncodeItems(f, slot.items, false)))
  }

  /** Every length written inside the message fits 32 bits; the message itself may be of any size. */
  ghost predicate MsgPrefixes(fields: seq<Field>, m: Msg)
    decreases m
  {
    |m.slots| == |fields| &&
    forall i: nat :: i < |fields| ==> FieldPrefixes(fields[i], m.slots[SlotOf(fields, i)])
  }

  // ----- single values -----

  lemma PrefixedReads(b: Bytes, rest: Bytes)
    requires |b| < TWO_32
    ensures DecodeString(Varints.Varint(|b|) + b + rest) == Ok(b, rest)
  {
    hide DecodeString, DecodeVarint32, Varints.Varint, Varints.ParseVarint;
    LengthReads(|b|, b, rest);
    BytesBehindLength(Varints.Varint(|b|), b, rest);
  }

  lemma LengthReads(n: uint64, b: Bytes, rest: Bytes)
    requires n < TWO_32
    ensures DecodeVarint32(Varints.Varint(n) + b + rest) == Ok(n, b + rest)
  {
    hide *;
    VarintInverts(n, b + rest);
    assert Varints.Varint(n) + b + rest == Varints.Varint(n) + (b + rest);
  }

  lemma BytesBehindLength(length: Bytes, b: Bytes, rest: Bytes)
    requires DecodeVarint32(length + b + rest) == Ok(|b|, b + rest)
    ensures DecodeString(length + b + rest) == Ok(b, rest)
  {
    hide DecodeVarint32;
    assert (b + rest)[..|b|] == b && (b + rest)[|b|..] == rest;
  }

  lemma {:induction false} CStringOfString(b: Bytes)
    requires 0 !in b
    ensures CString(b) == b
  {
    if b != [] {
      CStringOfString(b[1..]);
    }
  }

  /** The sign survives the detour over 32 bits. */
  lemma Signed32Inverts(v: int)
    requires -0x8000_0000 <= v < 0x8000_0000
    ensures AsSigned(AsUint64(v), 0x8000_0000) == v
  {
  }

  lemma IntRoundTrip(f: Field, v: Value, rest: Bytes)
    requires WfField(f) && WfValue(f, v) && Packable(f.ltype)
    ensures EncodeValue(f, v).Some? && DecodeValue(f, EncodeValue(f, v).value + rest, None) == Ok(v, rest)
  {
    hide DecodeVarint, Varints.Varint, LittleEndian, FromLittleEndian, AsSigned, AsUint64, ZigZag, UnZigZag, Power256;
    match f.ltype
    case Varint =>
      VarintInverts(AsUint64(v.i), rest);
      if f.dataSize == 8 {
        SignedInverts(v.i);
      } else {
        Signed32Inverts(v.i);
      }
    case UVarint =>
      VarintInverts(v.i, rest);
    case SVarint =>
      VarintInverts(ZigZag(v.i), rest);
      ZigZagInverts(v.i);
    case Fixed32 =>
      Power256Values();
      FixedInverts(v.i, 4, rest);
    case Fixed64 =>
      Power256Values();
      FixedInverts(v.i, 8, rest);
  }

  /** The value encodes, and decodes to itself whatever follows. */
  ghost predicate ReadsBack(f: Field, v: Value) {
    EncodeValue(f, v).Some? && (ValuePrefixes(f, v) ==> forall rest: Bytes :: ReadsBefore(f, v, rest))
  }

  ghost predicate ReadsBefore(f: Field, v: Value, rest: Bytes)
    requires EncodeValue(f, v).Some?
  {
    DecodeValue(f, EncodeValue(f, v).value + rest, None) == Ok(v, rest)
  }

  lemma BlobRoundTrip(f: Field, v: Value)
    requires WfField(f) && WfValue(f, v) && v.Blob?
    ensures ReadsBack(f, v)
  {
    hide DecodeString, Varints.Varint;
    if f.ltype == StringType {
      CStringOfString(v.bytes);
    }
    if |v.bytes| < TWO_32 {
      forall rest: Bytes
        ensures ReadsBefore(f, v, rest)
      {
        PrefixedReads(v.bytes, rest);
      }
    }
  }

  /** Exactly when a static string reads back: when its NUL lies inside the buffer.  A string that fills the
      buffer is encoded all the same, and refused by the decoder. */
  lemma StringReadsBackIff(f: Field, b: Bytes)
    requires WfField(f) && f.ltype == StringType
    requires 0 !in b && |b| <= f.dataSize && |b| < TWO_32
    ensures ReadsBack(f, Blob(b)) <==> |b| < f.dataSize
  {
    if |b| < f.dataSize {
      BlobRoundTrip(f, Blob(b));
    } else {
      hide DecodeString, Varints.Varint;
      PrefixedReads(b, []);
      assert DecodeValue(f, EncodeValue(f, Blob(b)).value + [], None) == Fail;
      assert !ReadsBefore(f, Blob(b), []);
    }
  }

  lemma SubRoundTrip(f: Field, m: Msg)
    requires f.ltype == Submessage && EncodeFrom(f.sub, m, 0).Some?
    requires MsgPrefixes(f.sub, m) ==> Decode(f.sub, EncodeFrom(f.sub, m, 0).value) == Ok(m, [])
    ensures ReadsBack(f, Sub(m))
  {
    hide EncodeFrom, DecodeFields, DecodeString, Varints.Varint, MsgPrefixes;
    var body := EncodeFrom(f.sub, m, 0).value;
    if ValuePrefixes(f, Sub(m)) {
      forall rest: Bytes
        ensures ReadsBefore(f, Sub(m), rest)
      {
        PrefixedReads(body, rest);
      }
    }
  }

  lemma {:induction false} ValueRoundTrip(f: Field, v: Value)
    requires WfField(f) && WfValue(f, v)
    ensures ReadsBack(f, v)
    decreases v
  {
    hide EncodeFrom, DecodeFields, ReadsBack, MsgPrefixes, ValuePrefixes;
    if Packable(f.ltype) {
      IntReadsBack(f, v);
    } else if f.ltype == Submessage {
      MessageRoundTrip(f.sub, v.m);
      SubRoundTrip(f, v.m);
    } else {
      BlobRoundTrip(f, v);
    }
  }

  lemma IntReadsBack(f: Field, v: Value)
    requires WfField(f) && WfValue(f, v) && Packable(f.ltype)
    ensures ReadsBack(f, v)
  {
    hide EncodeValue, DecodeValue;
    IntRoundTrip(f, v, []);
    forall rest: Bytes
      ensures ReadsBefore(f, v, rest)
    {
      IntRoundTrip(f, v, rest);
    }
  }

  /** A length of 4 GiB or more is cut to its low 32 bits, or refused: the decoder stops short of the end. */
  lemma LongPrefixFails(b: Bytes, rest: Bytes)
    requires TWO_32 <= |b| < TWO_64
    ensures
      var r := DecodeString(Varints.Varint(|b|) + b + rest);
      r.Ok? ==> |r.rest| > |rest|
  {
    hide Varints.Varint, ParseVarint, Power128;
    var s := Varints.Varint(|b|) + b + rest;
    Power128Values();
    Regroup(Varints.Varint(|b|), b, rest);
    VarintRoundTrip(|b|, 10, b + rest);
    if ParseVarint(s, 5).Some? {
      LongerLimit(s, 5, 10);
    }
  }

  /** What stands behind the value's own length prefix, if it has one. */
  ghost function Prefix(f: Field, v: Value): Option<Bytes> {
    match v
    case Int(_) => None
    case Blob(b) => Some(b)
    case Sub(m) => EncodeFrom(f.sub, m, 0)
  }

  /** Exactly when a well-formed value reads back, the lengths inside it being short: when its own length fits
      32 bits as well. */
  lemma ValueReadsBackIff(f: Field, v: Value)
    requires WfField(f) && WfValue(f, v) && (v.Sub? ==> MsgPrefixes(f.sub, v.m))
    requires Prefix(f, v).Some? ==> |Prefix(f, v).value| < TWO_64
    ensures EncodeValue(f, v).Some?
    ensures (forall rest: Bytes :: ReadsBefore(f, v, rest)) <==> Short(Prefix(f, v))
  {
    hide EncodeFrom, DecodeFields, WfField, WfFields, WfMsg, MsgPrefixes, Varints.Varint;
    ValueRoundTrip(f, v);
    if !Short(Prefix(f, v)) {
      LongPrefixFails(Prefix(f, v).value, []);
      LongValueFails(f, v);
      assert !ReadsBefore(f, v, []);
    }
  }

  lemma LongValueFails(f: Field, v: Value)
    requires WfValue(f, v) && Prefix(f, v).Some?
    requires var r := DecodeString(Varints.Varint(|Prefix(f, v).value|) + Prefix(f, v).value + []); r.Ok? ==> r.rest != []
    ensures EncodeValue(f, v).Some? && !ReadsBefore(f, v, [])
  {
    hide EncodeFrom, DecodeFields, DecodeString, Varints.Varint, WfMsg;
  }

  // ----- arrays -----

  lemma {:induction false} ItemsRoundTrip(f: Field, items: seq<Value>, done: seq<Value>)
    requires WfField(f) && Packable(f.ltype) && |done| + |items| <= f.arraySize
    requires forall k :: 0 <= k < |items| ==> WfValue(f, items[k])
    ensures EncodeItems(f, items, false).Some?
    ensures DecodeItems(f, EncodeItems(f, items, false).value, done) == Some(done + items)
    decreases items
  {
    hide EncodeValue, DecodeValue, WfValue, WfField;
    if items == [] {
      assert done + items == done;
    } else {
      ItemsRoundTrip(f, items[1..], done + [items[0]]);
      var rest := EncodeItems(f, items[1..], false).value;
      IntRoundTrip(f, items[0], rest);
      var s := EncodeValue(f, items[0]).value + rest;
      assert s != [] by { ItemIsNotEmpty(f, s); }
      assert (done + [items[0]]) + items[1..] == done + items;
    }
  }

  lemma ItemIsNotEmpty(f: Field, s: Bytes)
    requires DecodeValue(f, s, None).Ok?
    ensures s != []
  {
  }

  // ----- one field of a message -----

  lemma {:induction false} FindsItself(fields: seq<Field>, i: nat, from: nat)
    requires WfFields(fields) && from <= i < |fields|
    ensures Find(fields, fields[i].tag, from) == Some(i)
    decreases i - from
  {
    assert WfField(fields[i]);
    if from < i {
      FindsItself(fields, i, from + 1);
    }
  }

  function Put(fields: seq<Field>, m: Msg, i: nat, slot: Slot): (m': Msg)
    requires i < |fields| && |m.slots| == |fields|
    ensures |m'.slots| == |fields|
  {
    m.(slots := m.slots[SlotOf(fields, i) := slot])
  }

  function See(fields: seq<Field>, seen: set<nat>, i: nat): set<nat>
    requires i < |fields|
  {
    if fields[i].rule == Required then seen + {i} else seen
  }

  /** A field met on the wire is decoded into its slot, and decoding goes on behind it. */
  lemma FieldIsRead(fields: seq<Field>, i: nat, wireType: nat, body: Bytes, rest: Bytes, m: Msg, seen: set<nat>, slot: Slot)
    requires WfFields(fields) && i < |fields| && |m.slots| == |fields| && wireType < 8
    requires DecodeSlot(fields[i], wireType, body + rest, m.slots[SlotOf(fields, i)]) == Ok(slot, rest)
    ensures DecodeFields(fields, EncodeTag(wireType, fields[i].tag) + body + rest, m, seen)
         == DecodeFields(fields, rest, Put(fields, m, i, slot), See(fields, seen, i))
  {
    hide DecodeTag, EncodeTag, DecodeSlot, Find, WfField;
    var s := EncodeTag(wireType, fields[i].tag) + body + rest;
    assert s == EncodeTag(wireType, fields[i].tag) + (body + rest);
    assert 0 < fields[i].tag < 0x2000_0000 by { TagInRange(fields, i); }
    TagInverts(wireType, fields[i].tag, body + rest);
    FindsItself(fields, i, 0);
    assert s != [] by { TagIsNotEmpty(s); }
    DecodeOne(fields, s, m, seen, wireType, fields[i].tag, body + rest, i);
  }

  lemma TagInRange(fields: seq<Field>, i: nat)
    requires WfFields(fields) && i < |fields|
    ensures 0 < fields[i].tag < 0x2000_0000
  {
    assert WfField(fields[i]);
  }

  lemma TagIsNotEmpty(s: Bytes)
    requires DecodeTag(s).Tag?
    ensures s != []
  {
  }

  /** `DecodeFields` opened once, at a field of the message. */
  lemma DecodeOne(fields: seq<Field>, s: Bytes, m: Msg, seen: set<nat>, wireType: nat, number: nat, rest: Bytes, i: nat)
    requires |m.slots| == |fields| && s != []
    requires DecodeTag(s) == Tag(wireType, number, rest) && i < |fields| && Find(fields, number, 0) == Some(i)
    ensures
      var r := DecodeSlot(fields[i], wireType, rest, m.slots[SlotOf(fields, i)]);
      DecodeFields(fields, s, m, seen) ==
      if r.Fail? then Fail else DecodeFields(fields, r.rest, Put(fields, m, i, r.value), See(fields, seen, i))
  {
  }

  /** The unpacked items of an array, from `done` on. */
  lemma {:induction false} EachIsRead(
    fields: seq<Field>, i: nat, items: seq<Value>, done: seq<Value>, rest: Bytes, m: Msg, seen: set<nat>)
    requires WfFields(fields) && i < |fields| && |m.slots| == |fields|
    requires fields[i].rule == Repeated && !Packable(fields[i].ltype) && |done| + |items| <= fields[i].arraySize
    requires forall k :: 0 <= k < |items| ==> ReadsBack(fields[i], items[k])
    requires m.slots[i] == Slot(0, done)
    ensures EncodeItems(fields[i], items, true).Some?
    ensures (forall k :: 0 <= k < |items| ==> ValuePrefixes(fields[i], items[k])) ==>
              DecodeFields(fields, EncodeItems(fields[i], items, true).value + rest, m, seen)
              == DecodeFields(fields, rest, Put(fields, m, i, Slot(0, done + items)), seen)
    decreases |items|
  {
    var f := fields[i];
    assert WfField(f);
    hide EncodeValue, DecodeValue, DecodeFields, DecodeSlot, EncodeItems, EncodeTag, WfField, WfFields, TagFor, ValuePrefixes;
    EachStep(f, items);
    if items == [] {
      assert done + items == done;
      assert m.slots[i := m.slots[i]] == m.slots;
      assert [] + rest == rest;
    } else {
      var v := items[0];
      var slot' := Slot(0, done + [v]);
      var m' := Put(fields, m, i, slot');
      EachIsRead(fields, i, items[1..], done + [v], rest, m', seen);
      var later := EncodeItems(f, items[1..], true).value;
      EachHead(fields, i, v, later, rest, m, seen);
      Uncons(done, items);
      PutTwice(fields, m, i, slot', Slot(0, done + items));
    }
  }

  lemma EachHead(fields: seq<Field>, i: nat, v: Value, later: Bytes, rest: Bytes, m: Msg, seen: set<nat>)
    requires WfFields(fields) && i < |fields| && |m.slots| == |fields|
    requires fields[i].rule == Repeated && !Packable(fields[i].ltype) && |m.slots[i].items| < fields[i].arraySize
    requires ReadsBack(fields[i], v) && m.slots[i].which == 0
    ensures
      var enc := TagFor(fields[i]) + EncodeValue(fields[i], v).value + later;
      ValuePrefixes(fields[i], v) ==>
        DecodeFields(fields, enc + rest, m, seen)
        == DecodeFields(fields, later + rest, Put(fields, m, i, Slot(0, m.slots[i].items + [v])), seen)
  {
    var f := fields[i];
    assert WfField(f);
    hide EncodeValue, DecodeValue, DecodeFields, DecodeSlot, EncodeTag, WfField, WfFields, ValuePrefixes;
    var body := EncodeValue(f, v).value;
    if ValuePrefixes(f, v) {
      assert ReadsBefore(f, v, later + rest);
      ItemIsRead(f, body + (later + rest), m.slots[i], v, later + rest);
      FieldIsRead(fields, i, WireType(f.ltype), body, later + rest, m, seen, Slot(0, m.slots[i].items + [v]));
      Regroup(TagFor(f) + body, later, rest);
    }
  }

  lemma Uncons<T>(done: seq<T>, items: seq<T>)
    requires items != []
    ensures (done + [items[0]]) + items[1..] == done + items
  {
  }

  lemma Regroup<T>(a: seq<T>, b: seq<T>, c: seq<T>)
    ensures a + b + c == a + (b + c)
  {
  }

  lemma EachStep(f: Field, items: seq<Value>)
    ensures EncodeItems(f, items, true) ==
            if items == [] then Some([])
            else Joined(Joined(Some(TagFor(f)), EncodeValue(f, items[0])), EncodeItems(f, items[1..], true))
  {
  }

  lemma PutTwice(fields: seq<Field>, m: Msg, i: nat, a: Slot, b: Slot)
    requires i < |fields| && |m.slots| == |fields|
    ensures Put(fields, Put(fields, m, i, a), i, b) == Put(fields, m, i, b)
  {
  }

  lemma ItemIsRead(f: Field, s: Bytes, slot: Slot, v: Value, rest: Bytes)
    requires f.alloc == Static && f.rule == Repeated && !Packable(f.ltype) && |slot.items| < f.arraySize
    requires DecodeValue(f, s, None) == Ok(v, rest)
    ensures DecodeSlot(f, WireType(f.ltype), s, slot) == Ok(slot.(items := slot.items + [v]), rest)
  {
    hide DecodeValue;
  }

  // ----- a whole message -----

  /** Field `i` writes its slot. */
  predicate Written(fields: seq<Field>, m: Msg, i: nat)
    requires i < |fields| && |m.slots| == |fields|
  {
    Present(fields[i], m.slots[SlotOf(fields, i)])
  }

  /** The message as decoded from the fields before `i`. */
  function Filled(fields: seq<Field>, m: Msg, i: nat): (p: Msg)
    requires i <= |fields| && |m.slots| == |fields|
    ensures |p.slots| == |fields|
  {
    if i == 0 then Empty(fields)
    else
      var p := Filled(fields, m, i - 1);
      if Written(fields, m, i - 1) then Put(fields, p, i - 1, m.slots[SlotOf(fields, i - 1)]) else p
  }

  function SeenBefore(fields: seq<Field>, i: nat): set<nat>
    requires i <= |fields|
  {
    if i == 0 then {} else See(fields, SeenBefore(fields, i - 1), i - 1)
  }

  lemma {:induction false} SeenMembers(fields: seq<Field>, i: nat)
    requires i <= |fields|
    ensures forall k :: k in SeenBefore(fields, i) <==> 0 <= k < i && fields[k].rule == Required
  {
    if i > 0 {
      SeenMembers(fields, i - 1);
    }
  }

  /** A slot outside a oneof is untouched before its own field. */
  lemma {:induction false} NotYetFilled(fields: seq<Field>, m: Msg, i: nat, j: nat)
    requires i <= j < |fields| && |m.slots| == |fields| && fields[j].rule != Oneof
    ensures Filled(fields, m, i).slots[j] == NOTHING
    decreases i
  {
    if i > 0 {
      NotYetFilled(fields, m, i - 1, j);
    }
  }

  /** What has been written stays as it is in the message. */
  lemma {:induction false} FilledSlots(fields: seq<Field>, m: Msg, i: nat, j: nat)
    requires i <= |fields| && |m.slots| == |fields| && j < |fields|
    ensures Filled(fields, m, i).slots[j] == NOTHING || Filled(fields, m, i).slots[j] == m.slots[j]
    ensures (exists p :: 0 <= p < i && SlotOf(fields, p) == j && Written(fields, m, p)) ==>
              Filled(fields, m, i).slots[j] == m.slots[j]
    decreases i
  {
    if i > 0 {
      FilledSlots(fields, m, i - 1, j);
    }
  }

  lemma AllFilled(fields: seq<Field>, m: Msg)
    requires WfMsg(fields, m)
    ensures Filled(fields, m, |fields|) == m
  {
    var p := Filled(fields, m, |fields|);
    forall j | 0 <= j < |fields|
      ensures p.slots[j] == m.slots[j]
    {
      FilledSlots(fields, m, |fields|, j);
      assert WfSlot(fields, j, m.slots[j]);
      if m.slots[j] != NOTHING {
        if fields[j].rule == Oneof {
          var q: nat :| Active(fields, j, m.slots[j], q);
          assert Written(fields, m, q);
        } else {
          assert Written(fields, m, j) && SlotOf(fields, j) == j;
        }
      }
    }
  }

  /** What field `i` contributes, and how it is read back. */
  lemma FieldRoundTrip(fields: seq<Field>, m: Msg, i: nat, rest: Bytes)
    requires WfFields(fields) && WfMsg(fields, m) && i < |fields|
    ensures
      var enc := EncodeField(fields[i], m.slots[SlotOf(fields, i)]);
      && enc.Some?
      && (FieldPrefixes(fields[i], m.slots[SlotOf(fields, i)]) ==>
            DecodeFields(fields, enc.value + rest, Filled(fields, m, i), SeenBefore(fields, i))
            == DecodeFields(fields, rest, Filled(fields, m, i + 1), SeenBefore(fields, i + 1)))
    decreases m, |fields| - i, 0
  {
    hide EncodeFrom, DecodeFields, WfValue, ValuePrefixes;
    var f, j := fields[i], SlotOf(fields, i);
    var slot := m.slots[j];
    assert WfSlot(fields, i, m.slots[i]) && WfSlot(fields, j, slot);
    if f.rule == Repeated {
      RepeatedRoundTrip(fields, m, i, rest);
    } else if Written(fields, m, i) {
      SingleRoundTrip(fields, m, i, rest);
    } else {
      assert [] + rest == rest;
    }
  }

  lemma SingleRoundTrip(fields: seq<Field>, m: Msg, i: nat, rest: Bytes)
    requires WfFields(fields) && WfMsg(fields, m) && i < |fields|
    requires fields[i].rule != Repeated && Written(fields, m, i)
    ensures
      var enc := EncodeField(fields[i], m.slots[SlotOf(fields, i)]);
      && enc.Some?
      && (FieldPrefixes(fields[i], m.slots[SlotOf(fields, i)]) ==>
            DecodeFields(fields, enc.value + rest, Filled(fields, m, i), SeenBefore(fields, i))
            == DecodeFields(fields, rest, Filled(fields, m, i + 1), SeenBefore(fields, i + 1)))
    decreases m, |fields| - i, -1
  {
    hide EncodeFrom, DecodeFields, EncodeValue, DecodeValue, EncodeTag, ValuePrefixes;
    var f, j := fields[i], SlotOf(fields, i);
    var slot := m.slots[j];
    assert WfField(f);
    assert WfValue(f, slot.items[0]) && slot == Slot(slot.which, [slot.items[0]]) by { PresentIsWf(fields, m, i); }
    hide WfField, WfFields, WfValue, WfMsg;
    ValueRoundTrip(f, slot.items[0]);
    var body := EncodeValue(f, slot.items[0]).value;
    if FieldPrefixes(f, slot) {
      assert ValuePrefixes(f, slot.items[0]);
      assert ReadsBefore(f, slot.items[0], rest);
      var p := Filled(fields, m, i);
      if f.rule != Oneof {
        NotYetFilled(fields, m, i, i);
      }
      assert DecodeSlot(f, WireType(f.ltype), body + rest, p.slots[j]) == Ok(slot, rest);
      FieldIsRead(fields, i, WireType(f.ltype), body, rest, p, SeenBefore(fields, i), slot);
    }
  }

  lemma PresentIsWf(fields: seq<Field>, m: Msg, i: nat)
    requires WfFields(fields) && WfMsg(fields, m) && i < |fields|
    requires fields[i].rule != Repeated && Written(fields, m, i)
    ensures
      var slot := m.slots[SlotOf(fields, i)];
      && |slot.items| == 1 && WfValue(fields[i], slot.items[0])
      && slot.which == if fields[i].rule == Oneof then fields[i].tag else 0
  {
    var j := SlotOf(fields, i);
    var slot := m.slots[j];
    assert WfSlot(fields, j, slot);
    if fields[i].rule == Oneof {
      var p: nat :| Active(fields, j, slot, p);
      assert p == i by {
        assert fields[p].tag == fields[i].tag;
      }
    }
  }

  lemma RepeatedRoundTrip(fields: seq<Field>, m: Msg, i: nat, rest: Bytes)
    requires WfFields(fields) && WfMsg(fields, m) && i < |fields| && fields[i].rule == Repeated
    ensures
      var enc := EncodeField(fields[i], m.slots[i]);
      && enc.Some?
      && (FieldPrefixes(fields[i], m.slots[SlotOf(fields, i)]) ==>
            DecodeFields(fields, enc.value + rest, Filled(fields, m, i), SeenBefore(fields, i))
            == DecodeFields(fields, rest, Filled(fields, m, i + 1), SeenBefore(fields, i + 1)))
    decreases m, |fields| - i, -1
  {
    hide EncodeFrom, DecodeFields, EncodeValue, DecodeValue, EncodeTag, EncodeItems, DecodeItems, DecodeString, ValuePrefixes;
    var f, slot := fields[i], m.slots[i];
    assert WfField(f);
    assert WfSlot(fields, i, slot);
    hide WfField, WfFields, WfValue, WfMsg;
    var p := Filled(fields, m, i);
    NotYetFilled(fields, m, i, i);
    if slot.items == [] {
      assert [] + rest == rest;
    } else if Packable(f.ltype) {
      ItemsRoundTrip(f, slot.items, []);
      assert [] + slot.items == slot.items;
      var inner := EncodeItems(f, slot.items, false).value;
      var body := Varints.Varint(|inner|) + inner;
      if FieldPrefixes(f, slot) {
        PrefixedReads(inner, rest);
        assert DecodeSlot(f, WT_STRING, body + rest, p.slots[i]) == Ok(slot, rest);
        FieldIsRead(fields, i, WT_STRING, body, rest, p, SeenBefore(fields, i), slot);
      }
    } else {
      forall k | 0 <= k < |slot.items|
        ensures ReadsBack(f, slot.items[k])
      {
        ValueRoundTrip(f, slot.items[k]);
      }
      EachIsRead(fields, i, slot.items, [], rest, p, SeenBefore(fields, i));
      assert [] + slot.items == slot.items;
    }
  }

  lemma {:induction false} FieldsRoundTrip(fields: seq<Field>, m: Msg, i: nat)
    requires WfFields(fields) && WfMsg(fields, m) && i <= |fields|
    ensures EncodeFrom(fields, m, i).Some?
    ensures MsgPrefixes(fields, m) ==>
              DecodeFields(fields, EncodeFrom(fields, m, i).value, Filled(fields, m, i), SeenBefore(fields, i)) == Ok(m, [])
    decreases m, |fields| - i, 1
  {
    hide EncodeField, EncodeFrom, DecodeFields, WfFields, WfMsg, Filled, SeenBefore, FieldPrefixes, MsgPrefixes;
    SlotsMatch(fields, m);
    EncodeFromOpen(fields, m, i);
    if i == |fields| {
      AllFilled(fields, m);
      EndsWell(fields, m);
    } else {
      FieldsRoundTrip(fields, m, i + 1);
      PrefixesAt(fields, m, i);
      FieldRoundTrip(fields, m, i, EncodeFrom(fields, m, i + 1).value);
    }
  }

  lemma PrefixesAt(fields: seq<Field>, m: Msg, i: nat)
    requires |m.slots| == |fields| && i < |fields|
    ensures MsgPrefixes(fields, m) ==> FieldPrefixes(fields[i], m.slots[SlotOf(fields, i)])
  {
  }

  lemma SlotsMatch(fields: seq<Field>, m: Msg)
    requires WfMsg(fields, m)
    ensures |m.slots| == |fields|
  {
  }

  lemma EndsWell(fields: seq<Field>, m: Msg)
    requires |m.slots| == |fields|
    ensures DecodeFields(fields, [], m, SeenBefore(fields, |fields|)) == Ok(m, [])
  {
    SeenMembers(fields, |fields|);
  }

  /** Every well-formed message encodes; and when the lengths inside it fit 32 bits, decoding gives back the
      message and leaves nothing unread. */
  lemma MessageRoundTrip(fields: seq<Field>, m: Msg)
    requires WfFields(fields) && WfMsg(fields, m)
    ensures Encode(fields, m).Some?
    ensures MsgPrefixes(fields, m) ==> Decode(fields, Encode(fields, m).value) == Ok(m, [])
    decreases m, |fields| + 1
  {
    hide EncodeFrom, DecodeFields, WfFields, WfMsg, MsgPrefixes;
    FieldsRoundTrip(fields, m, 0);
  }
}
