/**
 Whatever bytes the decoder accepts, the message it leaves behind fits its type: no array holds more items than it
 has room for, no integer lies outside its member, and no required member is missing.
 */
module PbSafety {
  import opened ByteStrings
  import opened Varints
  import opened PbIntegers
  import opened PbFields
  import opened PbMessages
  import opened PbRoundTrip

  /** A slot on the way: like a well-formed one, but a required member may still be missing. */
  ghost predicate Held(fields: seq<Field>, j: nat, slot: Slot)
    requires j < |fields|
  {
    var f := fields[j];
    if f.rule == Oneof then WfSlot(fields, j, slot)
    else
      && slot.which == 0
      && AllFit(f, slot.items)
      && |slot.items| <= (if f.rule == Repeated then f.arraySize else 1)
  }

  ghost predicate AllFit(f: Field, items: seq<Value>) {
    forall k :: 0 <= k < |items| ==> WfValue(f, items[k])
  }

  ghost predicate AllHeld(fields: seq<Field>, m: Msg) {
    |m.slots| == |fields| && forall j :: 0 <= j < |fields| ==> Held(fields, j, m.slots[j])
  }

  /** The required members met so far are there. */
  ghost predicate SeenHeld(fields: seq<Field>, m: Msg, seen: set<nat>)
    requires |m.slots| == |fields|
  {
    forall i :: i in seen && i < |fields| && fields[i].rule == Required ==> m.slots[i].items != []
  }

  lemma WellFormedIsHeld(fields: seq<Field>, m: Msg)
    requires WfMsg(fields, m)
    ensures AllHeld(fields, m)
  {
    hide WfValue, Active;
    assert forall j :: 0 <= j < |fields| ==> WfSlot(fields, j, m.slots[j]);
  }

  lemma HeldAndSeenIsWellFormed(fields: seq<Field>, m: Msg, seen: set<nat>)
    requires AllHeld(fields, m) && SeenHeld(fields, m, seen) && AllSeen(fields, seen)
    ensures WfMsg(fields, m)
  {
    hide WfValue, Active;
    forall j | 0 <= j < |fields|
      ensures WfSlot(fields, j, m.slots[j])
    {
      assert Held(fields, j, m.slots[j]);
    }
  }

  lemma EmptyIsHeld(fields: seq<Field>)
    ensures AllHeld(fields, Empty(fields)) && SeenHeld(fields, Empty(fields), {})
  {
    hide WfValue, Active;
  }

  lemma {:induction false} CStringFits(b: Bytes)
    ensures 0 !in CString(b) && |CString(b)| <= |b|
  {
    if b != [] && b[0] != 0 {
      CStringFits(b[1..]);
    }
  }

  lemma {:induction false} LittleEndianFits(bs: Bytes)
    ensures 0 <= FromLittleEndian(bs) < Power256(|bs|)
  {
    if bs != [] {
      LittleEndianFits(bs[1..]);
    }
  }

  lemma FixedFits(s: Bytes, width: nat)
    ensures DecodeFixed(s, width).Ok? ==> 0 <= DecodeFixed(s, width).value < Power256(width)
  {
    if |s| >= width {
      LittleEndianFits(s[..width]);
    }
  }

  /** A decoded value fits its member. */
  lemma {:induction false} ValueFits(f: Field, s: Bytes, prior: Option<Value>)
    requires WfField(f) && (prior.Some? ==> WfValue(f, prior.value))
    ensures DecodeValue(f, s, prior).Ok? ==> WfValue(f, DecodeValue(f, s, prior).value)
    decreases |s|, 0
  {
    hide DecodeVarint, DecodeFixed, DecodeString, DecodeFields, AsSigned, UnZigZag, CString, WfFields, WfMsg, Empty;
    match f.ltype
    case Fixed32 =>
      Power256Values();
      FixedFits(s, 4);
    case Fixed64 =>
      Power256Values();
      FixedFits(s, 8);
    case StringType =>
      if DecodeString(s).Ok? {
        CStringFits(DecodeString(s).value);
      }
    case Submessage =>
      if DecodeString(s).Ok? {
        var b := DecodeString(s).value;
        if prior.Some? && |prior.value.m.slots| == |f.sub| {
          WellFormedIsHeld(f.sub, prior.value.m);
          FieldsFit(f.sub, b, prior.value.m, {});
        } else {
          EmptyIsHeld(f.sub);
          FieldsFit(f.sub, b, Empty(f.sub), {});
        }
      }
    case _ =>
  }

  /** A packed array never holds more items than it has room for. */
  lemma {:induction false} ItemsFit(f: Field, s: Bytes, items: seq<Value>)
    requires WfField(f) && AllFit(f, items) && |items| <= f.arraySize
    ensures
      var r := DecodeItems(f, s, items);
      r.Some? ==> AllFit(f, r.value) && |r.value| <= f.arraySize
    decreases |s|, 1
  {
    hide DecodeValue, WfField, WfValue;
    if s != [] && |items| < f.arraySize {
      ValueFits(f, s, None);
      var r := DecodeValue(f, s, None);
      if r.Ok? {
        ItemsFit(f, r.rest, items + [r.value]);
      }
    }
  }

  lemma SlotOfSlot(fields: seq<Field>, i: nat)
    requires i < |fields|
    ensures SlotOf(fields, SlotOf(fields, i)) == SlotOf(fields, i)
  {
  }

  /** One occurrence leaves its slot fit. */
  lemma {:induction false} SlotFits(fields: seq<Field>, i: nat, wireType: nat, s: Bytes, slot: Slot)
    requires i < |fields| && WfField(fields[i]) && Held(fields, SlotOf(fields, i), slot)
    ensures
      var r := DecodeSlot(fields[i], wireType, s, slot);
      r.Ok? ==>
        && Held(fields, SlotOf(fields, i), r.value)
        && (fields[i].rule == Required ==> r.value.items != [])
    decreases |s|, 2
  {
    hide DecodeValue, WfField, WfValue, DecodeString, DecodeItems;
    var f := fields[i];
    var j := SlotOf(fields, i);
    if f.alloc != Static {
    } else if f.rule == Repeated && wireType == WT_STRING && Packable(f.ltype) {
      if DecodeString(s).Ok? {
        ItemsFit(f, DecodeString(s).value, slot.items);
      }
    } else if f.rule == Repeated || f.rule == Oneof {
      ValueFits(f, s, None);
      if f.rule == Oneof && DecodeValue(f, s, None).Ok? {
        SlotOfSlot(fields, i);
        var v := DecodeValue(f, s, None).value;
        assert Active(fields, j, Slot(f.tag, [v]), i);
      }
    } else {
      ValueFits(f, s, if slot.items == [] then None else Some(slot.items[0]));
    }
  }

  /** Decoding into a fit message gives, if it succeeds, a well-formed one. */
  lemma {:induction false} FieldsFit(fields: seq<Field>, s: Bytes, m: Msg, seen: set<nat>)
    requires WfFields(fields) && AllHeld(fields, m) && SeenHeld(fields, m, seen)
    ensures
      var r := DecodeFields(fields, s, m, seen);
      r.Ok? ==> WfMsg(fields, r.value)
    decreases |s|, 3
  {
    hide DecodeTag, DecodeSlot, SkipField, WfField, WfMsg, WfSlot, Held, Find, AllSeen, DistinctTags;
    if AllSeen(fields, seen) {
      HeldAndSeenIsWellFormed(fields, m, seen);
    }
    if s != [] && DecodeTag(s).Tag? {
      var Tag(wireType, number, rest) := DecodeTag(s);
      match Find(fields, number, 0)
      case None =>
        if SkipField(wireType, rest).Ok? {
          FieldsFit(fields, SkipField(wireType, rest).rest, m, seen);
        }
      case Some(i) =>
        var j := SlotOf(fields, i);
        var r := DecodeSlot(fields[i], wireType, rest, m.slots[j]);
        SlotFits(fields, i, wireType, rest, m.slots[j]);
        if r.Ok? {
          var m' := m.(slots := m.slots[j := r.value]);
          var seen' := if fields[i].rule == Required then seen + {i} else seen;
          assert SeenHeld(fields, m', seen');
          FieldsFit(fields, r.rest, m', seen');
        }
    }
  }

  /** Whatever the bytes, a message that decodes is well formed. */
  lemma DecodedIsWellFormed(fields: seq<Field>, s: Bytes)
    requires WfFields(fields) && Decode(fields, s).Ok?
    ensures WfMsg(fields, Decode(fields, s).value)
  {
    hide WfFields, WfMsg, DecodeFields;
    EmptyIsHeld(fields);
    FieldsFit(fields, s, Empty(fields), {});
  }

  /** The same for decoding into a message that is there already, without clearing it first. */
  lemma DecodedIntoIsWellFormed(fields: seq<Field>, s: Bytes, m: Msg)
    requires WfFields(fields) && WfMsg(fields, m) && DecodeFields(fields, s, m, {}).Ok?
    ensures WfMsg(fields, DecodeFields(fields, s, m, {}).value)
  {
    hide WfFields, WfMsg, DecodeFields;
    WellFormedIsHeld(fields, m);
    FieldsFit(fields, s, m, {});
  }

  /** No accepted input makes an array hold more than it has room for, or leaves a required member out. */
  lemma RoomIsRespected(fields: seq<Field>, s: Bytes, i: nat)
    requires WfFields(fields) && Decode(fields, s).Ok? && i < |fields|
    ensures
      var items := Decode(fields, s).value.slots[i].items;
      && (fields[i].rule == Repeated ==> |items| <= fields[i].arraySize)
      && (fields[i].rule == Required ==> |items| == 1)
  {
    hide WfFields, Decode, Active, WfValue;
    DecodedIsWellFormed(fields, s);
    assert WfSlot(fields, i, Decode(fields, s).value.slots[i]);
  }

  /** However the bytes were written, what they decode to can be encoded, and the encoding decodes to it again. */
  lemma EncodingIsANormalForm(fields: seq<Field>, s: Bytes)
    requires WfFields(fields) && Decode(fields, s).Ok?
    ensures
      var m := Decode(fields, s).value;
      && Encode(fields, m).Some?
      && (MsgPrefixes(fields, m) ==> Decode(fields, Encode(fields, m).value) == Ok(m, []))
  {
    hide WfFields, WfMsg, Decode, Encode, MsgPrefixes;
    DecodedIsWellFormed(fields, s);
    MessageRoundTrip(fields, Decode(fields, s).value);
  }
}
