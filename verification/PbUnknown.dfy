/**
 Fields that the type does not declare are skipped without a trace, wherever they stand.
 */
module PbUnknown {
  import opened ByteStrings
  import opened Varints
  import opened PbIntegers
  import opened PbFields
  import opened PbMessages
  import opened PbRoundTrip

  // ----- decoders do not look behind what they consume -----

  lemma StringExtends(s: Bytes, t: Bytes)
    requires DecodeString(s).Ok?
    ensures DecodeString(s + t) == Ok(DecodeString(s).value, DecodeString(s).rest + t)
  {
    hide DecodeVarint32;
    DecodersExtend(s, t);
    var n, rest := DecodeVarint32(s).value, DecodeVarint32(s).rest;
    assert (rest + t)[..n] == rest[..n] && (rest + t)[n..] == rest[n..] + t;
  }

  lemma FixedExtends(s: Bytes, t: Bytes, width: nat)
    requires DecodeFixed(s, width).Ok?
    ensures DecodeFixed(s + t, width) == Ok(DecodeFixed(s, width).value, DecodeFixed(s, width).rest + t)
  {
    assert (s + t)[..width] == s[..width] && (s + t)[width..] == s[width..] + t;
  }

  lemma ValueExtends(f: Field, s: Bytes, t: Bytes, prior: Option<Value>)
    requires DecodeValue(f, s, prior).Ok?
    ensures DecodeValue(f, s + t, prior) == Ok(DecodeValue(f, s, prior).value, DecodeValue(f, s, prior).rest + t)
  {
    hide DecodeVarint, DecodeString, DecodeFixed, DecodeFields, AsSigned, UnZigZag;
    match f.ltype
    case Varint => DecodersExtend(s, t);
    case UVarint => DecodersExtend(s, t);
    case SVarint => DecodersExtend(s, t);
    case Fixed32 => FixedExtends(s, t, 4);
    case Fixed64 => FixedExtends(s, t, 8);
    case _ => StringExtends(s, t);
  }

  lemma SlotExtends(f: Field, wireType: nat, s: Bytes, t: Bytes, slot: Slot)
    requires DecodeSlot(f, wireType, s, slot).Ok?
    ensures DecodeSlot(f, wireType, s + t, slot)
         == Ok(DecodeSlot(f, wireType, s, slot).value, DecodeSlot(f, wireType, s, slot).rest + t)
  {
    hide DecodeValue, DecodeString, DecodeItems;
    if f.rule == Repeated && wireType == WT_STRING && Packable(f.ltype) {
      StringExtends(s, t);
    } else {
      ValueExtends(f, s, t, if f.rule == Repeated || f.rule == Oneof || slot.items == [] then None else Some(slot.items[0]));
    }
  }

  lemma {:induction false} SkipVarintExtends(s: Bytes, t: Bytes)
    requires SkipVarint(s).Ok?
    ensures SkipVarint(s + t) == Ok((), SkipVarint(s).rest + t)
    decreases |s|
  {
    assert (s + t)[1..] == s[1..] + t;
    if s[0] >= 128 {
      SkipVarintExtends(s[1..], t);
    }
  }

  lemma SkipExtends(wireType: nat, s: Bytes, t: Bytes)
    requires SkipField(wireType, s).Ok?
    ensures SkipField(wireType, s + t) == Ok((), SkipField(wireType, s).rest + t)
  {
    hide SkipVarint, DecodeString;
    if wireType == WT_VARINT {
      SkipVarintExtends(s, t);
    } else if wireType == WT_64BIT {
      assert (s + t)[8..] == s[8..] + t;
    } else if wireType == WT_STRING {
      StringExtends(s, t);
    } else {
      assert (s + t)[4..] == s[4..] + t;
    }
  }

  // ----- field boundaries -----

  /** How decoding stands after one field, if the bytes begin with a complete one. */
  datatype Standing = Standing(m: Msg, seen: set<nat>, rest: Bytes)

  function OneField(fields: seq<Field>, s: Bytes, m: Msg, seen: set<nat>): (r: Option<Standing>)
    requires |m.slots| == |fields|
    ensures r.Some? ==> |r.value.m.slots| == |fields| && |r.value.rest| < |s|
  {
    if s == [] || !DecodeTag(s).Tag? then None
    else
      var Tag(wireType, number, rest) := DecodeTag(s);
      var found := Find(fields, number, 0);
      if found.None? then
        if fields == [] && number == 0 then None
        else
          var r := SkipField(wireType, rest);
          if r.Fail? then None else Some(Standing(m, seen, r.rest))
      else
        var i := found.value;
        var r := DecodeSlot(fields[i], wireType, rest, m.slots[SlotOf(fields, i)]);
        if r.Fail? then None else Some(Standing(Put(fields, m, i, r.value), See(fields, seen, i), r.rest))
  }

  /** The bytes are a run of complete fields; what they leave behind. */
  function Run(fields: seq<Field>, a: Bytes, m: Msg, seen: set<nat>): (r: Option<Standing>)
    requires |m.slots| == |fields|
    ensures r.Some? ==> |r.value.m.slots| == |fields|
    decreases |a|
  {
    if a == [] then Some(Standing(m, seen, []))
    else
      var st := OneField(fields, a, m, seen);
      if st.None? then None else Run(fields, st.value.rest, st.value.m, st.value.seen)
  }

  lemma OneFieldDecodes(fields: seq<Field>, s: Bytes, m: Msg, seen: set<nat>)
    requires |m.slots| == |fields| && OneField(fields, s, m, seen).Some?
    ensures
      var st := OneField(fields, s, m, seen).value;
      DecodeFields(fields, s, m, seen) == DecodeFields(fields, st.rest, st.m, st.seen)
  {
    hide DecodeTag, DecodeSlot, SkipField;
  }

  lemma OneFieldExtends(fields: seq<Field>, s: Bytes, t: Bytes, m: Msg, seen: set<nat>)
    requires |m.slots| == |fields| && OneField(fields, s, m, seen).Some?
    ensures
      var st := OneField(fields, s, m, seen).value;
      OneField(fields, s + t, m, seen) == Some(st.(rest := st.rest + t))
  {
    hide DecodeTag, DecodeSlot, SkipField, DecodeVarint, DecodeVarint32;
    DecodersExtend(s, t);
    var Tag(wireType, number, rest) := DecodeTag(s);
    var found := Find(fields, number, 0);
    if found.None? {
      SkipExtends(wireType, rest, t);
    } else {
      SlotExtends(fields[found.value], wireType, rest, t, m.slots[SlotOf(fields, found.value)]);
    }
  }

  /** Decoding a run of fields followed by anything is decoding what follows, from where the run left. */
  lemma {:induction false} RunThenRest(fields: seq<Field>, a: Bytes, t: Bytes, m: Msg, seen: set<nat>)
    requires |m.slots| == |fields| && Run(fields, a, m, seen).Some?
    ensures
      var st := Run(fields, a, m, seen).value;
      DecodeFields(fields, a + t, m, seen) == DecodeFields(fields, t, st.m, st.seen)
    decreases |a|
  {
    hide OneField, DecodeFields;
    if a == [] {
      assert a + t == t;
    } else {
      var st := OneField(fields, a, m, seen).value;
      OneFieldExtends(fields, a, t, m, seen);
      OneFieldDecodes(fields, a + t, m, seen);
      RunThenRest(fields, st.rest, t, st.m, st.seen);
    }
  }

  // ----- undeclared fields -----

  /** A complete field whose number the type does not declare, as the decoder reads it. */
  ghost predicate Undeclared(fields: seq<Field>, u: Bytes) {
    && DecodeTag(u).Tag?
    && Find(fields, DecodeTag(u).number, 0).None?
    && SkipField(DecodeTag(u).wireType, DecodeTag(u).rest) == Ok((), [])
  }

  /** A type without fields takes field number 0 for its own terminator. */
  predicate TakenForTerminator(fields: seq<Field>, u: Bytes)
    requires DecodeTag(u).Tag?
  {
    fields == [] && DecodeTag(u).number == 0
  }

  /** The fields that an encoder can write are covered: every number up to 2^29 - 1 that the type does not
      declare, 0 included, with every wire type that has a payload to skip. */
  lemma WrittenFieldIsUndeclared(fields: seq<Field>, wireType: nat, number: nat, payload: Bytes)
    requires wireType < 8 && number < 0x2000_0000 && (number > 0 || wireType > 0)
    requires Find(fields, number, 0).None? && SkipField(wireType, payload) == Ok((), [])
    ensures Undeclared(fields, EncodeTag(wireType, number) + payload)
    ensures TakenForTerminator(fields, EncodeTag(wireType, number) + payload) <==> fields == [] && number == 0
  {
    hide DecodeTag, EncodeTag, SkipField;
    TagInverts(wireType, number, payload);
  }

  lemma UndeclaredIsSkipped(fields: seq<Field>, u: Bytes, b: Bytes, m: Msg, seen: set<nat>)
    requires |m.slots| == |fields| && Undeclared(fields, u)
    ensures DecodeFields(fields, u + b, m, seen) ==
            if TakenForTerminator(fields, u) then Fail else DecodeFields(fields, b, m, seen)
  {
    hide DecodeFields, DecodeTag, SkipField, DecodeVarint, DecodeVarint32;
    DecodersExtend(u, b);
    SkipExtends(DecodeTag(u).wireType, DecodeTag(u).rest, b);
    assert [] + b == b;
    TagIsNotEmpty(u + b);
    if TakenForTerminator(fields, u) {
      TerminatorFails(fields, u + b, m, seen);
    } else {
      OneFieldDecodes(fields, u + b, m, seen);
    }
  }

  lemma TerminatorFails(fields: seq<Field>, s: Bytes, m: Msg, seen: set<nat>)
    requires |m.slots| == |fields| && s != [] && DecodeTag(s).Tag? && TakenForTerminator(fields, s)
    ensures DecodeFields(fields, s, m, seen) == Fail
  {
    hide DecodeTag, DecodeSlot, SkipField;
  }

  /** An undeclared field at any field boundary: it changes nothing about the result, or it is field number
      0 of a type without fields and the message fails. */
  lemma UnknownFieldsAreTransparent(fields: seq<Field>, a: Bytes, u: Bytes, b: Bytes, m: Msg, seen: set<nat>)
    requires |m.slots| == |fields| && Undeclared(fields, u) && Run(fields, a, m, seen).Some?
    ensures DecodeFields(fields, a + u + b, m, seen) ==
            if TakenForTerminator(fields, u) then Fail else DecodeFields(fields, a + b, m, seen)
  {
    hide DecodeFields, Run, Undeclared, TakenForTerminator;
    var st := Run(fields, a, m, seen).value;
    Regroup(a, u, b);
    RunThenRest(fields, a, u + b, m, seen);
    RunThenRest(fields, a, b, m, seen);
    UndeclaredIsSkipped(fields, u, b, st.m, st.seen);
  }

  ghost predicate Transparent(fields: seq<Field>, a: Bytes, u: Bytes, b: Bytes, m: Msg, seen: set<nat>)
    requires |m.slots| == |fields|
  {
    DecodeFields(fields, a + u + b, m, seen) == DecodeFields(fields, a + b, m, seen)
  }

  /** Exactly when an undeclared field leaves no trace, whatever follows it: unless it is field number 0 and
      the type has no fields. */
  lemma TransparentIff(fields: seq<Field>, a: Bytes, u: Bytes, m: Msg, seen: set<nat>)
    requires |m.slots| == |fields| && Undeclared(fields, u) && Run(fields, a, m, seen).Some?
    ensures (forall b: Bytes :: Transparent(fields, a, u, b, m, seen)) <==> !TakenForTerminator(fields, u)
  {
    hide DecodeFields, Run, DecodeTag, SkipField;
    if TakenForTerminator(fields, u) {
      var st := Run(fields, a, m, seen).value;
      UnknownFieldsAreTransparent(fields, a, u, [], m, seen);
      RunThenRest(fields, a, [], m, seen);
      EndOfMessage(fields, st.m, st.seen);
      assert !Transparent(fields, a, u, [], m, seen);
    } else {
      forall b: Bytes
        ensures Transparent(fields, a, u, b, m, seen)
      {
        UnknownFieldsAreTransparent(fields, a, u, b, m, seen);
      }
    }
  }

  // ----- messages cut short -----

  /** The bytes of a field's tag. */
  function TagLength(u: Bytes): nat
    requires DecodeTag(u).Tag?
  {
    |u| - |DecodeTag(u).rest|
  }

  /** The bytes are exactly one field. */
  predicate IsField(fields: seq<Field>, u: Bytes, m: Msg, seen: set<nat>)
    requires |m.slots| == |fields|
  {
    OneField(fields, u, m, seen).Some? && OneField(fields, u, m, seen).value.rest == []
  }

  /** No complete field is the beginning of another one: varints end themselves, and strings say how long
      they are. */
  lemma CutFieldIsNoField(fields: seq<Field>, u: Bytes, n: nat, m: Msg, seen: set<nat>)
    requires |m.slots| == |fields| && IsField(fields, u, m, seen) && n < |u|
    ensures OneField(fields, u[..n], m, seen).None?
  {
    hide OneField;
    assert u[..n] + u[n..] == u;
    if OneField(fields, u[..n], m, seen).Some? {
      OneFieldExtends(fields, u[..n], u[n..], m, seen);
    }
  }

  /** A field cut inside its payload fails; one cut inside its tag ends the message. */
  lemma CutField(fields: seq<Field>, u: Bytes, n: nat, m: Msg, seen: set<nat>)
    requires |m.slots| == |fields| && IsField(fields, u, m, seen) && n < |u|
    ensures DecodeTag(u).Tag?
    ensures DecodeFields(fields, u[..n], m, seen) ==
            if n < TagLength(u) && AllSeen(fields, seen) then Ok(m, []) else Fail
  {
    CutTag(u, n);
    CutFieldIsNoField(fields, u, n, m, seen);
    assert u[..n] == [] <==> n == 0;
    CutDecodes(fields, u[..n], m, seen);
  }

  lemma CutDecodes(fields: seq<Field>, s: Bytes, m: Msg, seen: set<nat>)
    requires |m.slots| == |fields|
    requires DecodeTag(s) == End([]) || (DecodeTag(s).Tag? && OneField(fields, s, m, seen).None?)
    ensures DecodeFields(fields, s, m, seen) ==
            if DecodeTag(s).End? && AllSeen(fields, seen) then Ok(m, []) else Fail
  {
    hide DecodeTag, DecodeSlot, SkipField;
    EmptyTagEnds();
  }

  lemma EmptyTagEnds()
    ensures DecodeTag([]) == End([])
  {
  }

  /** Exactly when a message cut inside field `u` is accepted: when the cut falls into the field's tag, or
      right before it, and all required fields lie before the cut.  What was decoded is then the message of
      the fields before. */
  lemma CutMessage(fields: seq<Field>, a: Bytes, u: Bytes, n: nat, m: Msg, seen: set<nat>)
    requires |m.slots| == |fields| && Run(fields, a, m, seen).Some?
    requires IsField(fields, u, Run(fields, a, m, seen).value.m, Run(fields, a, m, seen).value.seen) && n < |u|
    ensures DecodeTag(u).Tag?
    ensures
      var st := Run(fields, a, m, seen).value;
      DecodeFields(fields, a + u[..n], m, seen) ==
      if n < TagLength(u) && AllSeen(fields, st.seen) then Ok(st.m, []) else Fail
  {
    hide DecodeFields, Run, IsField, DecodeTag, AllSeen;
    var st := Run(fields, a, m, seen).value;
    RunThenRest(fields, a, u[..n], m, seen);
    CutField(fields, u, n, st.m, st.seen);
  }

  /** Optional field 16, so that its tag takes two bytes. */
  function Field16(): Field {
    Field(16, UVarint, Optional, Static, 0, -4, 4, 0, [])
  }

  lemma Field16IsRead(m: Msg)
    requires m == Empty([Field16()])
    ensures DecodeTag([128, 1, 5]) == Tag(WT_VARINT, 16, [5])
    ensures OneField([Field16()], [128, 1, 5], m, {}) == Some(Standing(Msg([Slot(0, [Int(5)])]), {}, []))
  {
    hide DecodeTag, Varints.Varint, DecodeVarint, ParseVarint;
    Varints.VarintOpen(128);
    Varints.VarintOpen(1);
    Varints.VarintOpen(5);
    TagInverts(WT_VARINT, 16, [5]);
    assert Varints.Varint(128) + [5] == [128, 1, 5];
    VarintInverts(5, []);
    assert [5] + [] == [5];
    var f := Field16();
    assert Find([f], 16, 0) == Some(0);
    assert DecodeValue(f, [5], None) == Ok(Int(5), []);
    assert DecodeSlot(f, WT_VARINT, [5], NOTHING) == Ok(Slot(0, [Int(5)]), []);
    assert SlotOf([f], 0) == 0 && m.slots[0] == NOTHING;
    assert Put([f], m, 0, Slot(0, [Int(5)])).slots == [Slot(0, [Int(5)])];
  }

  /** Half a tag is taken for the end of the message: the value 5 of optional field 16 is lost without an
      error when the message is cut behind its first byte, and the cut is noticed one byte later. */
  lemma CutTagIsAccepted()
    ensures
      var fields := [Field16()];
      && Decode(fields, [128, 1, 5]) == Ok(Msg([Slot(0, [Int(5)])]), [])
      && Decode(fields, [128]) == Ok(Empty(fields), [])
      && Decode(fields, [128, 1]) == Fail
  {
    hide DecodeFields, DecodeTag, OneField, AllSeen;
    var fields := [Field16()];
    var u: Bytes := [128, 1, 5];
    var m := Empty(fields);
    Field16IsRead(m);
    NothingRequired({});
    CutField(fields, u, 1, m, {});
    CutField(fields, u, 2, m, {});
    assert u[..1] == [128] && u[..2] == [128, 1];
    OneFieldDecodes(fields, u, m, {});
    EndOfMessage(fields, Msg([Slot(0, [Int(5)])]), {});
  }

  lemma NothingRequired(seen: set<nat>)
    ensures AllSeen([Field16()], seen)
  {
  }

  lemma EndOfMessage(fields: seq<Field>, m: Msg, seen: set<nat>)
    requires |m.slots| == |fields|
    ensures DecodeFields(fields, [], m, seen) == if AllSeen(fields, seen) then Ok(m, []) else Fail
  {
  }
}
