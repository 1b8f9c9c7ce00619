/**
 Types that have grown.  A program that does not know a field reads messages written with it as if the field
 were not there, and a program that knows more fields reads older messages.
 */
module PbEvolution {
  import opened ByteStrings
  import opened PbIntegers
  import opened PbFields
  import opened PbMessages
  import opened PbRoundTrip
  import opened PbUnknown
  import opened PbMerge
  import opened PbExact

  /** The type with a field put in at place `n`. */
  function Grown(fields: seq<Field>, n: nat, f: Field): (more: seq<Field>)
    requires n <= |fields|
    ensures |more| == |fields| + 1
  {
    fields[..n] + [f] + fields[n..]
  }

  function GrownMsg(m: Msg, n: nat, slot: Slot): (more: Msg)
    requires n <= |m.slots|
    ensures |more.slots| == |m.slots| + 1
  {
    Msg(m.slots[..n] + [slot] + m.slots[n..])
  }

  /** A new field, with a number of its own, that splits no union. */
  ghost predicate MayGrow(fields: seq<Field>, n: nat, f: Field) {
    && n <= |fields| && (n < |fields| ==> !InUnion(fields, n))
    && f.rule != Oneof && WfField(f)
    && forall i :: 0 <= i < |fields| ==> fields[i].tag != f.tag
  }

  function Moved(n: nat, i: nat): nat {
    if i < n then i else i + 1
  }

  lemma {:induction false} SlotsMove(fields: seq<Field>, n: nat, f: Field, i: nat)
    requires MayGrow(fields, n, f) && i < |fields|
    ensures Grown(fields, n, f)[Moved(n, i)] == fields[i]
    ensures SlotOf(Grown(fields, n, f), Moved(n, i)) == Moved(n, SlotOf(fields, i))
    decreases i
  {
    hide WfField;
    var more := Grown(fields, n, f);
    assert more[Moved(n, i)] == fields[i];
    if i > 0 {
      SlotsMove(fields, n, f, i - 1);
      assert i != n ==> more[Moved(n, i) - 1] == fields[i - 1];
    }
    assert i == n ==> more[n] == f;
  }

  lemma NewSlot(fields: seq<Field>, n: nat, f: Field)
    requires MayGrow(fields, n, f)
    ensures Grown(fields, n, f)[n] == f && SlotOf(Grown(fields, n, f), n) == n
  {
    hide WfField;
  }

  lemma NotDeclared(fields: seq<Field>, n: nat, f: Field)
    requires MayGrow(fields, n, f)
    ensures Find(fields, f.tag, 0).None?
  {
    hide WfField;
  }

  // ----- the unknown field's bytes -----

  /** One field with its tag, met by a program that does not know it. */
  lemma TaggedIsSkipped(fields: seq<Field>, wireType: nat, tag: nat, body: Bytes, rest: Bytes, p: Msg, seen: set<nat>)
    requires |p.slots| == |fields| && Find(fields, tag, 0).None? && 0 < tag < 0x2000_0000 && wireType < 8
    requires SkipField(wireType, body + rest) == Ok((), rest)
    ensures DecodeFields(fields, EncodeTag(wireType, tag) + body + rest, p, seen) == DecodeFields(fields, rest, p, seen)
  {
    hide DecodeFields, DecodeTag, EncodeTag, SkipField;
    var s := EncodeTag(wireType, tag) + body + rest;
    Regroup(EncodeTag(wireType, tag), body, rest);
    TagInverts(wireType, tag, body + rest);
    TagIsNotEmpty(s);
    OneFieldDecodes(fields, s, p, seen);
  }

  lemma {:induction false} EachIsSkipped(fields: seq<Field>, f: Field, items: seq<Value>, rest: Bytes, p: Msg, seen: set<nat>)
    requires |p.slots| == |fields| && Find(fields, f.tag, 0).None? && WfField(f)
    requires forall k :: 0 <= k < |items| ==> WfValue(f, items[k]) && ValuePrefixes(f, items[k])
    ensures EncodeItems(f, items, true).Some?
    ensures DecodeFields(fields, EncodeItems(f, items, true).value + rest, p, seen) == DecodeFields(fields, rest, p, seen)
    decreases |items|
  {
    hide EncodeValue, DecodeFields, EncodeItems, EncodeTag, SkipField, WfValue, ValuePrefixes;
    EachStep(f, items);
    if items == [] {
      assert [] + rest == rest;
    } else {
      EachIsSkipped(fields, f, items[1..], rest, p, seen);
      var later := EncodeItems(f, items[1..], true).value;
      ValueIsSkipped(f, items[0], later + rest);
      TaggedIsSkipped(fields, WireType(f.ltype), f.tag, EncodeValue(f, items[0]).value, later + rest, p, seen);
      Regroup(TagFor(f) + EncodeValue(f, items[0]).value, later, rest);
    }
  }

  /** Whatever a field writes, it is passed over. */
  lemma FieldIsSkipped(fields: seq<Field>, f: Field, slot: Slot, rest: Bytes, p: Msg, seen: set<nat>)
    requires |p.slots| == |fields| && Find(fields, f.tag, 0).None? && WfField(f) && FieldPrefixes(f, slot) && f.rule != Oneof
    requires forall k :: 0 <= k < |slot.items| ==> WfValue(f, slot.items[k])
    requires EncodeField(f, slot).Some?
    ensures DecodeFields(fields, EncodeField(f, slot).value + rest, p, seen) == DecodeFields(fields, rest, p, seen)
  {
    hide EncodeValue, DecodeFields, EncodeItems, EncodeTag, SkipField, WfValue, ValuePrefixes;
    if slot.items == [] {
      assert [] + rest == rest;
    } else if f.rule == Repeated && Packable(f.ltype) {
      PackedIsSkipped(f, slot.items, rest);
      TaggedIsSkipped(fields, 2, f.tag, Prefixed(EncodeItems(f, slot.items, false)).value, rest, p, seen);
    } else if f.rule == Repeated {
      EachIsSkipped(fields, f, slot.items, rest, p, seen);
    } else {
      ValueIsSkipped(f, slot.items[0], rest);
      TaggedIsSkipped(fields, WireType(f.ltype), f.tag, EncodeValue(f, slot.items[0]).value, rest, p, seen);
    }
  }

  // ----- older programs read newer messages -----

  /** Behind the new field the bytes are the older type's. */
  lemma {:induction false} SameBytesBehind(
    fields: seq<Field>, n: nat, f: Field, m: Msg, slot: Slot, i: nat)
    requires MayGrow(fields, n, f) && |m.slots| == |fields| && n < i <= |fields| + 1
    ensures EncodeFrom(Grown(fields, n, f), GrownMsg(m, n, slot), i) == EncodeFrom(fields, m, i - 1)
    decreases |fields| + 1 - i
  {
    hide EncodeField, EncodeFrom, WfField, WfFields, WfMsg, MsgPrefixes, SlotOf;
    var more, wide := Grown(fields, n, f), GrownMsg(m, n, slot);
    EncodeFromOpen(more, wide, i);
    EncodeFromOpen(fields, m, i - 1);
    if i <= |fields| {
      SameBytesBehind(fields, n, f, m, slot, i + 1);
      SlotsMove(fields, n, f, i - 1);
      SlotContents(m, n, slot, SlotOf(fields, i - 1));
    }
  }

  lemma SlotContents(m: Msg, n: nat, slot: Slot, j: nat)
    requires n <= |m.slots| && j < |m.slots|
    ensures GrownMsg(m, n, slot).slots[Moved(n, j)] == m.slots[j]
  {
  }

  /** The fields before the new one, the new one, and those behind. */
  lemma {:induction false} OlderReads(
    fields: seq<Field>, n: nat, f: Field, m: Msg, slot: Slot, i: nat, p: Msg, seen: set<nat>, rest: Bytes)
    requires MayGrow(fields, n, f) && WfFields(fields) && WfMsg(fields, m) && MsgPrefixes(fields, m)
    requires |m.slots| == |fields| == |p.slots| && i <= n
    requires FieldPrefixes(f, slot) && EncodeField(f, slot).Some?
    requires forall k :: 0 <= k < |slot.items| ==> WfValue(f, slot.items[k])
    ensures EncodeFrom(Grown(fields, n, f), GrownMsg(m, n, slot), i).Some? && EncodeFrom(fields, m, i).Some?
    ensures DecodeFields(fields, EncodeFrom(Grown(fields, n, f), GrownMsg(m, n, slot), i).value + rest, Upto(fields, p, m, i), seen)
         == DecodeFields(fields, EncodeFrom(fields, m, i).value + rest, Upto(fields, p, m, i), seen)
    decreases n - i
  {
    hide EncodeField, EncodeFrom, DecodeFields, WfField, WfFields, WfMsg, WfValue, MsgPrefixes, FieldPrefixes, SlotOf, Upto, MergeSlot, SlotMergeable;
    var more, wide := Grown(fields, n, f), GrownMsg(m, n, slot);
    var q := Upto(fields, p, m, i);
    EncodeFromOpen(more, wide, i);
    FieldsMerge(fields, m, i, p, seen, rest);
    if i == n {
      NewSlot(fields, n, f);
      SameBytesBehind(fields, n, f, m, slot, n + 1);
      NotDeclared(fields, n, f);
      var x, later := EncodeField(f, slot).value, EncodeFrom(fields, m, n).value;
      FieldIsSkipped(fields, f, slot, later + rest, q, seen) by { GrownField(fields, n, f); }
      Regroup(x, later, rest);
    } else {
      SlotsMove(fields, n, f, i);
      SlotContents(m, n, slot, SlotOf(fields, i));
      EncodeFromOpen(fields, m, i);
      OlderReads(fields, n, f, m, slot, i + 1, p, See(fields, seen, i), rest);
      PrefixesAt(fields, m, i);
      var x := EncodeField(fields[i], m.slots[SlotOf(fields, i)]).value;
      var a, b := EncodeFrom(more, wide, i + 1).value + rest, EncodeFrom(fields, m, i + 1).value + rest;
      FieldMerges(fields, m, i, a, q, seen);
      FieldMerges(fields, m, i, b, q, seen);
      UptoOpen(fields, p, m, i);
      Regroup(x, EncodeFrom(more, wide, i + 1).value, rest);
      Regroup(x, EncodeFrom(fields, m, i + 1).value, rest);
    }
  }

  lemma GrownField(fields: seq<Field>, n: nat, f: Field)
    requires MayGrow(fields, n, f)
    ensures WfField(f) && f.rule != Oneof
  {
  }

  /** A program that does not know a field reads a message written with it as the rest of the message: whatever
      the new field holds, and wherever in the type it stands. */
  lemma OlderProgramsRead(fields: seq<Field>, n: nat, f: Field, m: Msg, slot: Slot)
    requires MayGrow(fields, n, f) && WfFields(fields) && WfMsg(fields, m) && MsgPrefixes(fields, m)
    requires FieldPrefixes(f, slot) && EncodeField(f, slot).Some?
    requires forall k :: 0 <= k < |slot.items| ==> WfValue(f, slot.items[k])
    ensures |m.slots| == |fields|
    ensures Encode(Grown(fields, n, f), GrownMsg(m, n, slot)).Some?
    ensures Decode(fields, Encode(Grown(fields, n, f), GrownMsg(m, n, slot)).value) == Ok(m, [])
  {
    hide EncodeField, EncodeFrom, DecodeFields, WfField, WfFields, WfMsg, WfValue, MsgPrefixes, FieldPrefixes, MayGrow;
    SlotsMatch(fields, m);
    assert n <= |fields| by { Place(fields, n, f); }
    OlderReads(fields, n, f, m, slot, 0, Empty(fields), {}, []);
    NothingMerged(fields, Empty(fields), m);
    MessageRoundTrip(fields, m);
    var a, b := EncodeFrom(Grown(fields, n, f), GrownMsg(m, n, slot), 0).value, EncodeFrom(fields, m, 0).value;
    assert a + [] == a && b + [] == b;
  }

  lemma Place(fields: seq<Field>, n: nat, f: Field)
    requires MayGrow(fields, n, f)
    ensures n <= |fields|
  {
  }

  // ----- newer programs read older messages -----

  /** Without contents for the new field, the bytes are the older type's. */
  lemma {:induction false} SameBytes(fields: seq<Field>, n: nat, f: Field, m: Msg, i: nat)
    requires MayGrow(fields, n, f) && WfFields(fields) && WfMsg(fields, m) && MsgPrefixes(fields, m)
    requires |m.slots| == |fields| && i <= n && f.rule != Required
    ensures EncodeFrom(Grown(fields, n, f), GrownMsg(m, n, NOTHING), i) == EncodeFrom(fields, m, i)
    decreases n - i
  {
    hide EncodeField, EncodeFrom, WfField, WfFields, WfMsg, MsgPrefixes, SlotOf;
    var more, wide := Grown(fields, n, f), GrownMsg(m, n, NOTHING);
    EncodeFromOpen(more, wide, i);
    if i == n {
      NewSlot(fields, n, f);
      SameBytesBehind(fields, n, f, m, NOTHING, n + 1);
      NothingWritten(f) by { GrownField(fields, n, f); StaticField(f); }
      JoinedNothing(EncodeFrom(fields, m, n));
    } else {
      SlotsMove(fields, n, f, i);
      SlotContents(m, n, NOTHING, SlotOf(fields, i));
      EncodeFromOpen(fields, m, i);
      SameBytes(fields, n, f, m, i + 1);
    }
  }

  lemma StaticField(f: Field)
    requires WfField(f)
    ensures f.alloc == Static
  {
  }

  lemma NothingWritten(f: Field)
    requires f.alloc == Static && f.rule != Required
    ensures EncodeField(f, NOTHING) == Some([])
  {
  }

  lemma JoinedNothing(a: Option<Bytes>)
    ensures Joined(Some([]), a) == a
  {
    if a.Some? {
      assert [] + a.value == a.value;
    }
  }

  lemma GrownIsWf(fields: seq<Field>, n: nat, f: Field)
    requires MayGrow(fields, n, f) && WfFields(fields)
    ensures WfFields(Grown(fields, n, f))
  {
    hide WfField;
    var more := Grown(fields, n, f);
    assert forall i :: 0 <= i < |more| ==> more[i] == if i < n then fields[i] else if i == n then f else fields[i - 1];
  }

  lemma GrownMsgIsWf(fields: seq<Field>, n: nat, f: Field, m: Msg)
    requires MayGrow(fields, n, f) && WfMsg(fields, m) && f.rule != Required && |m.slots| == |fields|
    ensures WfMsg(Grown(fields, n, f), GrownMsg(m, n, NOTHING))
  {
    hide WfField;
    var more, wide := Grown(fields, n, f), GrownMsg(m, n, NOTHING);
    forall j | 0 <= j < |more|
      ensures WfSlot(more, j, wide.slots[j])
    {
      if j == n {
        NewSlot(fields, n, f);
      } else {
        GrownSlotIsWf(fields, n, f, m, if j < n then j else j - 1);
      }
    }
  }

  lemma GrownSlotIsWf(fields: seq<Field>, n: nat, f: Field, m: Msg, j: nat)
    requires MayGrow(fields, n, f) && WfMsg(fields, m) && |m.slots| == |fields| && j < |fields|
    ensures WfSlot(Grown(fields, n, f), Moved(n, j), GrownMsg(m, n, NOTHING).slots[Moved(n, j)])
  {
    hide WfField, WfValue, SlotOf;
    SlotsMove(fields, n, f, j);
    SlotContents(m, n, NOTHING, j);
    assert WfSlot(fields, j, m.slots[j]);
    if fields[j].rule == Oneof && m.slots[j] != NOTHING {
      var q: nat :| Active(fields, j, m.slots[j], q);
      SlotsMove(fields, n, f, q);
      assert Active(Grown(fields, n, f), Moved(n, j), m.slots[j], Moved(n, q));
    }
  }

  lemma GrownPrefixes(fields: seq<Field>, n: nat, f: Field, m: Msg)
    requires MayGrow(fields, n, f) && MsgPrefixes(fields, m) && |m.slots| == |fields|
    ensures MsgPrefixes(Grown(fields, n, f), GrownMsg(m, n, NOTHING))
  {
    hide MayGrow, FieldPrefixes, SlotOf, Grown, GrownMsg;
    Place(fields, n, f);
    var more, wide := Grown(fields, n, f), GrownMsg(m, n, NOTHING);
    forall i: nat | i < |more|
      ensures FieldPrefixes(more[i], wide.slots[SlotOf(more, i)])
    {
      GrownFieldPrefixes(fields, n, f, m, i);
    }
  }

  lemma GrownFieldPrefixes(fields: seq<Field>, n: nat, f: Field, m: Msg, i: nat)
    requires MayGrow(fields, n, f) && MsgPrefixes(fields, m) && |m.slots| == |fields| && i <= |fields|
    ensures
      var more, wide := Grown(fields, n, f), GrownMsg(m, n, NOTHING);
      FieldPrefixes(more[i], wide.slots[SlotOf(more, i)])
  {
    hide MayGrow, FieldPrefixes, SlotOf, MsgPrefixes;
    Place(fields, n, f);
    if i == n {
      NewSlot(fields, n, f);
      NothingIsShort(f);
    } else {
      var k := if i < n then i else i - 1;
      SlotsMove(fields, n, f, k);
      SlotContents(m, n, NOTHING, SlotOf(fields, k));
      PrefixesAt(fields, m, k);
    }
  }

  lemma NothingIsShort(f: Field)
    ensures FieldPrefixes(f, NOTHING)
  {
  }

  /** A program that knows one more field, which is not required, reads an older message as one without it. */
  lemma NewerProgramsRead(fields: seq<Field>, n: nat, f: Field, m: Msg)
    requires MayGrow(fields, n, f) && WfFields(fields) && WfMsg(fields, m) && MsgPrefixes(fields, m) && f.rule != Required
    ensures |m.slots| == |fields| && Encode(fields, m).Some?
    ensures Decode(Grown(fields, n, f), Encode(fields, m).value) == Ok(GrownMsg(m, n, NOTHING), [])
  {
    hide EncodeField, EncodeFrom, DecodeFields, WfField, WfFields, WfMsg, WfValue, MsgPrefixes, FieldPrefixes, MayGrow;
    SlotsMatch(fields, m);
    assert n <= |fields| by { Place(fields, n, f); }
    SameBytes(fields, n, f, m, 0);
    GrownIsWf(fields, n, f);
    GrownMsgIsWf(fields, n, f, m);
    GrownPrefixes(fields, n, f, m);
    MessageRoundTrip(Grown(fields, n, f), GrownMsg(m, n, NOTHING));
    MessageRoundTrip(fields, m);
  }

  /** The bytes 15 01 02 03 04 08 05: an unknown field 2 of type fixed32, then 5 for a field numbered 1. */
  lemma UnknownFixed32IsSkipped()
    ensures Decode([Known(1, UVarint, Optional, 4, [])], [0x15, 1, 2, 3, 4, 0x08, 5]) == Ok(One(Int(5)), [])
  {
    hide Varints.Varint, DecodeFields, EncodeTag, SkipField;
    var f := Known(1, UVarint, Optional, 4, []);
    var fields, p := [f], Empty([f]);
    Varints.VarintOpen(21);
    Varints.VarintOpen(8);
    Varints.VarintOpen(5);
    assert EncodeTag(5, 2) == [0x15] && TagFor(f) == [0x08] by { KnownTags(); }
    SkipTakes(5, [1, 2, 3, 4] + [0x08, 5]);
    assert ([1, 2, 3, 4] + [0x08, 5])[4..] == [0x08, 5];
    assert Find(fields, 2, 0).None?;
    TaggedIsSkipped(fields, 5, 2, [1, 2, 3, 4], [0x08, 5], p, {});
    assert [0x15] + [1, 2, 3, 4] + [0x08, 5] == [0x15, 1, 2, 3, 4, 0x08, 5];
    assert WfField(f) && WfFields(fields);
    SingleIsMet(fields, 0, Int(5), [], p, {});
    assert [0x08] + [5] + [] == [0x08, 5];
    assert Put(fields, p, 0, Slot(0, [Int(5)])).slots == [Slot(0, [Int(5)])];
    NothingLeft(fields, One(Int(5)));
  }

  lemma KnownTags()
    ensures EncodeTag(5, 2) == [0x15] && EncodeTag(0, 1) == [0x08]
  {
    Varints.VarintOpen(21);
    Varints.VarintOpen(8);
  }
}
