/**
 Decoding into a message that has contents already.  The bytes of one message behind those of another decode
 to the merger of the two: later single values replace earlier ones, arrays are joined, and nested messages are
 merged in turn.
 */
module PbMerge {
  import opened ByteStrings
  import opened PbIntegers
  import opened PbFields
  import opened PbMessages
  import opened PbRoundTrip

  // ----- merging, as the Protocol Buffers language describes it -----

  /** What a nested message is decoded into. */
  function Base(f: Field, prior: Option<Value>): (m: Msg)
    ensures |m.slots| == |f.sub|
  {
    if prior.Some? && prior.value.Sub? && |prior.value.m.slots| == |f.sub| then prior.value.m else Empty(f.sub)
  }

  function First(slot: Slot): Option<Value> {
    if slot.items == [] then None else Some(slot.items[0])
  }

  function Merge(fields: seq<Field>, p: Msg, m: Msg): (r: Msg)
    requires |p.slots| == |fields| == |m.slots|
    ensures |r.slots| == |fields|
    decreases m
  {
    Msg(seq(|fields|, j requires 0 <= j < |fields| => MergeSlot(fields[j], p.slots[j], m.slots[j])))
  }

  function MergeSlot(f: Field, p: Slot, s: Slot): Slot
    decreases s
  {
    if s.items == [] then p
    else if f.rule == Repeated then p.(items := p.items + s.items)
    else if f.rule == Oneof then s
    else Slot(0, [MergeValue(f, First(p), s.items[0])])
  }

  function MergeValue(f: Field, prior: Option<Value>, v: Value): Value
    decreases v
  {
    if f.ltype == Submessage && v.Sub? && |v.m.slots| == |f.sub| then Sub(Merge(f.sub, Base(f, prior), v.m)) else v
  }

  /** The arrays have room for all items. */
  ghost predicate Mergeable(fields: seq<Field>, p: Msg, m: Msg)
    requires |p.slots| == |fields| == |m.slots|
    decreases m
  {
    forall j: nat :: j < |fields| ==> SlotMergeable(fields[j], p.slots[j], m.slots[j])
  }

  ghost predicate SlotMergeable(f: Field, p: Slot, s: Slot)
    decreases s
  {
    s.items == [] ||
    (if f.rule == Repeated then |p.items| + |s.items| <= f.arraySize
     else f.rule == Oneof || ValueMergeable(f, First(p), s.items[0]))
  }

  ghost predicate ValueMergeable(f: Field, prior: Option<Value>, v: Value)
    decreases v
  {
    f.ltype == Submessage && v.Sub? && |v.m.slots| == |f.sub| ==> Mergeable(f.sub, Base(f, prior), v.m)
  }

  // ----- field by field -----

  /** The message after the fields before `i` have been merged in. */
  function Upto(fields: seq<Field>, p: Msg, m: Msg, i: nat): (r: Msg)
    requires i <= |fields| && |p.slots| == |fields| == |m.slots|
    ensures |r.slots| == |fields|
  {
    if i == 0 then p
    else
      var q := Upto(fields, p, m, i - 1);
      var j := SlotOf(fields, i - 1);
      if Written(fields, m, i - 1) then Put(fields, q, i - 1, MergeSlot(fields[i - 1], q.slots[j], m.slots[j])) else q
  }

  function SeeFrom(fields: seq<Field>, seen: set<nat>, i: nat): set<nat>
    requires i <= |fields|
    decreases |fields| - i
  {
    if i == |fields| then seen else SeeFrom(fields, See(fields, seen, i), i + 1)
  }

  lemma {:induction false} SeenFrom(fields: seq<Field>, seen: set<nat>, i: nat)
    requires i <= |fields|
    ensures seen <= SeeFrom(fields, seen, i)
    ensures forall k :: i <= k < |fields| && fields[k].rule == Required ==> k in SeeFrom(fields, seen, i)
    decreases |fields| - i
  {
    if i < |fields| {
      SeenFrom(fields, See(fields, seen, i), i + 1);
    }
  }

  ghost predicate FieldFits(fields: seq<Field>, p: Msg, m: Msg, k: nat)
    requires k < |fields| && |p.slots| == |fields| == |m.slots|
  {
    Written(fields, m, k) ==> SlotMergeable(fields[k], p.slots[SlotOf(fields, k)], m.slots[SlotOf(fields, k)])
  }

  ghost predicate FitsFrom(fields: seq<Field>, p: Msg, m: Msg, i: nat)
    requires |p.slots| == |fields| == |m.slots|
  {
    forall k: nat :: i <= k < |fields| ==> FieldFits(fields, p, m, k)
  }

  lemma {:induction false} NotYetMerged(fields: seq<Field>, p: Msg, m: Msg, i: nat, k: nat)
    requires i <= k < |fields| && |p.slots| == |fields| == |m.slots| && fields[k].rule != Oneof
    ensures Upto(fields, p, m, i).slots[k] == p.slots[k]
    decreases i
  {
    if i > 0 {
      NotYetMerged(fields, p, m, i - 1, k);
    }
  }

  ghost predicate WritesSlot(fields: seq<Field>, m: Msg, k: nat, j: nat)
    requires |m.slots| == |fields|
  {
    k < |fields| && SlotOf(fields, k) == j && Written(fields, m, k)
  }

  lemma {:induction false} MergedSlots(fields: seq<Field>, p: Msg, m: Msg, i: nat, j: nat)
    requires i <= |fields| && |p.slots| == |fields| == |m.slots| && j < |fields|
    ensures Upto(fields, p, m, i).slots[j] ==
            if exists k: nat :: k < i && WritesSlot(fields, m, k, j) then MergeSlot(fields[j], p.slots[j], m.slots[j])
            else p.slots[j]
    decreases i
  {
    hide MergeSlot;
    if i > 0 {
      MergedSlots(fields, p, m, i - 1, j);
      if WritesSlot(fields, m, i - 1, j) {
        MergeOneof(fields, i - 1, p.slots[j], Upto(fields, p, m, i - 1).slots[j], m.slots[j]);
        if fields[i - 1].rule != Oneof {
          NotYetMerged(fields, p, m, i - 1, j);
        }
      } else {
        assert forall k: nat :: k < i && WritesSlot(fields, m, k, j) ==> k < i - 1;
        assert SlotOf(fields, i - 1) != j || !Written(fields, m, i - 1);
      }
    }
  }

  /** In a oneof it does not matter what was there. */
  lemma MergeOneof(fields: seq<Field>, i: nat, p: Slot, q: Slot, s: Slot)
    requires i < |fields|
    ensures fields[i].rule == Oneof && s.items != [] ==>
              MergeSlot(fields[i], q, s) == MergeSlot(fields[SlotOf(fields, i)], p, s)
  {
  }

  lemma AllMerged(fields: seq<Field>, p: Msg, m: Msg)
    requires WfMsg(fields, m) && |p.slots| == |fields|
    ensures Upto(fields, p, m, |fields|) == Merge(fields, p, m)
    ensures FitsFrom(fields, p, m, 0) <==> Mergeable(fields, p, m)
  {
    var r := Upto(fields, p, m, |fields|);
    forall j: nat | j < |fields|
      ensures r.slots[j] == MergeSlot(fields[j], p.slots[j], m.slots[j])
    {
      MergedSlots(fields, p, m, |fields|, j);
      if m.slots[j].items != [] {
        SomeFieldWrites(fields, m, j);
      }
    }
    assert r.slots == Merge(fields, p, m).slots;
    FitsMeansMergeable(fields, p, m);
  }

  /** Contents of a slot are written by some field. */
  lemma SomeFieldWrites(fields: seq<Field>, m: Msg, j: nat)
    requires WfMsg(fields, m) && j < |fields| && m.slots[j].items != []
    ensures exists k: nat :: k < |fields| && WritesSlot(fields, m, k, j)
  {
    assert WfSlot(fields, j, m.slots[j]);
    if fields[j].rule == Oneof {
      var q: nat :| Active(fields, j, m.slots[j], q);
      assert WritesSlot(fields, m, q, j);
    } else {
      assert WritesSlot(fields, m, j, j);
    }
  }

  lemma FitsMeansMergeable(fields: seq<Field>, p: Msg, m: Msg)
    requires |p.slots| == |fields| == |m.slots|
    ensures FitsFrom(fields, p, m, 0) <==> Mergeable(fields, p, m)
  {
    hide ValueMergeable;
    forall j: nat | j < |fields| && fields[j].rule != Oneof
      ensures FieldFits(fields, p, m, j) <==> SlotMergeable(fields[j], p.slots[j], m.slots[j])
    {
    }
    forall k: nat | k < |fields| && fields[k].rule == Oneof
      ensures FieldFits(fields, p, m, k) && SlotMergeable(fields[k], p.slots[k], m.slots[k])
    {
    }
  }

  // ----- decoding merges -----

  lemma PriorMatters(f: Field, s: Bytes, prior: Option<Value>)
    requires f.ltype != Submessage
    ensures DecodeValue(f, s, prior) == DecodeValue(f, s, None)
  {
    hide DecodeVarint, DecodeString, DecodeFixed;
  }

  lemma SubDecodes(f: Field, body: Bytes, rest: Bytes, prior: Option<Value>)
    requires f.ltype == Submessage && |body| < TWO_32
    ensures
      var r := DecodeFields(f.sub, body, Base(f, prior), {});
      DecodeValue(f, Varints.Varint(|body|) + body + rest, prior) == if r.Fail? then Fail else Ok(Sub(r.value), rest)
  {
    hide DecodeFields, DecodeString, Varints.Varint;
    PrefixedReads(body, rest);
  }

  /** A value decoded into what was there before. */
  lemma {:induction false} ValueMerges(f: Field, v: Value, prior: Option<Value>, rest: Bytes)
    requires WfField(f) && WfValue(f, v) && ValuePrefixes(f, v)
    ensures EncodeValue(f, v).Some?
    ensures DecodeValue(f, EncodeValue(f, v).value + rest, prior) ==
            if ValueMergeable(f, prior, v) then Ok(MergeValue(f, prior, v), rest) else Fail
    decreases v
  {
    hide EncodeFrom, DecodeFields, DecodeString, Varints.Varint, WfMsg, MsgPrefixes, Merge, Mergeable, DecodeValue, Base;
    ValueRoundTrip(f, v);
    if f.ltype == Submessage {
      SlotsMatch(f.sub, v.m);
      var body := EncodeFrom(f.sub, v.m, 0).value;
      SubDecodes(f, body, rest, prior);
      MessageMerges(f.sub, v.m, Base(f, prior), {}, []);
      assert body + [] == body;
      if Mergeable(f.sub, Base(f, prior), v.m) {
        AllThere(f.sub, Merge(f.sub, Base(f, prior), v.m), {});
      }
    } else {
      assert ReadsBefore(f, v, rest);
      PriorMatters(f, EncodeValue(f, v).value + rest, prior);
    }
  }

  /** When all required fields have been met, the end of the bytes ends the message. */
  lemma AllThere(fields: seq<Field>, m: Msg, seen: set<nat>)
    requires |m.slots| == |fields|
    ensures DecodeFields(fields, [], m, SeeFrom(fields, seen, 0)) == Ok(m, [])
  {
    SeenFrom(fields, seen, 0);
  }

  /** A packed array behind the items so far. */
  lemma {:induction false} ItemsMerge(f: Field, items: seq<Value>, done: seq<Value>)
    requires WfField(f) && Packable(f.ltype)
    requires forall k :: 0 <= k < |items| ==> WfValue(f, items[k])
    ensures EncodeItems(f, items, false).Some?
    ensures DecodeItems(f, EncodeItems(f, items, false).value, done) ==
            if items == [] || |done| + |items| <= f.arraySize then Some(done + items) else None
    decreases items
  {
    hide EncodeValue, DecodeValue, WfValue, WfField;
    if items == [] {
      assert done + items == done;
    } else {
      ItemsMerge(f, items[1..], done + [items[0]]);
      var rest := EncodeItems(f, items[1..], false).value;
      IntRoundTrip(f, items[0], rest);
      var s := EncodeValue(f, items[0]).value + rest;
      assert s != [] by { ItemIsNotEmpty(f, s); }
      assert (done + [items[0]]) + items[1..] == done + items;
      DecodeItemsOpen(f, s, done);
    }
  }

  lemma DecodeItemsOpen(f: Field, s: Bytes, items: seq<Value>)
    requires s != []
    ensures
      var r := DecodeValue(f, s, None);
      DecodeItems(f, s, items) ==
      if |items| >= f.arraySize || r.Fail? then None else DecodeItems(f, r.rest, items + [r.value])
  {
    hide DecodeValue;
  }

  /** A field met on the wire, decoded or not. */
  lemma FieldIsMet(fields: seq<Field>, i: nat, wireType: nat, body: Bytes, m: Msg, seen: set<nat>)
    requires WfFields(fields) && i < |fields| && |m.slots| == |fields| && wireType < 8
    ensures
      var r := DecodeSlot(fields[i], wireType, body, m.slots[SlotOf(fields, i)]);
      DecodeFields(fields, EncodeTag(wireType, fields[i].tag) + body, m, seen) ==
      if r.Fail? then Fail else DecodeFields(fields, r.rest, Put(fields, m, i, r.value), See(fields, seen, i))
  {
    hide DecodeTag, EncodeTag, DecodeSlot, DecodeFields, Find, WfField;
    var s := EncodeTag(wireType, fields[i].tag) + body;
    TagInRange(fields, i);
    TagInverts(wireType, fields[i].tag, body);
    FindsItself(fields, i, 0);
    assert s != [] by { TagIsNotEmpty(s); }
    DecodeOne(fields, s, m, seen, wireType, fields[i].tag, body, i);
  }

  lemma RepeatedItem(f: Field, s: Bytes, slot: Slot)
    requires f.alloc == Static && f.rule == Repeated
    ensures
      var r := DecodeValue(f, s, None);
      DecodeSlot(f, WireType(f.ltype), s, slot) ==
      if |slot.items| >= f.arraySize || r.Fail? then Fail else Ok(slot.(items := slot.items + [r.value]), r.rest)
  {
    hide DecodeValue, DecodeItems, DecodeString;
  }

  /** One item under its own tag. */
  lemma OneItemMerges(fields: seq<Field>, i: nat, v: Value, rest: Bytes, p: Msg, seen: set<nat>)
    requires WfFields(fields) && i < |fields| && |p.slots| == |fields| && fields[i].rule == Repeated
    requires ReadsBack(fields[i], v) && ValuePrefixes(fields[i], v)
    ensures
      var slot := p.slots[i];
      DecodeFields(fields, TagFor(fields[i]) + EncodeValue(fields[i], v).value + rest, p, seen) ==
      if |slot.items| >= fields[i].arraySize then Fail
      else DecodeFields(fields, rest, Put(fields, p, i, slot.(items := slot.items + [v])), seen)
  {
    var f := fields[i];
    assert WfField(f);
    hide EncodeValue, DecodeValue, DecodeFields, DecodeSlot, EncodeTag, WfField, WfFields, ValuePrefixes;
    var body := EncodeValue(f, v).value;
    assert ReadsBefore(f, v, rest);
    Regroup(TagFor(f), body, rest);
    RepeatedItem(f, body + rest, p.slots[i]);
    FieldIsMet(fields, i, WireType(f.ltype), body + rest, p, seen);
  }

  /** The tagged items of an array, whether or not its type could have been packed. */
  lemma {:induction false} EachMerges(fields: seq<Field>, i: nat, items: seq<Value>, rest: Bytes, p: Msg, seen: set<nat>)
    requires WfFields(fields) && i < |fields| && |p.slots| == |fields| && fields[i].rule == Repeated
    requires forall k :: 0 <= k < |items| ==> ReadsBack(fields[i], items[k]) && ValuePrefixes(fields[i], items[k])
    ensures EncodeItems(fields[i], items, true).Some?
    ensures
      var slot := p.slots[i];
      DecodeFields(fields, EncodeItems(fields[i], items, true).value + rest, p, seen) ==
      if items == [] || |slot.items| + |items| <= fields[i].arraySize then
        DecodeFields(fields, rest, Put(fields, p, i, slot.(items := slot.items + items)), seen)
      else Fail
    decreases |items|
  {
    var f, slot := fields[i], p.slots[i];
    assert WfField(f);
    hide EncodeValue, DecodeValue, DecodeFields, EncodeItems, EncodeTag, WfField, WfFields, TagFor, ValuePrefixes;
    EachStep(f, items);
    if items == [] {
      assert slot.items + items == slot.items;
      assert p.slots[i := p.slots[i]] == p.slots;
      assert [] + rest == rest;
    } else {
      var v := items[0];
      assert ReadsBack(f, v);
      var slot' := slot.(items := slot.items + [v]);
      EachMerges(fields, i, items[1..], rest, Put(fields, p, i, slot'), seen);
      var later := EncodeItems(f, items[1..], true).value;
      OneItemMerges(fields, i, v, later + rest, p, seen);
      Regroup(TagFor(f) + EncodeValue(f, v).value, later, rest);
      Uncons(slot.items, items);
      PutTwice(fields, p, i, slot', slot.(items := slot.items + items));
    }
  }

  // ----- one field, all fields -----

  lemma SingleMerges(fields: seq<Field>, m: Msg, i: nat, rest: Bytes, p: Msg, seen: set<nat>)
    requires WfFields(fields) && WfMsg(fields, m) && i < |fields| && |p.slots| == |fields|
    requires fields[i].rule != Repeated && Written(fields, m, i)
    requires FieldPrefixes(fields[i], m.slots[SlotOf(fields, i)])
    ensures
      var f, j := fields[i], SlotOf(fields, i);
      var enc := EncodeField(f, m.slots[j]);
      && enc.Some?
      && DecodeFields(fields, enc.value + rest, p, seen) ==
         if SlotMergeable(f, p.slots[j], m.slots[j]) then
           DecodeFields(fields, rest, Put(fields, p, i, MergeSlot(f, p.slots[j], m.slots[j])), See(fields, seen, i))
         else Fail
    decreases m, |fields| - i, -1
  {
    hide EncodeFrom, DecodeFields, EncodeValue, DecodeValue, EncodeTag, ValuePrefixes, ValueMergeable, MergeValue;
    var f, j := fields[i], SlotOf(fields, i);
    var slot := m.slots[j];
    assert WfField(f);
    PresentIsWf(fields, m, i);
    hide WfField, WfFields, WfValue, WfMsg;
    var v := slot.items[0];
    assert slot == Slot(slot.which, [v]);
    assert ValuePrefixes(f, v);
    var prior := if f.rule == Oneof then None else First(p.slots[j]);
    ValueMerges(f, v, prior, rest);
    if f.rule == Oneof {
      ValueRoundTrip(f, v);
      assert ReadsBefore(f, v, rest);
    }
    var body := EncodeValue(f, v).value;
    Regroup(TagFor(f), body, rest);
    FieldIsMet(fields, i, WireType(f.ltype), body + rest, p, seen);
  }

  lemma RepeatedMerges(fields: seq<Field>, m: Msg, i: nat, rest: Bytes, p: Msg, seen: set<nat>)
    requires WfFields(fields) && WfMsg(fields, m) && i < |fields| && |p.slots| == |fields|
    requires fields[i].rule == Repeated && FieldPrefixes(fields[i], m.slots[i]) && Written(fields, m, i)
    ensures
      var f := fields[i];
      var enc := EncodeField(f, m.slots[i]);
      && enc.Some?
      && DecodeFields(fields, enc.value + rest, p, seen) ==
         if SlotMergeable(f, p.slots[i], m.slots[i]) then
           DecodeFields(fields, rest, Put(fields, p, i, MergeSlot(f, p.slots[i], m.slots[i])), See(fields, seen, i))
         else Fail
  {
    hide EncodeFrom, DecodeFields, EncodeValue, DecodeValue, EncodeTag, EncodeItems, DecodeItems, DecodeString, ValuePrefixes;
    var f, slot := fields[i], m.slots[i];
    assert WfField(f);
    assert WfSlot(fields, i, slot);
    hide WfField, WfFields, WfValue, WfMsg;
    if Packable(f.ltype) {
      ItemsMerge(f, slot.items, p.slots[i].items);
      var inner := EncodeItems(f, slot.items, false).value;
      var body := Varints.Varint(|inner|) + inner;
      PrefixedReads(inner, rest);
      Regroup(EncodeTag(WT_STRING, f.tag), body, rest);
      FieldIsMet(fields, i, WT_STRING, body + rest, p, seen);
    } else {
      forall k | 0 <= k < |slot.items|
        ensures ReadsBack(f, slot.items[k])
      {
        ValueRoundTrip(f, slot.items[k]);
      }
      EachMerges(fields, i, slot.items, rest, p, seen);
    }
  }

  lemma FieldMerges(fields: seq<Field>, m: Msg, i: nat, rest: Bytes, p: Msg, seen: set<nat>)
    requires WfFields(fields) && WfMsg(fields, m) && i < |fields| && |p.slots| == |fields|
    requires FieldPrefixes(fields[i], m.slots[SlotOf(fields, i)])
    ensures
      var f, j := fields[i], SlotOf(fields, i);
      var enc := EncodeField(f, m.slots[j]);
      && enc.Some?
      && DecodeFields(fields, enc.value + rest, p, seen) ==
         if !Written(fields, m, i) then DecodeFields(fields, rest, p, See(fields, seen, i))
         else if SlotMergeable(f, p.slots[j], m.slots[j]) then
           DecodeFields(fields, rest, Put(fields, p, i, MergeSlot(f, p.slots[j], m.slots[j])), See(fields, seen, i))
         else Fail
    decreases m, |fields| - i, 0
  {
    hide EncodeFrom, DecodeFields, WfValue, ValuePrefixes, ValueMergeable, MergeSlot, SlotMergeable;
    var f, j := fields[i], SlotOf(fields, i);
    assert WfSlot(fields, i, m.slots[i]) && WfSlot(fields, j, m.slots[j]);
    if Written(fields, m, i) {
      if f.rule == Repeated {
        RepeatedMerges(fields, m, i, rest, p, seen);
      } else {
        SingleMerges(fields, m, i, rest, p, seen);
      }
    } else {
      assert [] + rest == rest;
    }
  }

  lemma {:induction false} FieldsMerge(fields: seq<Field>, m: Msg, i: nat, p: Msg, seen: set<nat>, rest: Bytes)
    requires WfFields(fields) && WfMsg(fields, m) && MsgPrefixes(fields, m) && i <= |fields| && |p.slots| == |fields|
    requires |m.slots| == |fields|
    ensures EncodeFrom(fields, m, i).Some?
    ensures DecodeFields(fields, EncodeFrom(fields, m, i).value + rest, Upto(fields, p, m, i), seen) ==
            if FitsFrom(fields, p, m, i) then
              DecodeFields(fields, rest, Upto(fields, p, m, |fields|), SeeFrom(fields, seen, i))
            else Fail
    decreases m, |fields| - i, 1
  {
    hide EncodeField, EncodeFrom, DecodeFields, WfFields, WfMsg, FieldPrefixes, MsgPrefixes, Upto, SeeFrom, SlotMergeable, MergeSlot;
    EncodeFromOpen(fields, m, i);
    SeeFromOpen(fields, seen, i);
    if i == |fields| {
      assert [] + rest == rest;
    } else {
      FieldsMerge(fields, m, i + 1, p, See(fields, seen, i), rest);
      PrefixesAt(fields, m, i);
      var q, later := Upto(fields, p, m, i), EncodeFrom(fields, m, i + 1).value;
      FieldMerges(fields, m, i, later + rest, q, seen);
      UptoOpen(fields, p, m, i);
      FitsStep(fields, p, m, i);
      assert EncodeFrom(fields, m, i).value + rest
          == EncodeField(fields[i], m.slots[SlotOf(fields, i)]).value + (later + rest);
    }
  }

  lemma SeeFromOpen(fields: seq<Field>, seen: set<nat>, i: nat)
    requires i <= |fields|
    ensures SeeFrom(fields, seen, i) == if i == |fields| then seen else SeeFrom(fields, See(fields, seen, i), i + 1)
  {
  }

  lemma UptoOpen(fields: seq<Field>, p: Msg, m: Msg, i: nat)
    requires i < |fields| && |p.slots| == |fields| == |m.slots|
    ensures
      var q, j := Upto(fields, p, m, i), SlotOf(fields, i);
      Upto(fields, p, m, i + 1) ==
      if Written(fields, m, i) then Put(fields, q, i, MergeSlot(fields[i], q.slots[j], m.slots[j])) else q
  {
    hide MergeSlot;
  }

  /** Whether field `i` fits does not depend on the fields before it. */
  lemma FitsStep(fields: seq<Field>, p: Msg, m: Msg, i: nat)
    requires i < |fields| && |p.slots| == |fields| == |m.slots|
    ensures
      var q, j := Upto(fields, p, m, i), SlotOf(fields, i);
      FitsFrom(fields, p, m, i) <==>
      (Written(fields, m, i) ==> SlotMergeable(fields[i], q.slots[j], m.slots[j])) && FitsFrom(fields, p, m, i + 1)
  {
    var j := SlotOf(fields, i);
    if fields[i].rule != Oneof {
      NotYetMerged(fields, p, m, i, i);
    }
    hide Upto, ValueMergeable, Written;
    assert FieldFits(fields, p, m, i) <==>
           (Written(fields, m, i) ==> SlotMergeable(fields[i], Upto(fields, p, m, i).slots[j], m.slots[j]));
  }

  /** Decoding the bytes of a well-formed message into any message merges the two, if the arrays have room for
      all items, and fails otherwise; reading goes on behind them. */
  lemma MessageMerges(fields: seq<Field>, m: Msg, p: Msg, seen: set<nat>, rest: Bytes)
    requires WfFields(fields) && WfMsg(fields, m) && MsgPrefixes(fields, m)
    requires |p.slots| == |fields| == |m.slots|
    ensures Encode(fields, m).Some?
    ensures DecodeFields(fields, Encode(fields, m).value + rest, p, seen) ==
            if Mergeable(fields, p, m) then
              DecodeFields(fields, rest, Merge(fields, p, m), SeeFrom(fields, seen, 0))
            else Fail
    decreases m, |fields| + 1
  {
    hide EncodeFrom, DecodeFields, WfFields, WfMsg, MsgPrefixes, Merge, Mergeable, SeeFrom, FitsFrom;
    FieldsMerge(fields, m, 0, p, seen, rest);
    AllMerged(fields, p, m);
    NothingMerged(fields, p, m);
  }

  lemma NothingMerged(fields: seq<Field>, p: Msg, m: Msg)
    requires |p.slots| == |fields| == |m.slots|
    ensures Upto(fields, p, m, 0) == p
  {
  }

  // ----- what follows -----

  /** The bytes of two messages, one behind the other, are the bytes of their merger. */
  lemma ConcatenationMerges(fields: seq<Field>, a: Msg, b: Msg)
    requires WfFields(fields) && WfMsg(fields, a) && WfMsg(fields, b)
    requires MsgPrefixes(fields, a) && MsgPrefixes(fields, b)
    ensures |a.slots| == |fields| == |b.slots|
    ensures Encode(fields, a).Some? && Encode(fields, b).Some?
    ensures Decode(fields, Encode(fields, a).value + Encode(fields, b).value) ==
            if Mergeable(fields, a, b) then Ok(Merge(fields, a, b), []) else Fail
  {
    hide EncodeFrom, DecodeFields, WfFields, WfMsg, MsgPrefixes, Merge, Mergeable, SeeFrom;
    SlotsMatch(fields, a);
    SlotsMatch(fields, b);
    MessageRoundTrip(fields, b);
    var bytes := Encode(fields, b).value;
    MessageMerges(fields, a, Empty(fields), {}, bytes);
    MergeIntoEmpty(fields, a);
    MessageMerges(fields, b, a, SeeFrom(fields, {}, 0), []);
    assert bytes + [] == bytes;
    if Mergeable(fields, a, b) {
      AllThere(fields, Merge(fields, a, b), SeeFrom(fields, {}, 0));
    }
  }

  /** Merging into nothing is the round trip once more. */
  lemma MergeIntoEmpty(fields: seq<Field>, m: Msg)
    requires WfFields(fields) && WfMsg(fields, m) && MsgPrefixes(fields, m) && |m.slots| == |fields|
    ensures Mergeable(fields, Empty(fields), m) && Merge(fields, Empty(fields), m) == m
  {
    hide EncodeFrom, DecodeFields, WfFields, WfMsg, MsgPrefixes, Merge, Mergeable, SeeFrom;
    MessageMerges(fields, m, Empty(fields), {}, []);
    MessageRoundTrip(fields, m);
    var bytes := Encode(fields, m).value;
    assert bytes + [] == bytes;
    if Mergeable(fields, Empty(fields), m) {
      AllThere(fields, Merge(fields, Empty(fields), m), {});
    }
  }

  /** What is behind the message stays for the next one; a zero byte ends the message early. */
  lemma MessageThenZero(fields: seq<Field>, m: Msg, rest: Bytes)
    requires WfFields(fields) && WfMsg(fields, m) && MsgPrefixes(fields, m)
    ensures Encode(fields, m).Some?
    ensures Decode(fields, Encode(fields, m).value + ([0] + rest)) == Ok(m, rest)
  {
    hide EncodeFrom, DecodeFields, WfFields, WfMsg, MsgPrefixes, Merge, Mergeable, SeeFrom;
    SlotsMatch(fields, m);
    MessageMerges(fields, m, Empty(fields), {}, [0] + rest);
    MergeIntoEmpty(fields, m);
    ZeroEnds(fields, m, SeeFrom(fields, {}, 0), rest);
    SeenFrom(fields, {}, 0);
    EverythingSeen(fields);
  }

  lemma EverythingSeen(fields: seq<Field>)
    ensures AllSeen(fields, SeeFrom(fields, {}, 0))
  {
    SeenFrom(fields, {}, 0);
  }

  lemma ZeroEnds(fields: seq<Field>, m: Msg, seen: set<nat>, rest: Bytes)
    requires |m.slots| == |fields|
    ensures DecodeFields(fields, [0] + rest, m, seen) == if AllSeen(fields, seen) then Ok(m, rest) else Fail
  {
    hide AllSeen;
    var s := [0] + rest;
    assert s[0] == 0 && s[1..] == rest;
    Varints.ParseStep(s, 5);
    assert DecodeTag(s) == End(rest);
  }

  // ----- fields that occur twice -----

  /** A single value of a field met on the wire. */
  lemma SingleIsMet(fields: seq<Field>, i: nat, v: Value, rest: Bytes, p: Msg, seen: set<nat>)
    requires WfFields(fields) && i < |fields| && |p.slots| == |fields| && fields[i].rule != Repeated
    requires WfValue(fields[i], v) && ValuePrefixes(fields[i], v)
    requires fields[i].rule == Oneof || fields[i].ltype != Submessage
    ensures EncodeValue(fields[i], v).Some?
    ensures
      var f := fields[i];
      DecodeFields(fields, TagFor(f) + EncodeValue(f, v).value + rest, p, seen) ==
      DecodeFields(fields, rest, Put(fields, p, i, Slot(if f.rule == Oneof then f.tag else 0, [v])), See(fields, seen, i))
  {
    hide EncodeFrom, DecodeFields, EncodeValue, DecodeValue, EncodeTag, ValuePrefixes, WfValue;
    var f := fields[i];
    assert WfField(f);
    hide WfField, WfFields;
    ValueRoundTrip(f, v);
    assert ReadsBefore(f, v, rest);
    var body := EncodeValue(f, v).value;
    if f.ltype != Submessage {
      PriorMatters(f, body + rest, First(p.slots[SlotOf(fields, i)]));
    }
    Regroup(TagFor(f), body, rest);
    FieldIsMet(fields, i, WireType(f.ltype), body + rest, p, seen);
  }

  /** Of two occurrences of a required or optional field that is not a message, the first leaves no trace. */
  lemma LastOccurrenceWins(fields: seq<Field>, i: nat, v: Value, w: Value, rest: Bytes, p: Msg, seen: set<nat>)
    requires WfFields(fields) && i < |fields| && |p.slots| == |fields|
    requires (fields[i].rule == Required || fields[i].rule == Optional) && fields[i].ltype != Submessage
    requires WfValue(fields[i], v) && WfValue(fields[i], w) && ValuePrefixes(fields[i], v) && ValuePrefixes(fields[i], w)
    ensures EncodeValue(fields[i], v).Some? && EncodeValue(fields[i], w).Some?
    ensures
      var f := fields[i];
      var first, second := TagFor(f) + EncodeValue(f, v).value, TagFor(f) + EncodeValue(f, w).value;
      DecodeFields(fields, first + (second + rest), p, seen) == DecodeFields(fields, second + rest, p, seen)
  {
    hide EncodeFrom, DecodeFields, EncodeValue, EncodeTag, TagFor, ValuePrefixes, WfValue, WfFields, SlotOf;
    var f := fields[i];
    ValueRoundTrip(f, w) by { assert WfField(f) by { FieldIsWf(fields, i); } }
    var second := TagFor(f) + EncodeValue(f, w).value;
    SingleIsMet(fields, i, v, second + rest, p, seen);
    SingleIsMet(fields, i, w, rest, p, seen);
    SingleIsMet(fields, i, w, rest, Put(fields, p, i, Slot(0, [v])), See(fields, seen, i));
    PutTwice(fields, p, i, Slot(0, [v]), Slot(0, [w]));
    assert See(fields, See(fields, seen, i), i) == See(fields, seen, i);
  }

  lemma FieldIsWf(fields: seq<Field>, i: nat)
    requires WfFields(fields) && i < |fields|
    ensures WfField(fields[i])
  {
  }

  /** Of two members of one oneof, or two occurrences of one of them, nested messages included, the first
      leaves no trace. */
  lemma LastMemberWins(fields: seq<Field>, i: nat, k: nat, v: Value, w: Value, rest: Bytes, p: Msg, seen: set<nat>)
    requires WfFields(fields) && i < |fields| && k < |fields| && |p.slots| == |fields|
    requires fields[i].rule == Oneof && fields[k].rule == Oneof && SlotOf(fields, i) == SlotOf(fields, k)
    requires WfValue(fields[i], v) && WfValue(fields[k], w) && ValuePrefixes(fields[i], v) && ValuePrefixes(fields[k], w)
    ensures EncodeValue(fields[i], v).Some? && EncodeValue(fields[k], w).Some?
    ensures
      var first, second := TagFor(fields[i]) + EncodeValue(fields[i], v).value, TagFor(fields[k]) + EncodeValue(fields[k], w).value;
      DecodeFields(fields, first + (second + rest), p, seen) == DecodeFields(fields, second + rest, p, seen)
  {
    hide EncodeFrom, DecodeFields, EncodeValue, EncodeTag, TagFor, ValuePrefixes, WfValue, WfFields, SlotOf;
    ValueRoundTrip(fields[k], w) by { FieldIsWf(fields, k); }
    var second := TagFor(fields[k]) + EncodeValue(fields[k], w).value;
    var a, b := Slot(fields[i].tag, [v]), Slot(fields[k].tag, [w]);
    SingleIsMet(fields, i, v, second + rest, p, seen);
    SingleIsMet(fields, k, w, rest, p, seen);
    SingleIsMet(fields, k, w, rest, Put(fields, p, i, a), See(fields, seen, i));
    assert Put(fields, Put(fields, p, i, a), k, b) == Put(fields, p, k, b);
  }

  /** A nested message that occurs twice is merged. */
  lemma NestedMessagesMerge(fields: seq<Field>, i: nat, a: Msg, b: Msg, rest: Bytes, p: Msg, seen: set<nat>)
    requires WfFields(fields) && i < |fields| && |p.slots| == |fields|
    requires (fields[i].rule == Required || fields[i].rule == Optional) && fields[i].ltype == Submessage
    requires WfValue(fields[i], Sub(a)) && WfValue(fields[i], Sub(b)) && ValuePrefixes(fields[i], Sub(a)) && ValuePrefixes(fields[i], Sub(b))
    requires p.slots[i] == NOTHING
    ensures EncodeValue(fields[i], Sub(a)).Some? && EncodeValue(fields[i], Sub(b)).Some?
    ensures |a.slots| == |fields[i].sub| == |b.slots|
    ensures
      var f := fields[i];
      var first, second := TagFor(f) + EncodeValue(f, Sub(a)).value, TagFor(f) + EncodeValue(f, Sub(b)).value;
      DecodeFields(fields, first + (second + rest), p, seen) ==
      if Mergeable(f.sub, a, b) then
        DecodeFields(fields, rest, Put(fields, p, i, Slot(0, [Sub(Merge(f.sub, a, b))])), See(fields, seen, i))
      else Fail
  {
    hide EncodeFrom, DecodeFields, EncodeValue, DecodeValue, EncodeTag, TagFor, MsgPrefixes, WfMsg, Merge, Mergeable;
    var f := fields[i];
    FieldIsWf(fields, i);
    SlotsMatch(f.sub, a);
    SlotsMatch(f.sub, b);
    MergeIntoEmpty(f.sub, a);
    ValueMerges(f, Sub(b), None, rest);
    var second := TagFor(f) + EncodeValue(f, Sub(b)).value;
    SubIsMet(fields, i, a, second + rest, p, seen);
    SubIsMet(fields, i, b, rest, Put(fields, p, i, Slot(0, [Sub(a)])), See(fields, seen, i));
    PutTwice(fields, p, i, Slot(0, [Sub(a)]), Slot(0, [Sub(Merge(f.sub, a, b))]));
    assert See(fields, See(fields, seen, i), i) == See(fields, seen, i);
  }

  lemma SubIsMet(fields: seq<Field>, i: nat, m: Msg, rest: Bytes, p: Msg, seen: set<nat>)
    requires WfFields(fields) && i < |fields| && |p.slots| == |fields|
    requires (fields[i].rule == Required || fields[i].rule == Optional) && fields[i].ltype == Submessage
    requires WfValue(fields[i], Sub(m)) && ValuePrefixes(fields[i], Sub(m)) && |m.slots| == |fields[i].sub|
    ensures EncodeValue(fields[i], Sub(m)).Some?
    ensures
      var f := fields[i];
      var base := Base(f, First(p.slots[i]));
      DecodeFields(fields, TagFor(f) + EncodeValue(f, Sub(m)).value + rest, p, seen) ==
      if Mergeable(f.sub, base, m) then
        DecodeFields(fields, rest, Put(fields, p, i, Slot(0, [Sub(Merge(f.sub, base, m))])), See(fields, seen, i))
      else Fail
  {
    hide EncodeFrom, DecodeFields, EncodeValue, DecodeValue, EncodeTag, MsgPrefixes, WfMsg, Merge, Mergeable, ValuePrefixes, Base;
    var f := fields[i];
    FieldIsWf(fields, i);
    hide WfField, WfFields, WfValue;
    ValueMerges(f, Sub(m), First(p.slots[i]), rest);
    var body := EncodeValue(f, Sub(m)).value;
    Regroup(TagFor(f), body, rest);
    FieldIsMet(fields, i, WireType(f.ltype), body + rest, p, seen);
  }

  /** What a merged member holds: the first message's contents where the second has none; the second's, for a
      single value that is no message, and for a oneof; both, one behind the other, for an array. */
  lemma MergedMember(fields: seq<Field>, a: Msg, b: Msg, j: nat)
    requires WfMsg(fields, b) && |a.slots| == |fields| == |b.slots| && j < |fields|
    ensures
      var f, r := fields[j], Merge(fields, a, b).slots[j];
      && (b.slots[j].items == [] ==> r == a.slots[j])
      && (b.slots[j].items != [] && f.rule == Repeated ==> r.items == a.slots[j].items + b.slots[j].items)
      && (b.slots[j].items != [] && (f.rule == Oneof || (f.rule != Repeated && f.ltype != Submessage)) ==> r == b.slots[j])
  {
    hide MergeValue, Merge, MergeSlot, WfMsg;
    MergeAt(fields, a, b, j);
    MergeSlotOpen(fields[j], a.slots[j], b.slots[j]);
    if b.slots[j].items != [] && (fields[j].rule == Required || fields[j].rule == Optional) {
      OneItem(fields, b, j);
    }
  }

  lemma MergeAt(fields: seq<Field>, a: Msg, b: Msg, j: nat)
    requires |a.slots| == |fields| == |b.slots| && j < |fields|
    ensures Merge(fields, a, b).slots[j] == MergeSlot(fields[j], a.slots[j], b.slots[j])
  {
    hide MergeSlot;
  }

  lemma MergeSlotOpen(f: Field, p: Slot, s: Slot)
    ensures s.items == [] ==> MergeSlot(f, p, s) == p
    ensures s.items != [] && f.rule == Repeated ==> MergeSlot(f, p, s).items == p.items + s.items
    ensures s.items != [] && f.rule == Oneof ==> MergeSlot(f, p, s) == s
    ensures s.items != [] && f.rule != Oneof && f.rule != Repeated && f.ltype != Submessage ==>
              MergeSlot(f, p, s) == Slot(0, [s.items[0]])
  {
    hide Merge;
  }

  lemma OneItem(fields: seq<Field>, b: Msg, j: nat)
    requires WfMsg(fields, b) && j < |fields| == |b.slots| && b.slots[j].items != []
    requires fields[j].rule == Required || fields[j].rule == Optional
    ensures b.slots[j] == Slot(0, [b.slots[j].items[0]])
  {
    assert WfSlot(fields, j, b.slots[j]);
    hide WfValue;
  }

  /** The bytes 08 05 08 07 give 7 to a field numbered 1. */
  lemma SecondValueWins()
    ensures
      var f := Field(1, UVarint, Optional, Static, 0, -4, 4, 0, []);
      Decode([f], [8, 5, 8, 7]) == Ok(Msg([Slot(0, [Int(7)])]), [])
  {
    hide Varints.Varint, DecodeFields;
    var f := Field(1, UVarint, Optional, Static, 0, -4, 4, 0, []);
    Varints.VarintOpen(8);
    Varints.VarintOpen(5);
    Varints.VarintOpen(7);
    var fields, p := [f], Empty([f]);
    assert WfField(f) && WfFields(fields);
    LastOccurrenceWins(fields, 0, Int(5), Int(7), [], p, {});
    SingleIsMet(fields, 0, Int(7), [], p, {});
    assert TagFor(f) == [8];
    assert [8] + [5] + ([8] + [7] + []) == [8, 5, 8, 7] && [8] + [7] + [] == [8, 7];
    assert Put(fields, p, 0, Slot(0, [Int(7)])).slots == [Slot(0, [Int(7)])];
    NothingIsRequired(fields, Msg([Slot(0, [Int(7)])]), {});
  }

  lemma NothingIsRequired(fields: seq<Field>, m: Msg, seen: set<nat>)
    requires |m.slots| == |fields| && forall i :: 0 <= i < |fields| ==> fields[i].rule != Required
    ensures DecodeFields(fields, [], m, seen) == Ok(m, [])
  {
  }
}
