/**
 The encoder with its output streams.  Nested messages and packed arrays are encoded twice: once into a
 sizing stream that only counts, then for real behind the length prefix.  Every method below writes
 exactly what the encoding function says, fails exactly when there is no encoding or no room for it, and
 counts the same in both modes.
 */
module PbEncoder {
  import opened ByteStrings
  import opened Varints
  import opened PbIntegers
  import opened PbFields
  import opened PbMessages

  class OStream {
    const sizing: bool          // no callback: counts only
    var out: Bytes              // the buffer, as far as it has been written
    var bytesWritten: nat
    const maxSize: nat

    /** A stream without a callback, for sizing. */
    constructor Sizing()
      ensures sizing && bytesWritten == 0 && out == []
    {
      sizing := true;
      out := [];
      bytesWritten := 0;
      maxSize := 0;
    }

    /** A stream that writes behind what is already in the buffer. */
    constructor Buffer(out: Bytes, maxSize: nat)
      ensures !sizing && bytesWritten == 0 && this.out == out && this.maxSize == maxSize
    {
      sizing := false;
      this.out := out;
      bytesWritten := 0;
      this.maxSize := maxSize;
    }

    ghost function State(): Snapshot
      reads this
    {
      Snapshot(sizing, out, bytesWritten, maxSize)
    }

    method Write(buf: Bytes) returns (ok: bool)
      requires Sane(State())
      modifies this
      ensures Emits(old(State()), State(), Some(buf), ok)
    {
      if !sizing {
        if bytesWritten + |buf| > maxSize {
          return false;
        }
        out := out + buf;
      }
      bytesWritten := bytesWritten + |buf|;
      return true;
    }

    /** `pb_write` with no data, in a sizing stream. */
    method Count(n: nat)
      requires sizing
      modifies this
      ensures State() == old(State()).(bytesWritten := old(bytesWritten) + n)
    {
      bytesWritten := bytesWritten + n;
    }
  }

  datatype Snapshot = Snapshot(sizing: bool, out: Bytes, bytesWritten: nat, maxSize: nat)

  /** There is room for `n` more bytes; a sizing stream always has it. */
  predicate Room(s: Snapshot, n: nat) {
    s.sizing || s.bytesWritten + n <= s.maxSize
  }

  /** A writing stream has not gone past its end. */
  predicate Sane(s: Snapshot) {
    Room(s, 0)
  }

  /** Success writes exactly `enc` (or counts its length); failure means that there is no encoding, or
      that it does not fit. */
  predicate Emits(s: Snapshot, t: Snapshot, enc: Option<Bytes>, ok: bool) {
    && t.sizing == s.sizing && t.maxSize == s.maxSize && Sane(t)
    && (ok <==> enc.Some? && Room(s, |enc.value|))
    && (ok ==>
          && t.bytesWritten == s.bytesWritten + |enc.value|
          && t.out == if s.sizing then s.out else s.out + enc.value)
  }

  /** Writing one piece behind the other. */
  lemma EmitsBoth(s: Snapshot, t: Snapshot, u: Snapshot, a: Option<Bytes>, b: Option<Bytes>, ok: bool)
    requires Emits(s, t, a, true) && Emits(t, u, b, ok)
    ensures Emits(s, u, Joined(a, b), ok)
  {
  }

  /** When the first piece fails, so does the whole. */
  lemma EmitsFirstFails(s: Snapshot, t: Snapshot, a: Option<Bytes>, b: Option<Bytes>)
    requires Emits(s, t, a, false)
    ensures Emits(s, t, Joined(a, b), false)
  {
  }

  lemma EmitsSecondMissing(s: Snapshot, t: Snapshot, a: Option<Bytes>)
    requires t.sizing == s.sizing && t.maxSize == s.maxSize && Sane(t)
    ensures Emits(s, t, Joined(a, None), false)
  {
  }

  method WriteVarint(stream: OStream, value: uint64) returns (ok: bool)
    requires Sane(stream.State())
    modifies stream
    ensures Emits(old(stream.State()), stream.State(), Some(Varints.Varint(value)), ok)
  {
    var buffer := EncodeVarint(value);
    ok := stream.Write(buffer);
  }

  method WriteTag(stream: OStream, wireType: nat, number: uint32) returns (ok: bool)
    requires Sane(stream.State())
    requires wireType < 8
    modifies stream
    ensures Emits(old(stream.State()), stream.State(), Some(EncodeTag(wireType, number)), ok)
  {
    ok := WriteVarint(stream, number * 8 + wireType);
  }

  method WriteString(stream: OStream, b: Bytes) returns (ok: bool)
    requires Sane(stream.State())
    requires |b| < TWO_64
    modifies stream
    ensures Emits(old(stream.State()), stream.State(), Prefixed(Some(b)), ok)
  {
    hide Varints.Varint;
    ghost var s := stream.State();
    ok := WriteVarint(stream, |b|);
    ghost var t := stream.State();
    if !ok {
      EmitsFirstFails(s, t, Some(Varints.Varint(|b|)), Some(b));
      return;
    }
    ok := stream.Write(b);
    EmitsBoth(s, t, stream.State(), Some(Varints.Varint(|b|)), Some(b), ok);
  }

  /** Sizes fit the 64-bit lengths that prefixes are made of. */
  ghost predicate Lengths(enc: Option<Bytes>) {
    enc.Some? ==> |enc.value| < TWO_64
  }

  /** The member can hold the value: the type and range of its C type; all lengths are size_t. */
  ghost predicate ValueFits(f: Field, v: Value)
    decreases v
  {
    && f.tag < TWO_32 && Lengths(EncodeValue(f, v))
    && match f.ltype
       case Varint => v.Int? && -TWO_63 <= v.i < TWO_63
       case SVarint => v.Int? && -TWO_63 <= v.i < TWO_63
       case UVarint => v.Int? && 0 <= v.i < TWO_64
       case Fixed32 => v.Int? && 0 <= v.i < TWO_32
       case Fixed64 => v.Int? && 0 <= v.i < TWO_64
       case BytesType => v.Blob? && |v.bytes| < TWO_64
       case StringType => v.Blob? && |v.bytes| < TWO_64
       case FixedLengthBytes => v.Blob? && |v.bytes| == f.dataSize < TWO_64
       case Submessage => v.Sub? && MsgFits(f.sub, v.m)
       case Extension => false
  }

  /** What the structure holds for a field: its items, unless another member of its oneof is active. */
  ghost predicate SlotFits(f: Field, slot: Slot)
    decreases slot
  {
    && f.alloc == Static && f.tag < TWO_32
    && (f.rule == Required ==> slot.items != [])
    && (f.rule != Oneof || slot.which == f.tag ==>
          forall k :: 0 <= k < |slot.items| ==> ValueFits(f, slot.items[k]))
    && (f.rule == Repeated && Packable(f.ltype) ==> Lengths(EncodeItems(f, slot.items, false)))
  }

  ghost predicate MsgFits(fields: seq<Field>, m: Msg)
    decreases m
  {
    && |m.slots| == |fields| && Lengths(EncodeFrom(fields, m, 0))
    && forall i: nat :: i < |fields| ==> SlotFits(fields[i], m.slots[SlotOf(fields, i)])
  }

  method EncodeOne(stream: OStream, f: Field, v: Value) returns (ok: bool)
    requires Sane(stream.State()) && ValueFits(f, v)
    modifies stream
    ensures Emits(old(stream.State()), stream.State(), EncodeValue(f, v), ok)
    decreases v, 0
  {
    hide Varints.Varint, EncodeFrom, LittleEndian, ZigZag, AsUint64, Emits;
    ghost var s := stream.State();
    if (f.ltype == LType.Varint || f.ltype == UVarint || f.ltype == SVarint) && !IntSize(f.dataSize) {
      NoEncoding(s);
      return false;
    }
    match f.ltype
    case Varint => ok := WriteVarint(stream, AsUint64(v.i));
    case UVarint => ok := WriteVarint(stream, v.i);
    case SVarint => ok := WriteVarint(stream, ZigZag(v.i));
    case Fixed32 => ok := stream.Write(LittleEndian(v.i, 4));
    case Fixed64 => ok := stream.Write(LittleEndian(v.i, 8));
    case BytesType =>
      if |v.bytes| + BYTES_HEADER > f.dataSize {
        NoEncoding(s);
        return false;
      }
      ok := WriteString(stream, v.bytes);
    case StringType =>
      ok := WriteString(stream, if |v.bytes| <= f.dataSize then v.bytes else v.bytes[..f.dataSize]);
    case FixedLengthBytes => ok := WriteString(stream, v.bytes);
    case Submessage => ok := EncodeSubmessage(stream, f.sub, v.m);
  }

  lemma NoEncoding(s: Snapshot)
    requires Sane(s)
    ensures Emits(s, s, None, false)
  {
  }

  /** Two passes: the first one counts, the second writes into a substream of exactly that size.  The
      second pass can neither run out of room nor come out at another size. */
  method EncodeSubmessage(stream: OStream, fields: seq<Field>, m: Msg) returns (ok: bool)
    requires Sane(stream.State())
    requires MsgFits(fields, m)
    modifies stream
    ensures Emits(old(stream.State()), stream.State(), Prefixed(EncodeFrom(fields, m, 0)), ok)
    decreases m, 2
  {
    hide Varints.Varint, EncodeFrom;
    ghost var s := stream.State();
    ghost var enc := EncodeFrom(fields, m, 0);
    var sub := new OStream.Sizing();
    ok := EncodeMessage(sub, fields, m);
    if !ok {
      return;
    }
    var size := sub.bytesWritten;
    assert size == |enc.value|;
    ok := WriteVarint(stream, size);
    if !ok {
      return;
    }
    if stream.sizing {
      stream.Count(size);
      return true;
    }
    if stream.bytesWritten + size > stream.maxSize {
      return false;
    }
    var writing := new OStream.Buffer(stream.out, size);
    var status := EncodeMessage(writing, fields, m);
    stream.bytesWritten := stream.bytesWritten + writing.bytesWritten;
    stream.out := writing.out;
    assert status && writing.bytesWritten == size;
    return status;
  }

  /** The loops over the items of an array, packed or tagged one by one. */
  method EncodeAll(stream: OStream, f: Field, items: seq<Value>, tagged: bool) returns (ok: bool)
    requires Sane(stream.State())
    requires forall k :: 0 <= k < |items| ==> ValueFits(f, items[k])
    modifies stream
    ensures Emits(old(stream.State()), stream.State(), EncodeItems(f, items, tagged), ok)
    decreases items, 0
  {
    hide EncodeItem, EncodeItems, ValueFits, Emits, EncodedUpTo;
    ghost var s := stream.State();
    NothingYet(f, items, tagged, s);
    for i := 0 to |items|
      invariant Emits(s, stream.State(), EncodedUpTo(f, items, i, tagged), true)
    {
      ghost var t := stream.State();
      SaneAfter(s, t, EncodedUpTo(f, items, i, tagged), true);
      ok := EncodeTagged(stream, f, items[i], tagged);
      ItemsSplit(f, items, i, tagged);
      if !ok {
        ItemFails(f, items, i, tagged, s, t, stream.State());
        return;
      }
      EmitsBoth(s, t, stream.State(), EncodedUpTo(f, items, i, tagged), EncodeItem(f, items[i], tagged), true);
    }
    AllEncoded(f, items, tagged);
    ok := true;
  }

  method EncodeTagged(stream: OStream, f: Field, v: Value, tagged: bool) returns (ok: bool)
    requires Sane(stream.State())
    requires ValueFits(f, v)
    modifies stream
    ensures Emits(old(stream.State()), stream.State(), EncodeItem(f, v, tagged), ok)
    decreases v, 1
  {
    assert f.tag < TWO_32;
    hide EncodeValue, ValueFits, Emits, EncodeTag;
    ghost var s := stream.State();
    if tagged {
      ok := WriteTag(stream, WireType(f.ltype), f.tag);
      if !ok {
        EmitsFirstFails(s, stream.State(), Some(TagFor(f)), EncodeValue(f, v));
        return;
      }
      SaneAfter(s, stream.State(), Some(TagFor(f)), true);
    }
    ghost var t := stream.State();
    ok := EncodeOne(stream, f, v);
    if tagged {
      EmitsBoth(s, t, stream.State(), Some(TagFor(f)), EncodeValue(f, v), ok);
    }
  }

  lemma SaneAfter(s: Snapshot, t: Snapshot, enc: Option<Bytes>, ok: bool)
    requires Emits(s, t, enc, ok)
    ensures Sane(t) && t.sizing == s.sizing && t.maxSize == s.maxSize
    ensures ok ==> enc.Some? && t.bytesWritten == s.bytesWritten + |enc.value|
  {
  }

  /** What the loop has written after `i` items. */
  ghost function EncodedUpTo(f: Field, items: seq<Value>, i: nat, tagged: bool): Option<Bytes>
    requires i <= |items|
  {
    EncodeItems(f, items[..i], tagged)
  }

  lemma NothingYet(f: Field, items: seq<Value>, tagged: bool, s: Snapshot)
    requires Sane(s)
    ensures Emits(s, s, EncodedUpTo(f, items, 0, tagged), true)
  {
    assert items[..0] == [];
    assert s.out + [] == s.out;
  }

  lemma AllEncoded(f: Field, items: seq<Value>, tagged: bool)
    ensures EncodedUpTo(f, items, |items|, tagged) == EncodeItems(f, items, tagged)
  {
    assert items[..|items|] == items;
  }

  lemma {:induction false} ItemsConcat(f: Field, a: seq<Value>, b: seq<Value>, tagged: bool)
    ensures EncodeItems(f, a + b, tagged) == Joined(EncodeItems(f, a, tagged), EncodeItems(f, b, tagged))
    decreases |a|
  {
    hide EncodeItem;
    if a == [] {
      assert a + b == b;
      if EncodeItems(f, b, tagged).Some? {
        assert [] + EncodeItems(f, b, tagged).value == EncodeItems(f, b, tagged).value;
      }
    } else {
      assert (a + b)[1..] == a[1..] + b;
      ItemsConcat(f, a[1..], b, tagged);
      JoinedAssociates(EncodeItem(f, a[0], tagged), EncodeItems(f, a[1..], tagged), EncodeItems(f, b, tagged));
    }
  }

  lemma JoinedAssociates(a: Option<Bytes>, b: Option<Bytes>, c: Option<Bytes>)
    ensures Joined(Joined(a, b), c) == Joined(a, Joined(b, c))
  {
    if a.Some? && b.Some? && c.Some? {
      assert a.value + b.value + c.value == a.value + (b.value + c.value);
    }
  }

  lemma OneItem(f: Field, v: Value, tagged: bool)
    ensures EncodeItems(f, [v], tagged) == EncodeItem(f, v, tagged)
  {
    assert [v][1..] == [];
    if EncodeItem(f, v, tagged).Some? {
      assert EncodeItem(f, v, tagged).value + [] == EncodeItem(f, v, tagged).value;
    }
  }

  lemma ItemsSplit(f: Field, items: seq<Value>, i: nat, tagged: bool)
    requires i < |items|
    ensures EncodedUpTo(f, items, i + 1, tagged) == Joined(EncodedUpTo(f, items, i, tagged), EncodeItem(f, items[i], tagged))
    ensures EncodeItems(f, items, tagged) == Joined(EncodedUpTo(f, items, i + 1, tagged), EncodeItems(f, items[i + 1..], tagged))
  {
    hide EncodeItem, EncodeItems;
    assert items[..i + 1] == items[..i] + [items[i]];
    ItemsConcat(f, items[..i], [items[i]], tagged);
    OneItem(f, items[i], tagged);
    assert items == items[..i + 1] + items[i + 1..];
    ItemsConcat(f, items[..i + 1], items[i + 1..], tagged);
  }

  lemma ItemFails(f: Field, items: seq<Value>, i: nat, tagged: bool, s: Snapshot, t: Snapshot, u: Snapshot)
    requires i < |items|
    requires Emits(s, t, EncodedUpTo(f, items, i, tagged), true) && Emits(t, u, EncodeItem(f, items[i], tagged), false)
    ensures Emits(s, u, EncodeItems(f, items, tagged), false)
  {
    hide EncodeItem, EncodeItems, EncodedUpTo;
    ItemsSplit(f, items, i, tagged);
    EmitsBoth(s, t, u, EncodedUpTo(f, items, i, tagged), EncodeItem(f, items[i], tagged), false);
    EmitsFirstFails(s, u, EncodedUpTo(f, items, i + 1, tagged), EncodeItems(f, items[i + 1..], tagged));
  }

  // ----- arrays, fields and messages -----

  /** `encode_array`: the size of a packed array is computed, or counted by a sizing pass. */
  method EncodeArrayTo(stream: OStream, f: Field, items: seq<Value>) returns (ok: bool)
    requires Sane(stream.State()) && f.tag < TWO_32
    requires forall k :: 0 <= k < |items| ==> ValueFits(f, items[k])
    requires Packable(f.ltype) ==> Lengths(EncodeItems(f, items, false))
    modifies stream
    ensures Emits(old(stream.State()), stream.State(), EncodeArray(f, items), ok)
    decreases items, 2
  {
    hide EncodeItems, ValueFits, EncodeTag, Varints.Varint, Emits;
    ghost var s := stream.State();
    if |items| == 0 {
      EmptyEmits(s);
      return true;
    }
    if |items| > f.arraySize {
      NoEncoding(s);
      return false;
    }
    if !Packable(f.ltype) {
      ok := EncodeAll(stream, f, items, true);
      return;
    }
    ok := WriteTag(stream, WT_STRING, f.tag);
    ghost var t := stream.State();
    ghost var tag, enc := Some(EncodeTag(WT_STRING, f.tag)), EncodeItems(f, items, false);
    if !ok {
      EmitsFirstFails(s, t, tag, Prefixed(enc));
      return;
    }
    SaneAfter(s, t, tag, true);
    var size := 0;
    if f.ltype == Fixed32 || f.ltype == Fixed64 {
      size := (if f.ltype == Fixed32 then 4 else 8) * |items|;
      FixedItems(f, items, if f.ltype == Fixed32 then 4 else 8);
    } else {
      var sizing := new OStream.Sizing();
      ghost var empty := sizing.State();
      ok := EncodeAll(sizing, f, items, false);
      if !ok {
        SizingFails(empty, sizing.State(), enc);
        EmitsSecondMissing(s, t, tag);
        return;
      }
      SaneAfter(empty, sizing.State(), enc, true);
      size := sizing.bytesWritten;
    }
    ok := PackedBody(stream, f, items, size);
    EmitsBoth(s, t, stream.State(), tag, Prefixed(enc), ok);
  }

  lemma EmptyEmits(s: Snapshot)
    requires Sane(s)
    ensures Emits(s, s, Some([]), true)
  {
    assert s.out + [] == s.out;
  }

  /** A sizing pass fails only where there is no encoding. */
  lemma SizingFails(s: Snapshot, t: Snapshot, enc: Option<Bytes>)
    requires s.sizing && Emits(s, t, enc, false)
    ensures enc.None?
  {
  }

  lemma {:induction false} FixedItems(f: Field, items: seq<Value>, width: nat)
    requires (f.ltype == Fixed32 && width == 4) || (f.ltype == Fixed64 && width == 8)
    requires forall k :: 0 <= k < |items| ==> ValueFits(f, items[k])
    ensures EncodeItems(f, items, false).Some? && |EncodeItems(f, items, false).value| == width * |items|
    decreases |items|
  {
    if items != [] {
      assert ValueFits(f, items[0]);
      FixedItems(f, items[1..], width);
    }
  }

  /** The length prefix and the data of a packed array. */
  method PackedBody(stream: OStream, f: Field, items: seq<Value>, size: uint64) returns (ok: bool)
    requires Sane(stream.State())
    requires forall k :: 0 <= k < |items| ==> ValueFits(f, items[k])
    requires EncodeItems(f, items, false).Some? && |EncodeItems(f, items, false).value| == size
    modifies stream
    ensures Emits(old(stream.State()), stream.State(), Prefixed(EncodeItems(f, items, false)), ok)
    decreases items, 1
  {
    hide EncodeItems, ValueFits, Varints.Varint;
    ok := WriteVarint(stream, size);
    if !ok {
      return;
    }
    if stream.sizing {
      stream.Count(size);
      return true;
    }
    ok := EncodeAll(stream, f, items, false);
  }

  /** `encode_basic_field`. */
  method EncodeFieldTo(stream: OStream, f: Field, slot: Slot) returns (ok: bool)
    requires Sane(stream.State()) && SlotFits(f, slot)
    modifies stream
    ensures Emits(old(stream.State()), stream.State(), EncodeField(f, slot), ok)
    decreases slot
  {
    hide EncodeValue, EncodeArray, Emits;
    ghost var s := stream.State();
    match f.rule
    case Repeated => ok := EncodeArrayTo(stream, f, slot.items);
    case Required => ok := EncodeTagged(stream, f, slot.items[0], true);
    case Optional =>
      if slot.items != [] {
        ok := EncodeTagged(stream, f, slot.items[0], true);
      } else {
        EmptyEmits(s);
        ok := true;
      }
    case Oneof =>
      if slot.which == f.tag && slot.items != [] {
        ok := EncodeTagged(stream, f, slot.items[0], true);
      } else {
        EmptyEmits(s);
        ok := true;
      }
  }

  /** What remains to be written before field `i`, joined to what was. */
  ghost function Before(fields: seq<Field>, m: Msg, i: nat): Option<Bytes>
    requires i <= |fields| && |m.slots| == |fields|
  {
    if i == 0 then Some([])
    else Joined(Before(fields, m, i - 1), EncodeField(fields[i - 1], m.slots[SlotOf(fields, i - 1)]))
  }

  lemma BeforeOpen(fields: seq<Field>, m: Msg, i: nat)
    requires 0 < i <= |fields| && |m.slots| == |fields|
    ensures Before(fields, m, i) ==
            Joined(Before(fields, m, i - 1), EncodeField(fields[i - 1], m.slots[SlotOf(fields, i - 1)]))
  {
    hide EncodeField;
  }

  lemma JoinedWithNothing(a: Option<Bytes>)
    ensures Joined(Some([]), a) == a == Joined(a, Some([]))
  {
    if a.Some? {
      assert [] + a.value == a.value == a.value + [];
    }
  }

  lemma NothingIsBefore(fields: seq<Field>, m: Msg)
    requires |m.slots| == |fields|
    ensures Before(fields, m, 0) == Some([])
  {
  }

  lemma {:induction false} BeforeAndFrom(fields: seq<Field>, m: Msg, i: nat)
    requires i <= |fields| && |m.slots| == |fields|
    ensures Joined(Before(fields, m, i), EncodeFrom(fields, m, i)) == EncodeFrom(fields, m, 0)
    decreases i
  {
    hide EncodeField, EncodeFrom, Before, Joined;
    if i == 0 {
      NothingIsBefore(fields, m);
      JoinedWithNothing(EncodeFrom(fields, m, 0));
    } else {
      BeforeAndFrom(fields, m, i - 1);
      BeforeOpen(fields, m, i);
      EncodeFromOpen(fields, m, i - 1);
      JoinedAssociates(Before(fields, m, i - 1), EncodeField(fields[i - 1], m.slots[SlotOf(fields, i - 1)]), EncodeFrom(fields, m, i));
    }
  }

  lemma AllBefore(fields: seq<Field>, m: Msg)
    requires |m.slots| == |fields|
    ensures Before(fields, m, |fields|) == EncodeFrom(fields, m, 0)
  {
    hide EncodeField, EncodeFrom, Before, Joined;
    BeforeAndFrom(fields, m, |fields|);
    EncodeFromOpen(fields, m, |fields|);
    JoinedWithNothing(Before(fields, m, |fields|));
  }

  lemma FieldFails(fields: seq<Field>, m: Msg, i: nat, s: Snapshot, t: Snapshot, u: Snapshot)
    requires i < |fields| && |m.slots| == |fields|
    requires Emits(s, t, Before(fields, m, i), true)
    requires Emits(t, u, EncodeField(fields[i], m.slots[SlotOf(fields, i)]), false)
    ensures Emits(s, u, EncodeFrom(fields, m, 0), false)
  {
    hide EncodeField, EncodeFrom, Emits, Before, Joined;
    BeforeOpen(fields, m, i + 1);
    EmitsBoth(s, t, u, Before(fields, m, i), EncodeField(fields[i], m.slots[SlotOf(fields, i)]), false);
    BeforeAndFrom(fields, m, i + 1);
    EmitsFirstFails(s, u, Before(fields, m, i + 1), EncodeFrom(fields, m, i + 1));
  }

  /** `pb_encode`: field by field, as the iterator goes around once. */
  method EncodeMessage(stream: OStream, fields: seq<Field>, m: Msg) returns (ok: bool)
    requires Sane(stream.State()) && MsgFits(fields, m)
    modifies stream
    ensures Emits(old(stream.State()), stream.State(), Encode(fields, m), ok)
    decreases m, 1
  {
    hide EncodeField, EncodeFrom, Emits, MsgFits, Before, Sane, FieldIter.Valid;
    ghost var s := stream.State();
    SlotsFit(fields, m);
    var iter := new FieldIter(fields);
    NothingBefore(fields, m, s);
    if fields == [] {
      AllBefore(fields, m);
      return true;
    }
    ghost var i := 0;
    while true
      invariant iter.Valid() && iter.fields == fields && fresh(iter) && iter.pos == i < |fields|
      invariant Emits(s, stream.State(), Before(fields, m, i), true)
      decreases |fields| - i
    {
      ok := NextField(stream, fields, m, iter.pos, s);
      if !ok {
        return;
      }
      i := i + 1;
      var more := iter.Next();
      if !more {
        assert i == |fields|;
        AllBefore(fields, m);
        return true;
      }
    }
  }

  lemma SlotsFit(fields: seq<Field>, m: Msg)
    requires MsgFits(fields, m)
    ensures |m.slots| == |fields|
  {
  }

  /** One turn of the loop. */
  method NextField(stream: OStream, fields: seq<Field>, m: Msg, i: nat, ghost s: Snapshot) returns (ok: bool)
    requires MsgFits(fields, m) && i < |fields| && Emits(s, stream.State(), Before(fields, m, i), true)
    modifies stream
    ensures ok ==> Emits(s, stream.State(), Before(fields, m, i + 1), true)
    ensures !ok ==> Emits(s, stream.State(), Encode(fields, m), false)
    decreases m, 0
  {
    hide EncodeField, EncodeFrom, Emits, SlotFits, Before, Lengths, Sane;
    ghost var t := stream.State();
    SaneAfter(s, t, Before(fields, m, i), true);
    ok := EncodeFieldTo(stream, fields[i], m.slots[SlotOf(fields, i)]);
    if ok {
      OneMoreField(fields, m, i, s, t, stream.State());
    } else {
      FieldFails(fields, m, i, s, t, stream.State());
    }
  }

  lemma NothingBefore(fields: seq<Field>, m: Msg, s: Snapshot)
    requires Sane(s) && |m.slots| == |fields|
    ensures Emits(s, s, Before(fields, m, 0), true)
  {
    hide Emits;
    NothingIsBefore(fields, m);
    EmptyEmits(s);
  }

  lemma OneMoreField(fields: seq<Field>, m: Msg, i: nat, s: Snapshot, t: Snapshot, u: Snapshot)
    requires i < |fields| && |m.slots| == |fields|
    requires Emits(s, t, Before(fields, m, i), true)
    requires Emits(t, u, EncodeField(fields[i], m.slots[SlotOf(fields, i)]), true)
    ensures Emits(s, u, Before(fields, m, i + 1), true)
  {
    hide EncodeField, Emits, Before, Joined;
    BeforeOpen(fields, m, i + 1);
    EmitsBoth(s, t, u, Before(fields, m, i), EncodeField(fields[i], m.slots[SlotOf(fields, i)]), true);
  }

  /** `pb_get_encoded_size`: the size that a sizing pass counts is the length of the encoding. */
  method GetEncodedSize(fields: seq<Field>, m: Msg) returns (ok: bool, size: nat)
    requires MsgFits(fields, m)
    ensures ok <==> Encode(fields, m).Some?
    ensures ok ==> size == |Encode(fields, m).value|
  {
    var stream := new OStream.Sizing();
    ok := EncodeMessage(stream, fields, m);
    size := stream.bytesWritten;
  }
}
