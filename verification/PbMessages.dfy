/**
 What nanopb encodes and decodes, as functions on message values: static fields that are required,
 optional with a has member, repeated (packed where the type allows), in a oneof, or nested messages.
 */
module PbMessages {
  import opened ByteStrings
  import opened Varints
  import opened PbIntegers
  import opened PbFields

  // ----- values -----

  datatype Value = Int(i: int) | Blob(bytes: Bytes) | Sub(m: Msg)

  /** The contents of a member of the structure: nothing, one item or many; `which` is the active tag of a
      oneof and 0 otherwise. */
  datatype Slot = Slot(which: nat, items: seq<Value>)

  /** One slot per field; the fields of a oneof share the slot of the first of them. */
  datatype Msg = Msg(slots: seq<Slot>)

  const NOTHING := Slot(0, [])

  function Empty(fields: seq<Field>): (m: Msg)
    ensures |m.slots| == |fields| && forall j :: 0 <= j < |fields| ==> m.slots[j] == NOTHING
  {
    Msg(seq(|fields|, _ => NOTHING))
  }

  function SlotOf(fields: seq<Field>, i: nat): (j: nat)
    requires i < |fields|
    ensures j <= i
    ensures fields[i].rule != Oneof ==> j == i
    ensures fields[i].rule == Oneof ==> fields[j].rule == Oneof
  {
    if InUnion(fields, i) then SlotOf(fields, i - 1) else i
  }

  // ----- encoding -----

  function WireType(ltype: LType): nat {
    match ltype
    case Varint => WT_VARINT
    case UVarint => WT_VARINT
    case SVarint => WT_VARINT
    case Fixed32 => WT_32BIT
    case Fixed64 => WT_64BIT
    case _ => WT_STRING
  }

  predicate Packable(ltype: LType) {
    ltype == Varint || ltype == UVarint || ltype == SVarint || ltype == Fixed32 || ltype == Fixed64
  }

  predicate IntSize(n: nat) {
    n == 1 || n == 2 || n == 4 || n == 8
  }

  function HalfRange(size: nat): (h: int)
    ensures h > 0
  {
    if size == 1 then 0x80 else if size == 2 then 0x8000 else if size == 4 then 0x8000_0000 else TWO_63
  }

  const BYTES_HEADER := 4      // offset of the bytes behind their count

  function Joined(a: Option<Bytes>, b: Option<Bytes>): Option<Bytes> {
    if a.Some? && b.Some? then Some(a.value + b.value) else None
  }

  function Prefixed(body: Option<Bytes>): Option<Bytes> {
    if body.Some? then Some(Varints.Varint(|body.value|) + body.value) else None
  }

  /** A field encoder; `None` is an encoding error. */
  function EncodeValue(f: Field, v: Value): Option<Bytes>
    decreases v, 0
  {
    match f.ltype
    case Varint =>
      if v.Int? && IntSize(f.dataSize) && -TWO_63 <= v.i < TWO_63 then Some(Varints.Varint(AsUint64(v.i))) else None
    case UVarint =>
      if v.Int? && IntSize(f.dataSize) && 0 <= v.i < TWO_64 then Some(Varints.Varint(v.i)) else None
    case SVarint =>
      if v.Int? && IntSize(f.dataSize) && -TWO_63 <= v.i < TWO_63 then Some(Varints.Varint(ZigZag(v.i))) else None
    case Fixed32 =>
      if v.Int? && 0 <= v.i < TWO_32 then Some(LittleEndian(v.i, 4)) else None
    case Fixed64 =>
      if v.Int? && 0 <= v.i < TWO_64 then Some(LittleEndian(v.i, 8)) else None
    case BytesType =>
      if v.Blob? && |v.bytes| + BYTES_HEADER <= f.dataSize then Prefixed(Some(v.bytes)) else None
    case StringType =>
      if v.Blob? then Prefixed(Some(if |v.bytes| <= f.dataSize then v.bytes else v.bytes[..f.dataSize])) else None
    case FixedLengthBytes =>
      if v.Blob? && |v.bytes| == f.dataSize then Prefixed(Some(v.bytes)) else None
    case Submessage =>
      if v.Sub? then Prefixed(EncodeFrom(f.sub, v.m, 0)) else None
    case Extension => None
  }

  function TagFor(f: Field): Bytes {
    EncodeTag(WireType(f.ltype), f.tag)
  }

  /** One item of an array: bare in a packed array, with its own tag otherwise. */
  function EncodeItem(f: Field, v: Value, tagged: bool): Option<Bytes>
    decreases v, 1
  {
    if tagged then Joined(Some(TagFor(f)), EncodeValue(f, v)) else EncodeValue(f, v)
  }

  function EncodeItems(f: Field, items: seq<Value>, tagged: bool): Option<Bytes>
    decreases items, 0
  {
    if items == [] then Some([]) else Joined(EncodeItem(f, items[0], tagged), EncodeItems(f, items[1..], tagged))
  }

  function EncodeArray(f: Field, items: seq<Value>): Option<Bytes>
    decreases items, 1
  {
    if items == [] then Some([])
    else if |items| > f.arraySize then None
    else if Packable(f.ltype) then Joined(Some(EncodeTag(WT_STRING, f.tag)), Prefixed(EncodeItems(f, items, false)))
    else EncodeItems(f, items, true)
  }

  /** Whether a single field is written: required ones always, optional ones when present, and the
      member of a oneof that is active. */
  predicate Present(f: Field, slot: Slot) {
    slot.items != [] && (f.rule == Oneof ==> slot.which == f.tag)
  }

  function EncodeField(f: Field, slot: Slot): Option<Bytes>
    decreases slot
  {
    if f.alloc != Static then None
    else if f.rule == Repeated then EncodeArray(f, slot.items)
    else if Present(f, slot) then Joined(Some(TagFor(f)), EncodeValue(f, slot.items[0]))
    else if f.rule == Required then None
    else Some([])
  }

  /** `pb_encode` from field `i` on. */
  function EncodeFrom(fields: seq<Field>, m: Msg, i: nat): Option<Bytes>
    decreases m, |fields| - i
  {
    if i >= |fields| then Some([])
    else if |m.slots| != |fields| then None
    else Joined(EncodeField(fields[i], m.slots[SlotOf(fields, i)]), EncodeFrom(fields, m, i + 1))
  }

  /** `EncodeFrom` opened once. */
  lemma EncodeFromOpen(fields: seq<Field>, m: Msg, i: nat)
    requires |m.slots| == |fields|
    ensures EncodeFrom(fields, m, i) ==
            if i >= |fields| then Some([])
            else Joined(EncodeField(fields[i], m.slots[SlotOf(fields, i)]), EncodeFrom(fields, m, i + 1))
  {
    hide EncodeField;
  }

  function Encode(fields: seq<Field>, m: Msg): Option<Bytes> {
    EncodeFrom(fields, m, 0)
  }

  // ----- decoding -----

  /** A length-prefixed string: its contents and what lies behind it. */
  function DecodeString(s: Bytes): (r: Result<Bytes>)
    ensures r.Ok? ==> |r.rest| + |r.value| < |s|
  {
    match DecodeVarint32(s)
    case Fail => Fail
    case Ok(n, rest) => if |rest| < n then Fail else Ok(rest[..n], rest[n..])
  }

  /** A C string ends at its first NUL. */
  function CString(b: Bytes): Bytes {
    if b == [] || b[0] == 0 then [] else [b[0]] + CString(b[1..])
  }

  /** A field decoder.  A nested message is read into `prior`, the contents so far. */
  function DecodeValue(f: Field, s: Bytes, prior: Option<Value>): (r: Result<Value>)
    ensures r.Ok? ==> |r.rest| < |s|
    decreases |s|, 0
  {
    match f.ltype
    case Varint =>
      (match DecodeVarint(s)
       case Fail => Fail
       case Ok(u, rest) =>
         var v := if f.dataSize == 8 then AsSigned(u, TWO_63) else AsSigned(u, 0x8000_0000);
         if IntSize(f.dataSize) && -HalfRange(f.dataSize) <= v < HalfRange(f.dataSize) then Ok(Int(v), rest) else Fail)
    case UVarint =>
      (match DecodeVarint(s)
       case Fail => Fail
       case Ok(u, rest) => if IntSize(f.dataSize) && u < 2 * HalfRange(f.dataSize) then Ok(Int(u), rest) else Fail)
    case SVarint =>
      (match DecodeVarint(s)
       case Fail => Fail
       case Ok(u, rest) =>
         var v := UnZigZag(u);
         if IntSize(f.dataSize) && -HalfRange(f.dataSize) <= v < HalfRange(f.dataSize) then Ok(Int(v), rest) else Fail)
    case Fixed32 =>
      (match DecodeFixed(s, 4)
       case Fail => Fail
       case Ok(u, rest) => Ok(Int(u), rest))
    case Fixed64 =>
      (match DecodeFixed(s, 8)
       case Fail => Fail
       case Ok(u, rest) => Ok(Int(u), rest))
    case BytesType =>
      (match DecodeString(s)
       case Fail => Fail
       case Ok(b, rest) => if |b| + BYTES_HEADER > f.dataSize then Fail else Ok(Blob(b), rest))
    case StringType =>
      (match DecodeString(s)
       case Fail => Fail
       case Ok(b, rest) => if |b| + 1 > f.dataSize then Fail else Ok(Blob(CString(b)), rest))
    case FixedLengthBytes =>
      (match DecodeString(s)
       case Fail => Fail
       case Ok(b, rest) =>
         if b == [] then Ok(Blob(Zeros(f.dataSize)), rest)
         else if |b| != f.dataSize then Fail
         else Ok(Blob(b), rest))
    case Submessage =>
      (match DecodeString(s)
       case Fail => Fail
       case Ok(b, rest) =>
         var base := if prior.Some? && prior.value.Sub? && |prior.value.m.slots| == |f.sub| then prior.value.m else Empty(f.sub);
         match DecodeFields(f.sub, b, base, {})
         case Fail => Fail
         case Ok(m, _) => Ok(Sub(m), rest))
    case Extension => Fail
  }

  /** A packed array read to its end, behind the items so far. */
  function DecodeItems(f: Field, s: Bytes, items: seq<Value>): Option<seq<Value>>
    decreases |s|, 1
  {
    if s == [] then Some(items)
    else if |items| >= f.arraySize then None
    else
      match DecodeValue(f, s, None)
      case Fail => None
      case Ok(v, rest) => DecodeItems(f, rest, items + [v])
  }

  /** One occurrence of a field. */
  function DecodeSlot(f: Field, wireType: nat, s: Bytes, slot: Slot): (r: Result<Slot>)
    ensures r.Ok? ==> |r.rest| < |s|
    decreases |s|, 2
  {
    if f.alloc != Static then Fail
    else if f.rule == Repeated && wireType == WT_STRING && Packable(f.ltype) then
      match DecodeString(s)
      case Fail => Fail
      case Ok(b, rest) =>
        match DecodeItems(f, b, slot.items)
        case None => Fail
        case Some(items) => Ok(slot.(items := items), rest)
    else if f.rule == Repeated then
      if |slot.items| >= f.arraySize then Fail
      else
        match DecodeValue(f, s, None)
        case Fail => Fail
        case Ok(v, rest) => Ok(slot.(items := slot.items + [v]), rest)
    else if f.rule == Oneof then
      match DecodeValue(f, s, None)
      case Fail => Fail
      case Ok(v, rest) => Ok(Slot(f.tag, [v]), rest)
    else
      match DecodeValue(f, s, if slot.items == [] then None else Some(slot.items[0]))
      case Fail => Fail
      case Ok(v, rest) => Ok(Slot(0, [v]), rest)
  }

  /** Bytes up to and including the first without a continuation bit. */
  function SkipVarint(s: Bytes): (r: Result<()>)
    ensures r.Ok? ==> |r.rest| < |s|
  {
    if s == [] then Fail else if s[0] < 128 then Ok((), s[1..]) else SkipVarint(s[1..])
  }

  function SkipField(wireType: nat, s: Bytes): (r: Result<()>)
    ensures r.Ok? ==> |r.rest| <= |s|
  {
    if wireType == WT_VARINT then SkipVarint(s)
    else if wireType == WT_64BIT then (if |s| < 8 then Fail else Ok((), s[8..]))
    else if wireType == WT_STRING then
      match DecodeString(s)
      case Fail => Fail
      case Ok(_, rest) => Ok((), rest)
    else if wireType == WT_32BIT then (if |s| < 4 then Fail else Ok((), s[4..]))
    else Fail
  }

  /** The position of the field with a tag. */
  function Find(fields: seq<Field>, tag: nat, i: nat): (r: Option<nat>)
    requires i <= |fields|
    ensures r.Some? ==> i <= r.value < |fields| && Matches(fields, r.value, tag)
    ensures r.None? ==> forall k: nat :: i <= k < |fields| ==> !Matches(fields, k, tag)
    decreases |fields| - i
  {
    if i == |fields| then None else if Matches(fields, i, tag) then Some(i) else Find(fields, tag, i + 1)
  }

  predicate AllSeen(fields: seq<Field>, seen: set<nat>) {
    forall i :: 0 <= i < |fields| && fields[i].rule == Required ==> i in seen
  }

  /** `pb_decode_noinit` on the bytes of a message, into `m`; `seen` are the positions of the required
      fields met so far.  A type without fields takes a field numbered 0 for its own terminator. */
  function DecodeFields(fields: seq<Field>, s: Bytes, m: Msg, seen: set<nat>): (r: Result<Msg>)
    requires |m.slots| == |fields|
    ensures r.Ok? ==> |r.value.slots| == |fields|
    decreases |s|, 3
  {
    if s == [] then (if AllSeen(fields, seen) then Ok(m, []) else Fail)
    else
      match DecodeTag(s)
      case BadTag => Fail
      case End(rest) => if AllSeen(fields, seen) then Ok(m, rest) else Fail
      case Tag(wireType, number, rest) =>
        match Find(fields, number, 0)
        case None =>
          (if fields == [] && number == 0 then Fail
           else
             match SkipField(wireType, rest)
             case Fail => Fail
             case Ok(_, rest') => DecodeFields(fields, rest', m, seen))
        case Some(i) =>
          (var j := SlotOf(fields, i);
           match DecodeSlot(fields[i], wireType, rest, m.slots[j])
           case Fail => Fail
           case Ok(slot, rest') =>
             DecodeFields(fields, rest', m.(slots := m.slots[j := slot]),
                          if fields[i].rule == Required then seen + {i} else seen))
  }

  /** `pb_decode`: into a message without contents. */
  function Decode(fields: seq<Field>, s: Bytes): Result<Msg> {
    DecodeFields(fields, s, Empty(fields), {})
  }
}
