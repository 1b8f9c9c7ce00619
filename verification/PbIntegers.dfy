/**
 nanopb's integer codecs: varints, zigzag, fixed-width integers and field tags, with the loops of the
 source proved against base-128 varints.
 */
module PbIntegers {
  import opened ByteStrings
  import opened Varints

  const TWO_32 := 0x1_0000_0000
  const TWO_63 := 0x8000_0000_0000_0000
  const TWO_64 := 0x1_0000_0000_0000_0000

  type int64 = x: int | -0x8000_0000_0000_0000 <= x < 0x8000_0000_0000_0000

  /** A decoder's result: the value and the bytes behind it. */
  datatype Result<+T> = Ok(value: T, rest: Bytes) | Fail

  // ----- varints -----

  /** The loop of `pb_encode_varint`: seven bits a turn, then the top bit of the last byte is unset. */
  method EncodeVarint(value: uint64) returns (bs: Bytes)
    ensures bs == Varint(value) && |bs| <= 10
  {
    VarintFits(value);
    if value <= 0x7f {
      return [value];
    }
    var buffer: Bytes := [];
    var v: nat := value;
    while v != 0
      invariant v != 0 ==> Varint(value) == buffer + Varint(v)
      invariant v == 0 ==> buffer != [] && buffer[|buffer| - 1] >= 128 &&
                           Varint(value) == buffer[..|buffer| - 1] + [buffer[|buffer| - 1] - 128]
    {
      var b: byte := v % 128 + 128;
      buffer := buffer + [b];
      v := v / 128;
    }
    bs := buffer[..|buffer| - 1] + [buffer[|buffer| - 1] - 128];
  }

  lemma VarintFits(value: uint64)
    ensures |Varint(value)| <= 10
  {
    hide Varint, ParseVarint, Power128;
    Power128Values();
    VarintRoundTrip(value, 10, []);
  }

  function DecodeVarint(s: Bytes): (r: Result<uint64>)
    ensures r.Ok? ==> |r.rest| < |s|
  {
    match ParseVarint(s, 10)
    case None => Fail
    case Some(p) => Ok(p.value % TWO_64, p.rest)
  }

  function DecodeVarint32(s: Bytes): (r: Result<uint32>)
    ensures r.Ok? ==> |r.rest| < |s|
  {
    match ParseVarint(s, 5)
    case None => Fail
    case Some(p) => Ok(p.value % TWO_32, p.rest)
  }

  /** `pb_decode_varint32` agrees with `pb_decode_varint` modulo 2^32 on every varint of at most five
      bytes, overlong ones included. */
  lemma Varint32Agrees(s: Bytes)
    requires ParseVarint(s, 5).Some?
    ensures DecodeVarint(s).Ok? && DecodeVarint32(s) == Ok(DecodeVarint(s).value % TWO_32, DecodeVarint(s).rest)
  {
    hide ParseVarint;
    LongerLimit(s, 5, 10);
    var v := ParseVarint(s, 5).value.value;
    assert v % TWO_64 % TWO_32 == v % TWO_32;
  }

  lemma {:induction false} LongerLimit(s: Bytes, a: nat, b: nat)
    requires a <= b && ParseVarint(s, a).Some?
    ensures ParseVarint(s, b) == ParseVarint(s, a)
    decreases a
  {
    hide ParseVarint;
    ParsedIsThere(s, a);
    ParseStep(s, a);
    ParseStep(s, b);
    if s[0] >= 128 {
      LongerLimit(s[1..], a - 1, b - 1);
    }
  }


  /** Decoding undoes encoding for every 64-bit value, in at most ten bytes. */
  lemma VarintInverts(value: uint64, rest: Bytes)
    ensures DecodeVarint(Varint(value) + rest) == Ok(value, rest)
    ensures |Varint(value)| <= 10
    ensures value < TWO_32 ==> DecodeVarint32(Varint(value) + rest) == Ok(value, rest)
  {
    hide Varint, ParseVarint, Power128;
    Power128Values();
    VarintRoundTrip(value, 10, rest);
    if value < TWO_32 {
      VarintRoundTrip(value, 5, rest);
    }
  }

  // ----- zigzag -----

  function AsUint64(v: int64): uint64 {
    v % TWO_64
  }

  /** The two's complement reading of the low `bits` bits. */
  function AsSigned(u: nat, half: nat): int
    requires half > 0
  {
    var r := u % (2 * half);
    if r < half then r else r - 2 * half
  }

  /** `~(value << 1)` for negative values, `value << 1` otherwise. */
  function ZigZag(value: int64): uint64 {
    if value < 0 then TWO_64 - 1 - AsUint64(value) * 2 % TWO_64 else value * 2
  }

  function UnZigZag(u: uint64): int64 {
    if u % 2 == 1 then AsSigned(TWO_64 - 1 - u / 2, TWO_63) else u / 2
  }

  lemma ZigZagInverts(value: int64)
    ensures UnZigZag(ZigZag(value)) == value
    ensures ZigZag(value) == if value < 0 then -2 * value - 1 else 2 * value
  {
    if value < 0 {
      assert AsUint64(value) == value + TWO_64;
      assert AsUint64(value) * 2 == (2 * value + TWO_64) + TWO_64;
      assert AsUint64(value) * 2 % TWO_64 == 2 * value + TWO_64;
    }
  }

  lemma ZigZagIsOnto(u: uint64)
    ensures ZigZag(UnZigZag(u)) == u
  {
    ZigZagInverts(UnZigZag(u));
  }

  lemma SignedInverts(value: int64)
    ensures AsSigned(AsUint64(value), TWO_63) == value
  {
  }

  // ----- fixed width -----

  function DecodeFixed(s: Bytes, width: nat): (r: Result<nat>) {
    if |s| < width then Fail else Ok(FromLittleEndian(s[..width]), s[width..])
  }

  lemma FixedInverts(value: nat, width: nat, rest: Bytes)
    requires value < Power256(width)
    ensures DecodeFixed(LittleEndian(value, width) + rest, width) == Ok(value, rest)
  {
    LittleEndianRoundTrip(value, width);
    assert (LittleEndian(value, width) + rest)[..width] == LittleEndian(value, width);
  }

  // ----- tags -----

  const WT_VARINT: nat := 0
  const WT_64BIT: nat := 1
  const WT_STRING: nat := 2
  const WT_32BIT: nat := 5

  function EncodeTag(wireType: nat, number: nat): Bytes {
    Varint(number * 8 + wireType)
  }

  /** A tag, the end of the message (a zero tag, or a tag cut short by the end of the stream), or an
      overlong tag. */
  datatype Tag = Tag(wireType: nat, number: nat, rest: Bytes) | End(rest: Bytes) | BadTag

  function DecodeTag(s: Bytes): (t: Tag)
    ensures t.Tag? ==> |t.rest| < |s|
    ensures t.End? ==> |t.rest| <= |s|
  {
    match DecodeVarint32(s)
    case Fail => if |s| <= 5 then End([]) else BadTag
    case Ok(temp, rest) => if temp == 0 then End(rest) else Tag(temp % 8, temp / 8, rest)
  }

  /** Every field number up to 2^29 - 1 survives, with every wire type; only the tag of field number 0 and
      wire type 0 is a zero, which ends the message. */
  lemma TagInverts(wireType: nat, number: nat, rest: Bytes)
    requires wireType < 8 && number < 0x2000_0000 && (number > 0 || wireType > 0)
    ensures DecodeTag(EncodeTag(wireType, number) + rest) == Tag(wireType, number, rest)
  {
    hide Varint, ParseVarint, DecodeVarint32;
    VarintInverts(number * 8 + wireType, rest);
  }

  /** A stream cut inside a tag ends the message, wherever the cut falls; a cut behind the tag leaves it as
      it is. */
  lemma CutTag(s: Bytes, n: nat)
    requires DecodeTag(s).Tag? && n <= |s|
    ensures
      var length := |s| - |DecodeTag(s).rest|;
      DecodeTag(s[..n]) ==
      if n < length then End([]) else Tag(DecodeTag(s).wireType, DecodeTag(s).number, DecodeTag(s).rest[..n - length])
  {
    hide ParseVarint;
    ParseVarintCut(s, 5, n);
  }

  /** Decoders do not look behind the bytes they consume. */
  lemma DecodersExtend(s: Bytes, more: Bytes)
    ensures DecodeVarint(s).Ok? ==> DecodeVarint(s + more) == Ok(DecodeVarint(s).value, DecodeVarint(s).rest + more)
    ensures DecodeVarint32(s).Ok? ==> DecodeVarint32(s + more) == Ok(DecodeVarint32(s).value, DecodeVarint32(s).rest + more)
    ensures DecodeTag(s).Tag? ==>
              DecodeTag(s + more) == Tag(DecodeTag(s).wireType, DecodeTag(s).number, DecodeTag(s).rest + more)
  {
    hide ParseVarint;
    if ParseVarint(s, 10).Some? {
      ParseVarintExtends(s, more, 10);
    }
    if ParseVarint(s, 5).Some? {
      ParseVarintExtends(s, more, 5);
    }
  }
}
