/**
 Base-128 varints: seven bits a byte, least significant first, the top bit set on all bytes but the
 last.  Both libraries use them.
 */
module Varints {
  import opened ByteStrings

  function Varint(n: nat): (bs: Bytes)
    ensures |bs| >= 1
  {
    if n < 128 then [n] else [128 + n % 128] + Varint(n / 128)
  }

  function Power128(n: nat): (p: nat)
    ensures p > 0
  {
    if n == 0 then 1 else 128 * Power128(n - 1)
  }

  datatype Parsed = Parsed(value: nat, rest: Bytes)

  /** The varint at the front of `s`, if it ends within `limit` bytes. */
  function ParseVarint(s: Bytes, limit: nat): (r: Option<Parsed>)
    ensures r.Some? ==> |r.value.rest| < |s| && |s| - |r.value.rest| <= limit
    ensures r.Some? ==> r.value.rest == s[|s| - |r.value.rest|..]
    decreases limit
  {
    if s == [] || limit == 0 then None
    else if s[0] < 128 then Some(Parsed(s[0], s[1..]))
    else
      match ParseVarint(s[1..], limit - 1)
      case None => None
      case Some(p) => Some(Parsed(s[0] - 128 + 128 * p.value, p.rest))
  }

  lemma VarintOpen(n: nat)
    ensures Varint(n) == if n < 128 then [n] else [128 + n % 128] + Varint(n / 128)
  {
  }

  lemma VarintStep(n: nat, rest: Bytes)
    ensures
      var s := Varint(n) + rest;
      && s != [] && s[0] == (if n < 128 then n else 128 + n % 128)
      && s[1..] == (if n < 128 then rest else Varint(n / 128) + rest)
      && |Varint(n)| == (if n < 128 then 1 else 1 + |Varint(n / 128)|)
  {
    hide Varint;
    VarintOpen(n);
    if n < 128 {
      assert (Varint(n) + rest)[1..] == rest;
    } else {
      assert (Varint(n) + rest)[1..] == Varint(n / 128) + rest;
    }
  }

  lemma ParseStep(s: Bytes, limit: nat)
    requires s != [] && limit > 0
    ensures ParseVarint(s, limit) ==
            if s[0] < 128 then Some(Parsed(s[0], s[1..]))
            else
              match ParseVarint(s[1..], limit - 1)
              case None => None
              case Some(p) => Some(Parsed(s[0] - 128 + 128 * p.value, p.rest))
  {
  }

  lemma ParseNothing(s: Bytes, limit: nat)
    requires s == [] || limit == 0
    ensures ParseVarint(s, limit) == None
  {
  }

  lemma ParsedIsThere(s: Bytes, limit: nat)
    requires ParseVarint(s, limit).Some?
    ensures s != [] && limit > 0
  {
  }

  lemma PowerStep(n: nat, limit: nat)
    requires 128 <= n < Power128(limit) && limit > 0
    ensures limit > 1 && n / 128 < Power128(limit - 1)
  {
    assert Power128(limit) == 128 * Power128(limit - 1);
    assert Power128(1) == 128 * Power128(0) == 128;
  }

  /** Parsing undoes writing, whatever follows. */
  lemma {:induction false} VarintRoundTrip(n: nat, limit: nat, rest: Bytes)
    requires n < Power128(limit) && limit > 0
    ensures ParseVarint(Varint(n) + rest, limit) == Some(Parsed(n, rest))
    ensures |Varint(n)| <= limit
    decreases limit
  {
    hide Power128, Varint, ParseVarint;
    VarintStep(n, rest);
    ParseStep(Varint(n) + rest, limit);
    if n >= 128 {
      PowerStep(n, limit);
      VarintRoundTrip(n / 128, limit - 1, rest);
      assert n == 128 * (n / 128) + n % 128;
    }
  }

  /** Bytes behind a varint do not change how it parses. */
  lemma {:induction false} ParseVarintExtends(s: Bytes, more: Bytes, limit: nat)
    requires ParseVarint(s, limit).Some?
    ensures ParseVarint(s + more, limit)
            == Some(Parsed(ParseVarint(s, limit).value.value, ParseVarint(s, limit).value.rest + more))
    decreases limit
  {
    hide ParseVarint;
    ParsedIsThere(s, limit);
    ParseStep(s, limit);
    ParseStep(s + more, limit);
    assert (s + more)[1..] == s[1..] + more;
    if s[0] >= 128 {
      ParseVarintExtends(s[1..], more, limit - 1);
    }
  }

  /** A varint cut short does not parse; bytes cut off behind it do not matter. */
  lemma {:induction false} ParseVarintCut(s: Bytes, limit: nat, n: nat)
    requires ParseVarint(s, limit).Some? && n <= |s|
    ensures
      var p := ParseVarint(s, limit).value;
      var length := |s| - |p.rest|;
      ParseVarint(s[..n], limit) == if n < length then None else Some(Parsed(p.value, p.rest[..n - length]))
    decreases limit
  {
    hide ParseVarint;
    ParsedIsThere(s, limit);
    ParseStep(s, limit);
    if n == 0 {
      ParseNothing(s[..n], limit);
    } else {
      ParseStep(s[..n], limit);
      assert s[..n][1..] == s[1..][..n - 1];
      if s[0] >= 128 {
        ParseVarintCut(s[1..], limit - 1, n - 1);
      }
    }
  }

  lemma Power128Values()
    ensures Power128(5) == 0x8_0000_0000
    ensures Power128(10) == 0x40_0000_0000_0000_0000
  {
    assert Power128(2) == 128 * Power128(1) == 16384;
    assert Power128(5) == 128 * (128 * (128 * Power128(2)));
    assert Power128(10) == 128 * (128 * (128 * (128 * (128 * Power128(5)))));
  }
}
