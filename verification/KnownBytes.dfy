/**
 The bytes of a small write batch, internal key, memtable entry and lookup key.
 */
module KnownBytes {
  import opened ByteStrings
  import opened Batches
  import opened MemTables

  lemma Fixed64(n: nat)
    requires n < 65536
    ensures LittleEndian(n, 8) == [n % 256, n / 256, 0, 0, 0, 0, 0, 0]
  {
    assert n / 256 / 256 == 0;
    FixedZero(6);
    assert LittleEndian(n / 256, 7) == [n / 256] + LittleEndian(0, 6);
    assert LittleEndian(n, 8) == [n % 256] + LittleEndian(n / 256, 7);
  }

  lemma {:induction false} FixedZero(width: nat)
    ensures LittleEndian(0, width) == seq(width, _ => 0)
    decreases width
  {
    if width > 0 {
      FixedZero(width - 1);
    }
  }

  lemma Fixed32(n: nat)
    requires n < 256
    ensures LittleEndian(n, 4) == [n, 0, 0, 0]
  {
    FixedZero(3);
    assert LittleEndian(n, 4) == [n] + LittleEndian(0, 3);
  }

  /** A batch starts with an eight-byte sequence number and a four-byte count, both little-endian; a put is a 1
      and two length-prefixed strings, a deletion a 0 and one. */
  lemma KnownBatch()
    ensures Rep(100, [Op.Put([0x66], [0x62]), Op.Delete([0x7a])]) ==
            [100, 0, 0, 0, 0, 0, 0, 0, 2, 0, 0, 0, 1, 1, 0x66, 1, 0x62, 0, 1, 0x7a]
  {
    hide LittleEndian;
    Fixed64(100);
    Fixed32(2);
    var a, b := Op.Put([0x66], [0x62]), Op.Delete([0x7a]);
    assert Record(a) == [1, 1, 0x66, 1, 0x62] && Record(b) == [0, 1, 0x7a];
    assert [a, b][..1] == [a] && [a][..0] == [];
    assert Payload([a]) == [] + Record(a) == Record(a);
    assert Payload([a, b]) == Payload([a]) + Record(b);
  }

  /** An internal key is the user key and eight bytes, the type in the first of them. */
  lemma KnownInternalKey()
    ensures InternalKey([0x6b], 5, 1) == [0x6b, 1, 5, 0, 0, 0, 0, 0, 0]
    ensures InternalKey([0x6b], 5, 0) == [0x6b, 0, 5, 0, 0, 0, 0, 0, 0]
  {
    hide LittleEndian;
    Fixed64(5 * 256 + 1);
    Fixed64(5 * 256);
  }

  /** A memtable entry is a length-prefixed internal key and a length-prefixed value; a lookup key ends in the
      type of values. */
  lemma KnownEntries()
    ensures Entry(5, Op.Put([0x6b], [0x76])) == [9, 0x6b, 1, 5, 0, 0, 0, 0, 0, 0, 1, 0x76]
    ensures Entry(5, Op.Delete([0x6b])) == [9, 0x6b, 0, 5, 0, 0, 0, 0, 0, 0, 0]
    ensures LookupKey([0x6b], 5) == [9, 0x6b, 1, 5, 0, 0, 0, 0, 0, 0]
  {
    hide LittleEndian, InternalKey;
    KnownInternalKey();
  }
}
