/**
 Internal keys and memtables, at the level of bytes: a memtable answers lookups as the versioned map
 of the operations inserted so far.
 */
module MemTables {
  import opened ByteStrings
  import opened Batches
  import opened Versions
  import Compaction

  /** The user comparator, as the place of each key in its order. */
  type Comparator = Bytes -> UserKey

  const MAX_SEQUENCE := Compaction.MAX_SEQUENCE_NUMBER

  // ----- internal keys -----

  function PackSequenceAndType(sequence: nat, t: byte): (tag: uint64)
    requires sequence <= MAX_SEQUENCE
  {
    sequence * 256 + t
  }

  function InternalKey(key: Bytes, sequence: nat, t: byte): (k: Bytes)
    requires sequence <= MAX_SEQUENCE
    ensures |k| == |key| + 8
  {
    key + LittleEndian(PackSequenceAndType(sequence, t), 8)
  }

  function ExtractUserKey(ikey: Bytes): Bytes
    requires |ikey| >= 8
  {
    ikey[..|ikey| - 8]
  }

  function ExtractTag(ikey: Bytes): nat
    requires |ikey| >= 8
  {
    FromLittleEndian(ikey[|ikey| - 8..])
  }

  datatype ParsedKey = ParsedKey(key: Bytes, sequence: nat, t: byte)

  function ParseInternalKey(ikey: Bytes): Option<ParsedKey> {
    if |ikey| < 8 then None
    else
      var tag := ExtractTag(ikey);
      if tag % 256 <= TYPE_VALUE then Some(ParsedKey(ExtractUserKey(ikey), tag / 256, tag % 256)) else None
  }

  /** `InternalKeyComparator::Compare`: negative, zero or positive. */
  function Compare(rank: Comparator, a: Bytes, b: Bytes): int
    requires |a| >= 8 && |b| >= 8
  {
    var ra, rb := rank(ExtractUserKey(a)), rank(ExtractUserKey(b));
    if ra < rb then -1
    else if ra > rb then 1
    else if ExtractTag(a) > ExtractTag(b) then -1
    else if ExtractTag(a) < ExtractTag(b) then 1
    else 0
  }

  lemma InternalKeyParts(key: Bytes, sequence: nat, t: byte)
    requires sequence <= MAX_SEQUENCE
    ensures
      var ikey := InternalKey(key, sequence, t);
      && ExtractUserKey(ikey) == key
      && ExtractTag(ikey) == sequence * 256 + t
      && ExtractTag(ikey) / 256 == sequence && ExtractTag(ikey) % 256 == t
  {
    hide LittleEndian, FromLittleEndian, Power256;
    var tag := PackSequenceAndType(sequence, t);
    var ikey := InternalKey(key, sequence, t);
    assert ikey[..|key|] == key && ikey[|key|..] == LittleEndian(tag, 8);
    Power256Values();
    LittleEndianRoundTrip(tag, 8);
  }

  /** Parsing undoes packing, for every sequence number and both types. */
  lemma ParseUndoesPack(key: Bytes, sequence: nat, t: byte)
    requires sequence <= MAX_SEQUENCE
    ensures ParseInternalKey(InternalKey(key, sequence, t)) ==
            if t <= TYPE_VALUE then Some(ParsedKey(key, sequence, t)) else None
  {
    hide InternalKey, ExtractTag, ExtractUserKey;
    InternalKeyParts(key, sequence, t);
  }

  /** Comparing packed keys is comparing user keys upwards, then sequence numbers and types downwards. */
  lemma CompareIsVersionOrder(
    rank: Comparator, key: Bytes, sequence: nat, t: byte, key': Bytes, sequence': nat, t': byte)
    requires sequence <= MAX_SEQUENCE && sequence' <= MAX_SEQUENCE
    ensures
      var c := Compare(rank, InternalKey(key, sequence, t), InternalKey(key', sequence', t'));
      && (c < 0 <==>
            || rank(key) < rank(key')
            || (rank(key) == rank(key') && (sequence > sequence' || (sequence == sequence' && t > t'))))
      && (c == 0 <==> rank(key) == rank(key') && sequence == sequence' && t == t')
  {
    hide InternalKey, ExtractTag, ExtractUserKey;
    InternalKeyParts(key, sequence, t);
    InternalKeyParts(key', sequence', t');
  }

  // ----- memtable entries -----

  function TypeOf(op: Op): byte {
    if op.Put? then TYPE_VALUE else TYPE_DELETION
  }

  function ValueBytes(op: Op): Bytes {
    if op.Put? then op.value else []
  }

  /** An entry can be stored: its lengths fit 32 bits. */
  predicate Storable(q: nat, op: Op) {
    q <= MAX_SEQUENCE && Sized(op) && |op.key| + 8 < UINT32_SIZE
  }

  function Entry(q: nat, op: Op): Bytes
    requires q <= MAX_SEQUENCE
  {
    LengthPrefixed(InternalKey(op.key, q, TypeOf(op))) + LengthPrefixed(ValueBytes(op))
  }

  /** The internal key at the front of an entry or of a lookup key. */
  function KeyOf(entry: Bytes): Bytes {
    match GetLengthPrefixed(entry)
    case None => []
    case Some((ikey, _)) => ikey
  }

  function ValueIn(entry: Bytes): Bytes {
    match GetLengthPrefixed(entry)
    case None => []
    case Some((_, rest)) =>
      match GetLengthPrefixed(rest)
      case None => []
      case Some((value, _)) => value
  }

  lemma EntryParts(q: nat, op: Op)
    requires Storable(q, op)
    ensures KeyOf(Entry(q, op)) == InternalKey(op.key, q, TypeOf(op))
    ensures ValueIn(Entry(q, op)) == ValueBytes(op)
  {
    hide LengthPrefixed, GetLengthPrefixed;
    LengthPrefixedParses(InternalKey(op.key, q, TypeOf(op)), LengthPrefixed(ValueBytes(op)));
    LengthPrefixedParses(ValueBytes(op), []);
    assert LengthPrefixed(ValueBytes(op)) + [] == LengthPrefixed(ValueBytes(op));
  }

  /** The key that seeks to the newest entry at or below a sequence number. */
  function LookupKey(key: Bytes, s: nat): Bytes
    requires s <= MAX_SEQUENCE
  {
    LengthPrefixed(InternalKey(key, s, TYPE_VALUE))
  }

  lemma LookupKeyParts(key: Bytes, s: nat)
    requires s <= MAX_SEQUENCE && |key| + 8 < UINT32_SIZE
    ensures KeyOf(LookupKey(key, s)) == InternalKey(key, s, TYPE_VALUE)
  {
    hide LengthPrefixed, GetLengthPrefixed;
    LengthPrefixedParses(InternalKey(key, s, TYPE_VALUE), []);
    assert LookupKey(key, s) + [] == LookupKey(key, s);
  }

  function Less(rank: Comparator, a: Bytes, b: Bytes): bool {
    |KeyOf(a)| >= 8 && |KeyOf(b)| >= 8 && Compare(rank, KeyOf(a), KeyOf(b)) < 0
  }

  lemma EntryOrder(rank: Comparator, q: nat, op: Op, q': nat, op': Op)
    requires Storable(q, op) && Storable(q', op')
    ensures Less(rank, Entry(q, op), Entry(q', op')) <==>
            || rank(op.key) < rank(op'.key)
            || (rank(op.key) == rank(op'.key) && (q > q' || (q == q' && TypeOf(op) > TypeOf(op'))))
  {
    hide Entry, KeyOf, InternalKey, Compare;
    EntryParts(q, op);
    EntryParts(q', op');
    CompareIsVersionOrder(rank, op.key, q, TypeOf(op), op'.key, q', TypeOf(op'));
  }

  lemma LookupOrder(rank: Comparator, q: nat, op: Op, key: Bytes, s: nat)
    requires Storable(q, op) && s <= MAX_SEQUENCE && |key| + 8 < UINT32_SIZE
    ensures Less(rank, Entry(q, op), LookupKey(key, s)) <==>
            rank(op.key) < rank(key) || (rank(op.key) == rank(key) && q > s)
  {
    hide Entry, KeyOf, InternalKey, Compare;
    EntryParts(q, op);
    LookupKeyParts(key, s);
    CompareIsVersionOrder(rank, op.key, q, TypeOf(op), key, s, TYPE_VALUE);
  }

  // ----- the table -----

  function WriteOf(rank: Comparator, op: Op): Write {
    Write(rank(op.key), if op.Put? then Some(op.value) else None)
  }

  /** The operations as the versioned map sees them. */
  function RunOf(rank: Comparator, ops: map<nat, Op>): Run {
    map q | q in ops :: WriteOf(rank, ops[q])
  }

  datatype Answer = Found(value: Bytes) | Deleted | Absent

  function AnswerOf(found: Option<Write>): Answer {
    match found
    case None => Absent
    case Some(w) => if w.value.Some? then Found(w.value.value) else Deleted
  }

  predicate Stores(entry: Bytes, ops: map<nat, Op>, q: nat) {
    q in ops && Storable(q, ops[q]) && entry == Entry(q, ops[q])
  }

  ghost predicate Stored(entry: Bytes, ops: map<nat, Op>) {
    exists q :: Stores(entry, ops, q)
  }

  /** The skip list's contents, in comparator order, hold exactly the entries of `ops`. */
  ghost predicate Represents(rank: Comparator, table: seq<Bytes>, ops: map<nat, Op>) {
    && (forall q :: q in ops ==> Storable(q, ops[q]) && Entry(q, ops[q]) in table)
    && (forall i :: 0 <= i < |table| ==> Stored(table[i], ops))
    && (forall i, j :: 0 <= i < j < |table| ==> Less(rank, table[i], table[j]))
  }

  class MemTable {
    const rank: Comparator
    var table: seq<Bytes>
    ghost var ops: map<nat, Op>     // by sequence number

    ghost predicate Valid()
      reads this
    {
      Represents(rank, table, ops)
    }

    constructor (rank: Comparator)
      ensures Valid() && this.rank == rank && ops == map[]
    {
      this.rank := rank;
      table := [];
      ops := map[];
    }

    /** The first entry not before `target`. */
    method FindGreaterOrEqual(target: Bytes) returns (i: nat)
      ensures i <= |table|
      ensures forall j :: 0 <= j < i ==> Less(rank, table[j], target)
      ensures i < |table| ==> !Less(rank, table[i], target)
    {
      hide Less;
      i := 0;
      while i < |table| && Less(rank, table[i], target)
        invariant i <= |table|
        invariant forall j :: 0 <= j < i ==> Less(rank, table[j], target)
      {
        i := i + 1;
      }
    }

    method Add(q: nat, op: Op)
      requires Valid() && Storable(q, op) && q !in ops
      modifies this
      ensures Valid() && ops == old(ops)[q := op]
    {
      hide Represents, Less, Entry;
      var entry := Entry(q, op);
      var i := FindGreaterOrEqual(entry);
      InsertKeepsOrder(rank, table, ops, i, q, op);
      table := table[..i] + [entry] + table[i..];
      ops := ops[q := op];
    }

    method Get(key: Bytes, s: nat) returns (answer: Answer)
      requires Valid() && s <= MAX_SEQUENCE && |key| + 8 < UINT32_SIZE
      ensures answer == AnswerOf(Lookup(RunOf(rank, ops), rank(key), s))
    {
      hide Represents, Less, LookupKey, Lookup, KeyOf, ValueIn, ExtractTag, ExtractUserKey;
      var i := FindGreaterOrEqual(LookupKey(key, s));
      SeekFindsNewest(rank, table, ops, key, s, i);
      answer := Absent;
      if i < |table| {
        var ikey := KeyOf(table[i]);
        if rank(ExtractUserKey(ikey)) == rank(key) {
          var tag := ExtractTag(ikey);
          answer := if tag % 256 == TYPE_VALUE then Found(ValueIn(table[i])) else Deleted;
        }
      }
    }
  }

  // ----- why the table answers right -----

  lemma TableEntry(rank: Comparator, table: seq<Bytes>, ops: map<nat, Op>, i: nat) returns (q: nat)
    requires Represents(rank, table, ops) && i < |table|
    ensures q in ops && Storable(q, ops[q]) && table[i] == Entry(q, ops[q])
  {
    hide Entry, Less;
    q :| Stores(table[i], ops, q);
  }

  lemma InsertKeepsOrder(rank: Comparator, table: seq<Bytes>, ops: map<nat, Op>, i: nat, q: nat, op: Op)
    requires Represents(rank, table, ops) && Storable(q, op) && q !in ops
    requires i <= |table|
    requires forall j :: 0 <= j < i ==> Less(rank, table[j], Entry(q, op))
    requires i < |table| ==> !Less(rank, table[i], Entry(q, op))
    ensures Represents(rank, table[..i] + [Entry(q, op)] + table[i..], ops[q := op])
  {
    hide Less, Entry;
    var entry := Entry(q, op);
    var table', ops' := table[..i] + [entry] + table[i..], ops[q := op];
    forall j | i <= j < |table|
      ensures Less(rank, entry, table[j])
    {
      InsertBefore(rank, table, ops, i, j, q, op);
    }
    InsertedMembers(rank, table, ops, i, q, op);
    forall j, k | 0 <= j < k < |table'|
      ensures Less(rank, table'[j], table'[k])
    {
      var j', k' := if j < i then j else j - 1, if k < i then k else k - 1;
      assert j != i ==> table'[j] == table[j'];
      assert k != i ==> table'[k] == table[k'];
    }
  }

  lemma InsertedMembers(rank: Comparator, table: seq<Bytes>, ops: map<nat, Op>, i: nat, q: nat, op: Op)
    requires Represents(rank, table, ops) && Storable(q, op) && q !in ops && i <= |table|
    ensures
      var table', ops' := table[..i] + [Entry(q, op)] + table[i..], ops[q := op];
      && (forall p :: p in ops' ==> Storable(p, ops'[p]) && Entry(p, ops'[p]) in table')
      && (forall j :: 0 <= j < |table'| ==> Stored(table'[j], ops'))
  {
    hide Less, Entry;
    var entry := Entry(q, op);
    var table', ops' := table[..i] + [entry] + table[i..], ops[q := op];
    forall p | p in ops'
      ensures Storable(p, ops'[p]) && Entry(p, ops'[p]) in table'
    {
      if p == q {
        assert table'[i] == entry;
      } else {
        assert Entry(p, ops[p]) in table;
        assert table == table[..i] + table[i..];
      }
    }
    forall j | 0 <= j < |table'|
      ensures Stored(table'[j], ops')
    {
      if j != i {
        var j' := if j < i then j else j - 1;
        assert table'[j] == table[j'];
        var p := TableEntry(rank, table, ops, j');
        assert Stores(table'[j], ops', p);
      } else {
        assert Stores(table'[i], ops', q);
      }
    }
  }

  lemma InsertBefore(rank: Comparator, table: seq<Bytes>, ops: map<nat, Op>, i: nat, j: nat, q: nat, op: Op)
    requires Represents(rank, table, ops) && Storable(q, op) && q !in ops
    requires i <= j < |table| && !Less(rank, table[i], Entry(q, op))
    ensures Less(rank, Entry(q, op), table[j])
  {
    hide Represents, Less, Entry;
    var p := TableEntry(rank, table, ops, i);
    EntryOrder(rank, p, ops[p], q, op);
    EntryOrder(rank, q, op, p, ops[p]);
    if i < j {
      var r := TableEntry(rank, table, ops, j);
      EntryOrder(rank, q, op, r, ops[r]);
      assert Less(rank, table[i], table[j]) by { LessByIndex(rank, table, ops, i, j); }
      EntryOrder(rank, p, ops[p], r, ops[r]);
    }
  }

  lemma LessByIndex(rank: Comparator, table: seq<Bytes>, ops: map<nat, Op>, i: nat, j: nat)
    requires Represents(rank, table, ops) && i < j < |table|
    ensures Less(rank, table[i], table[j])
  {
  }

  /** Seeking stops at the newest entry of the key that is not too new, or behind all of its entries. */
  lemma SeekFindsNewest(rank: Comparator, table: seq<Bytes>, ops: map<nat, Op>, key: Bytes, s: nat, i: nat)
    requires Represents(rank, table, ops) && s <= MAX_SEQUENCE && |key| + 8 < UINT32_SIZE
    requires i <= |table|
    requires forall j :: 0 <= j < i ==> Less(rank, table[j], LookupKey(key, s))
    requires i < |table| ==> !Less(rank, table[i], LookupKey(key, s))
    ensures
      var found := Lookup(RunOf(rank, ops), rank(key), s);
      if i < |table| && |KeyOf(table[i])| >= 8 && rank(ExtractUserKey(KeyOf(table[i]))) == rank(key) then
        AnswerOf(found) ==
        if ExtractTag(KeyOf(table[i])) % 256 == TYPE_VALUE then Found(ValueIn(table[i])) else Deleted
      else found == None
    ensures i < |table| ==> |KeyOf(table[i])| >= 8
  {
    hide Represents, Less, LookupKey, Lookup, Entry, KeyOf, ValueIn, ExtractTag, ExtractUserKey, InternalKey;
    var run := RunOf(rank, ops);
    if i < |table| {
      var q := TableEntry(rank, table, ops, i);
      EntryParts(q, ops[q]);
      InternalKeyParts(ops[q].key, q, TypeOf(ops[q]));
      LookupOrder(rank, q, ops[q], key, s);
      if rank(ops[q].key) == rank(key) {
        forall p | p in run && p <= s && run[p].key == rank(key)
          ensures p <= q
        {
          EntriesAhead(rank, table, ops, key, s, i, p);
        }
        LookupGives(run, rank(key), s, q);
      } else {
        forall p | p in run && p <= s
          ensures run[p].key != rank(key)
        {
          if run[p].key == rank(key) {
            EntriesAhead(rank, table, ops, key, s, i, p);
          }
        }
        LookupMisses(run, rank(key), s);
      }
    } else {
      forall p | p in run && p <= s
        ensures run[p].key != rank(key)
      {
        if run[p].key == rank(key) {
          EntriesAhead(rank, table, ops, key, s, i, p);
        }
      }
      LookupMisses(run, rank(key), s);
    }
  }

  /** An entry of the key that is not too new lies at or behind the place the seek found. */
  lemma EntriesAhead(rank: Comparator, table: seq<Bytes>, ops: map<nat, Op>, key: Bytes, s: nat, i: nat, p: nat)
    requires Represents(rank, table, ops) && s <= MAX_SEQUENCE && |key| + 8 < UINT32_SIZE
    requires i <= |table|
    requires forall j :: 0 <= j < i ==> Less(rank, table[j], LookupKey(key, s))
    requires p in ops && p <= s && rank(ops[p].key) == rank(key)
    ensures i < |table|
    ensures forall q :: q in ops && table[i] == Entry(q, ops[q]) && rank(key) <= rank(ops[q].key) ==>
              rank(key) == rank(ops[q].key) && p <= q
  {
    hide Less, Entry, LookupKey;
    assert Entry(p, ops[p]) in table;
    var j :| 0 <= j < |table| && table[j] == Entry(p, ops[p]);
    LookupOrder(rank, p, ops[p], key, s);
    assert i <= j;
    forall q | q in ops && table[i] == Entry(q, ops[q]) && rank(key) <= rank(ops[q].key)
      ensures rank(key) == rank(ops[q].key) && p <= q
    {
      EntryOrder(rank, q, ops[q], p, ops[p]);
      if i == j {
        EntryParts(q, ops[q]);
        EntryParts(p, ops[p]);
        InternalKeyParts(ops[q].key, q, TypeOf(ops[q]));
        InternalKeyParts(ops[p].key, p, TypeOf(ops[p]));
      }
    }
  }
}
