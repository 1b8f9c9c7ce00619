/**
 From bytes to the store's groups: a batch is replayed into the memtable, and a log cut by a crash
 decodes to exactly the acknowledged groups, with or without the last one.
 */
module Recovery {
  import opened ByteStrings
  import opened Batches
  import opened Versions
  import opened MemTables
  import opened LogFormat
  import LogProofs
  import Store

  // ----- replaying a batch into a memtable -----

  /** Operations numbered from a base sequence number. */
  function NumberedOps(base: nat, ops: seq<Op>): (m: map<nat, Op>)
    ensures forall q :: q in m <==> base <= q < base + |ops|
    ensures forall q :: q in m ==> m[q] == ops[q - base]
  {
    map q: nat | base <= q < base + |ops| :: OpAt(base, ops, q)
  }

  function OpAt(base: nat, ops: seq<Op>, q: nat): Op
    requires base <= q < base + |ops|
  {
    ops[q - base]
  }

  ghost predicate Insertable(mem: map<nat, Op>, base: nat, ops: seq<Op>) {
    forall i :: 0 <= i < |ops| ==> Storable(base + i, ops[i]) && (base + i) !in mem
  }

  /** `WriteBatchInternal::InsertInto` with the `MemTableInserter` handler: the operations go in with
      consecutive sequence numbers; those before a corruption have gone in as well. */
  method InsertInto(b: WriteBatch, mem: MemTable) returns (status: Status)
    requires mem.Valid() && |b.rep| >= HEADER
    requires Insertable(mem.ops, Sequence(b.rep), Replayed(b.rep[HEADER..]).0)
    modifies mem
    ensures mem.Valid()
    ensures mem.ops == old(mem.ops) + NumberedOps(Sequence(b.rep), Replayed(b.rep[HEADER..]).0)
    ensures status == Ok <==> Replayed(b.rep[HEADER..]).1 && |Replayed(b.rep[HEADER..]).0| == Count(b.rep)
  {
    hide Replayed, FromLittleEndian, Represents, Storable, NumberedOps, Insertable;
    var sequence := Sequence(b.rep);
    ghost var base := sequence;
    var told, st := b.Iterate();
    status := st;
    for i := 0 to |told|
      invariant mem.Valid() && sequence == base + i
      invariant mem.ops == old(mem.ops) + NumberedOps(base, told[..i])
    {
      NextIsInsertable(old(mem.ops), base, told, i);
      NumberedGrows(base, told, i);
      UpdateBehind(old(mem.ops), NumberedOps(base, told[..i]), sequence, told[i]);
      mem.Add(sequence, told[i]);
      sequence := sequence + 1;
    }
    assert told[..|told|] == told;
  }

  lemma NextIsInsertable(mem: map<nat, Op>, base: nat, ops: seq<Op>, i: nat)
    requires Insertable(mem, base, ops) && i < |ops|
    ensures Storable(base + i, ops[i]) && base + i !in mem + NumberedOps(base, ops[..i])
  {
    hide Storable;
  }

  lemma UpdateBehind(a: map<nat, Op>, b: map<nat, Op>, q: nat, op: Op)
    ensures (a + b)[q := op] == a + b[q := op]
  {
  }

  lemma NumberedGrows(base: nat, ops: seq<Op>, i: nat)
    requires i < |ops|
    ensures NumberedOps(base, ops[..i + 1]) == NumberedOps(base, ops[..i])[base + i := ops[i]]
  {
  }

  // ----- records as groups -----

  function Writes(rank: Comparator, ops: seq<Op>): (writes: seq<Write>)
    ensures |writes| == |ops|
    ensures forall i :: 0 <= i < |ops| ==> writes[i] == WriteOf(rank, ops[i])
  {
    seq(|ops|, i requires 0 <= i < |ops| => WriteOf(rank, ops[i]))
  }

  /** A write group before it is encoded. */
  datatype Batch = Batch(base: uint64, ops: seq<Op>)

  function GroupOf(rank: Comparator, b: Batch): Store.Group {
    Store.Group(b.base, Writes(rank, b.ops))
  }

  function GroupsOf(rank: Comparator, batches: seq<Batch>): (groups: seq<Store.Group>)
    ensures |groups| == |batches|
    ensures forall i :: 0 <= i < |batches| ==> groups[i] == GroupOf(rank, batches[i])
  {
    seq(|batches|, i requires 0 <= i < |batches| => GroupOf(rank, batches[i]))
  }

  function Reps(batches: seq<Batch>): (records: seq<Bytes>)
    ensures |records| == |batches|
    ensures forall i :: 0 <= i < |batches| ==> records[i] == Rep(batches[i].base, batches[i].ops)
  {
    seq(|batches|, i requires 0 <= i < |batches| => Rep(batches[i].base, batches[i].ops))
  }

  /** What recovery makes of a log record: records shorter than a header are passed over. */
  function Decoded(rank: Comparator, records: seq<Bytes>): seq<Store.Group> {
    if records == [] then []
    else
      (if |records[0]| < HEADER then []
       else [Store.Group(Sequence(records[0]), Writes(rank, Replayed(records[0][HEADER..]).0))]) +
      Decoded(rank, records[1..])
  }

  /** A memtable filled from a batch holds exactly the group's entries. */
  lemma InsertedRun(rank: Comparator, ops: map<nat, Op>, b: Batch)
    ensures MemTables.RunOf(rank, ops + NumberedOps(b.base, b.ops))
         == MemTables.RunOf(rank, ops) + Store.RunOfGroup(GroupOf(rank, b))
  {
    hide NumberedOps, GroupOf, MemTables.WriteOf;
    var group := GroupOf(rank, b);
    NumberedRun(rank, b);
    var numbered := NumberedOps(b.base, b.ops);
    assert MemTables.RunOf(rank, ops + numbered) == MemTables.RunOf(rank, ops) + MemTables.RunOf(rank, numbered);
  }

  lemma NumberedRun(rank: Comparator, b: Batch)
    ensures MemTables.RunOf(rank, NumberedOps(b.base, b.ops)) == Store.RunOfGroup(GroupOf(rank, b))
  {
    hide MemTables.WriteOf, NumberedOps;
    var a, c := MemTables.RunOf(rank, NumberedOps(b.base, b.ops)), Store.RunOfGroup(GroupOf(rank, b));
    forall q | q in c
      ensures q in a && a[q] == c[q]
    {
      assert c[q] == Store.GroupWrite(GroupOf(rank, b), q);
    }
  }

  lemma {:induction false} DecodedConcat(rank: Comparator, a: seq<Bytes>, b: seq<Bytes>)
    ensures Decoded(rank, a + b) == Decoded(rank, a) + Decoded(rank, b)
    decreases |a|
  {
    if a == [] {
      assert a + b == b;
    } else {
      assert (a + b)[1..] == a[1..] + b;
      DecodedConcat(rank, a[1..], b);
    }
  }

  /** A record of fewer than twelve bytes holds no group, and takes none with it. */
  lemma ShortRecordIsPassedOver(rank: Comparator, before: seq<Bytes>, record: Bytes, after: seq<Bytes>)
    requires |record| < 12
    ensures Decoded(rank, before + [record] + after) == Decoded(rank, before + after)
  {
    hide Decoded;
    DecodedConcat(rank, before + [record], after);
    DecodedConcat(rank, before, [record]);
    DecodedConcat(rank, before, after);
    DecodedShort(rank, record);
  }

  lemma DecodedShort(rank: Comparator, record: Bytes)
    requires |record| < 12
    ensures Decoded(rank, [record]) == []
  {
  }

  ghost predicate Encodable(batches: seq<Batch>) {
    forall i :: 0 <= i < |batches| ==> AllSized(batches[i].ops)
  }

  lemma {:induction false} DecodedReps(rank: Comparator, batches: seq<Batch>)
    requires Encodable(batches)
    ensures Decoded(rank, Reps(batches)) == GroupsOf(rank, batches)
    decreases |batches|
  {
    hide Rep, Replayed, FromLittleEndian, Writes;
    var records := Reps(batches);
    if batches != [] {
      var b := batches[0];
      BatchReplays(b.base, b.ops);
      assert records[1..] == Reps(batches[1..]);
      DecodedReps(rank, batches[1..]);
      assert GroupsOf(rank, batches) == [GroupOf(rank, b)] + GroupsOf(rank, batches[1..]);
    }
  }

  /** A log of write groups cut at any byte recovers, without a complaint, to the groups whose records
      are complete: a prefix of what was written. */
  lemma CutLogRecovers(crc: Checksum, rank: Comparator, batches: seq<Batch>, n: nat)
    requires Encodable(batches) && n <= |Written(crc, 0, Reps(batches))|
    ensures
      var outcome := Recover(crc, true, Written(crc, 0, Reps(batches))[..n]);
      var k := LogProofs.Complete(crc, 0, Reps(batches), n);
      outcome.reports == [] && Decoded(rank, outcome.records) == GroupsOf(rank, batches[..k])
  {
    hide Written, Recover, Decoded, LogProofs.Complete;
    LogProofs.TornTail(crc, true, Reps(batches), n);
    var k := LogProofs.Complete(crc, 0, Reps(batches), n);
    assert Reps(batches)[..k] == Reps(batches[..k]);
    DecodedReps(rank, batches[..k]);
  }

  /** The crash of the store, at the level of bytes: when the newest log is cut anywhere behind the
      records of the acknowledged groups, it decodes to the log of `DiskLogs`; the group in flight
      survives exactly when its record is complete. */
  lemma CrashedLogIsDiskLog(
    crc: Checksum, rank: Comparator, s: Store.State, batches: seq<Batch>, acknowledged: nat, n: nat)
    requires s.logfile in s.logs && Encodable(batches) && s.logs[s.logfile] == GroupsOf(rank, batches)
    requires acknowledged == |batches| - (if s.inflight.Some? && s.inflight.value.logged && batches != [] then 1 else 0)
    requires |Written(crc, 0, Reps(batches)[..acknowledged])| <= n <= |Written(crc, 0, Reps(batches))|
    ensures
      var file := Written(crc, 0, Reps(batches));
      var outcome := Recover(crc, true, file[..n]);
      && outcome.reports == []
      && Decoded(rank, outcome.records) == Store.DiskLogs(s, n == |file|)[s.logfile]
  {
    hide Written, Recover, Decoded, LogProofs.Complete;
    var records := Reps(batches);
    var k := LogProofs.Complete(crc, 0, records, n);
    LogProofs.CompleteIsExact(crc, 0, records, n);
    CutLogRecovers(crc, rank, batches, n);
    assert acknowledged <= k by {
      if k < acknowledged {
        assert records[..acknowledged][..k + 1] == records[..k + 1];
        LogProofs.WrittenGrows(crc, 0, records[..acknowledged], k + 1);
      }
    }
    assert records[..|records|] == records && batches[..|batches|] == batches;
    if k == |batches| {
      assert n == |Written(crc, 0, records)|;
    } else {
      LogProofs.WrittenGrows(crc, 0, records, k + 1);
      assert k == |batches| - 1;
      assert n < |Written(crc, 0, records[..k + 1])| && records[..k + 1] == records;
      assert GroupsOf(rank, batches)[..k] == GroupsOf(rank, batches[..k]);
    }
  }
}
