/**
 Write batches: the byte format, how batches are built and joined, and how they are replayed.
 */
module Batches {
  import opened ByteStrings
  import opened Varints

  const HEADER := 12
  const TYPE_DELETION: byte := 0
  const TYPE_VALUE: byte := 1

  datatype Op = Put(key: Bytes, value: Bytes) | Delete(key: Bytes)

  const UINT32_SIZE := 0x1_0000_0000

  /** The count is a 32-bit integer. */
  function Wrap32(n: nat): (r: uint32) {
    n % UINT32_SIZE
  }

  lemma Wrap32Sum(a: nat, b: nat)
    ensures Wrap32(Wrap32(a) + b) == Wrap32(a + b)
    ensures Wrap32(Wrap32(a) + Wrap32(b)) == Wrap32(a + b)
  {
  }

  /** The lengths of the operation fit 32 bits. */
  predicate Sized(op: Op) {
    |op.key| < UINT32_SIZE && (op.Put? ==> |op.value| < UINT32_SIZE)
  }

  ghost predicate AllSized(ops: seq<Op>) {
    forall i :: 0 <= i < |ops| ==> Sized(ops[i])
  }

  /** Lengths are written as 32-bit varints, longer ones cut down to their low bits. */
  function LengthPrefixed(s: Bytes): Bytes {
    Varint(Wrap32(|s|)) + s
  }

  function Record(op: Op): (r: Bytes)
    ensures r != []
  {
    match op
    case Put(key, value) => [TYPE_VALUE] + LengthPrefixed(key) + LengthPrefixed(value)
    case Delete(key) => [TYPE_DELETION] + LengthPrefixed(key)
  }

  function Payload(ops: seq<Op>): Bytes {
    if ops == [] then [] else Payload(ops[..|ops| - 1]) + Record(ops[|ops| - 1])
  }

  /** The contents of a batch that holds `ops` and starts at a sequence number. */
  function Rep(sequence: uint64, ops: seq<Op>): (rep: Bytes)
    ensures |rep| >= HEADER
  {
    LittleEndian(sequence, 8) + LittleEndian(Wrap32(|ops|), 4) + Payload(ops)
  }

  function Sequence(rep: Bytes): nat
    requires |rep| >= HEADER
  {
    FromLittleEndian(rep[..8])
  }

  function Count(rep: Bytes): nat
    requires |rep| >= HEADER
  {
    FromLittleEndian(rep[8..12])
  }

  // ----- replaying -----

  /** `GetLengthPrefixedSlice`: a 32-bit varint length, then that many bytes. */
  function GetLengthPrefixed(s: Bytes): (r: Option<(Bytes, Bytes)>)
    ensures r.Some? ==> |r.value.1| < |s|
  {
    match ParseVarint(s, 5)
    case None => None
    case Some(p) =>
      var n := Wrap32(p.value);
      if n <= |p.rest| then Some((p.rest[..n], p.rest[n..])) else None
  }

  datatype Status = Ok | Corruption

  /** One record off the front of the payload. */
  function ParseRecord(s: Bytes): (r: Option<(Op, Bytes)>)
    requires s != []
    ensures r.Some? ==> |r.value.1| < |s|
  {
    if s[0] == TYPE_VALUE then
      match GetLengthPrefixed(s[1..])
      case None => None
      case Some((key, rest)) =>
        match GetLengthPrefixed(rest)
        case None => None
        case Some((value, rest')) => Some((Put(key, value), rest'))
    else if s[0] == TYPE_DELETION then
      match GetLengthPrefixed(s[1..])
      case None => None
      case Some((key, rest)) => Some((Delete(key), rest))
    else None
  }

  /** What the handler is told, in order, and whether the payload was well formed. */
  function Replayed(s: Bytes): (seq<Op>, bool)
    decreases |s|
  {
    if s == [] then ([], true)
    else
      match ParseRecord(s)
      case None => ([], false)
      case Some((op, rest)) =>
        var (ops, ok) := Replayed(rest);
        ([op] + ops, ok)
  }

  class WriteBatch {
    var rep: Bytes

    constructor ()
      ensures rep == Rep(0, [])
    {
      rep := Zeros(HEADER);
      assert LittleEndian(0, 8) == Zeros(8) && LittleEndian(0, 4) == Zeros(4);
      assert Payload([]) == [];
    }

    method SetCount(n: nat)
      requires |rep| >= HEADER
      modifies this
      ensures rep == old(rep[..8]) + LittleEndian(Wrap32(n), 4) + old(rep[12..])
    {
      rep := rep[..8] + LittleEndian(Wrap32(n), 4) + rep[12..];
    }

    method SetSequence(sequence: uint64, ghost was: uint64, ghost ops: seq<Op>)
      requires rep == Rep(was, ops)
      modifies this
      ensures rep == Rep(sequence, ops)
    {
      RepParts(was, ops);
      rep := LittleEndian(sequence, 8) + rep[8..];
      assert rep == Rep(sequence, ops);
    }

    method Put(key: Bytes, value: Bytes, ghost sequence: uint64, ghost ops: seq<Op>)
      requires rep == Rep(sequence, ops)
      modifies this
      ensures rep == Rep(sequence, ops + [Op.Put(key, value)])
    {
      hide Record, LittleEndian, FromLittleEndian, Payload, Wrap32;
      RepParts(sequence, ops);
      SetCount(Count(rep) + 1);
      rep := rep + [TYPE_VALUE];
      rep := rep + LengthPrefixed(key);
      rep := rep + LengthPrefixed(value);
      RepAppended(sequence, ops, Op.Put(key, value), rep) by { RecordPut(key, value); }
    }

    method Delete(key: Bytes, ghost sequence: uint64, ghost ops: seq<Op>)
      requires rep == Rep(sequence, ops)
      modifies this
      ensures rep == Rep(sequence, ops + [Op.Delete(key)])
    {
      hide Record, LittleEndian, FromLittleEndian, Payload, Wrap32;
      RepParts(sequence, ops);
      SetCount(Count(rep) + 1);
      rep := rep + [TYPE_DELETION];
      rep := rep + LengthPrefixed(key);
      RepAppended(sequence, ops, Op.Delete(key), rep) by { RecordDelete(key); }
    }

    /** Appends another batch's operations: the counts add up and the payloads are joined. */
    method Append(src: WriteBatch, ghost sequence: uint64, ghost ops: seq<Op>, ghost srcSequence: uint64, ghost srcOps: seq<Op>)
      requires rep == Rep(sequence, ops) && src.rep == Rep(srcSequence, srcOps)
      modifies this
      ensures rep == Rep(sequence, ops + srcOps)
    {
      hide Record, LittleEndian, FromLittleEndian, Payload, Wrap32;
      RepParts(sequence, ops);
      RepParts(srcSequence, srcOps);
      Wrap32Sum(|ops|, |srcOps|);
      SetCount(Count(rep) + Count(src.rep));
      rep := rep + src.rep[HEADER..];
      PayloadConcat(ops, srcOps);
      assert rep == Rep(sequence, ops + srcOps);
    }

    /** Replays the batch into a handler; `told` is what the handler was called with, in order. */
    method Iterate() returns (told: seq<Op>, status: Status)
      ensures |rep| < HEADER ==> told == [] && status == Corruption
      ensures |rep| >= HEADER ==>
                var (ops, ok) := Replayed(rep[HEADER..]);
                told == ops && (status == Ok <==> ok && |ops| == Count(rep))
    {
      hide FromLittleEndian, ParseRecord, Replayed;
      told := [];
      if |rep| < HEADER {
        return [], Corruption;
      }
      var input := rep[HEADER..];
      ghost var all := Replayed(input);
      var found := 0;
      while input != []
        invariant found == |told|
        invariant all.0 == told + Replayed(input).0 && all.1 == Replayed(input).1
        decreases |input|
      {
        ReplayedStep(input);
        found := found + 1;
        var r := ParseRecord(input);
        match r {
          case None =>
            return told, Corruption;
          case Some((op, rest)) =>
            told := told + [op];
            input := rest;
        }
      }
      ReplayedEnd();
      status := if found != Count(rep) then Corruption else Ok;
    }
  }

  // ----- lemmas -----

  lemma RecordPut(key: Bytes, value: Bytes)
    ensures Record(Op.Put(key, value)) == [TYPE_VALUE] + LengthPrefixed(key) + LengthPrefixed(value)
  {
  }

  lemma RecordDelete(key: Bytes)
    ensures Record(Op.Delete(key)) == [TYPE_DELETION] + LengthPrefixed(key)
  {
  }

  lemma ReplayedStep(s: Bytes)
    requires s != []
    ensures Replayed(s) ==
            match ParseRecord(s)
            case None => ([], false)
            case Some((op, rest)) => ([op] + Replayed(rest).0, Replayed(rest).1)
  {
  }

  lemma ReplayedEnd()
    ensures Replayed([]) == ([], true)
  {
  }

  lemma RepParts(sequence: uint64, ops: seq<Op>)
    ensures
      var rep := Rep(sequence, ops);
      && Sequence(rep) == sequence && Count(rep) == Wrap32(|ops|)
      && rep[..8] == LittleEndian(sequence, 8) && rep[12..] == Payload(ops)
      && rep[8..] == LittleEndian(Wrap32(|ops|), 4) + Payload(ops)
  {
    hide LittleEndian, FromLittleEndian, Power256, Payload, Wrap32;
    Power256Values();
    LittleEndianRoundTrip(sequence, 8);
    LittleEndianRoundTrip(Wrap32(|ops|), 4);
    var rep := Rep(sequence, ops);
    assert rep[..8] == LittleEndian(sequence, 8);
    assert rep[8..12] == LittleEndian(Wrap32(|ops|), 4);
  }

  lemma PayloadAppend(ops: seq<Op>, op: Op)
    ensures Payload(ops + [op]) == Payload(ops) + Record(op)
  {
    assert (ops + [op])[..|ops|] == ops;
  }

  lemma PayloadEmpty()
    ensures Payload([]) == []
  {
  }

  lemma RepAppended(sequence: uint64, ops: seq<Op>, op: Op, rep: Bytes)
    requires rep == LittleEndian(sequence, 8) + LittleEndian(Wrap32(Wrap32(|ops|) + 1), 4) + Payload(ops) + Record(op)
    ensures rep == Rep(sequence, ops + [op])
  {
    hide LittleEndian, Payload, Record, Wrap32;
    PayloadAppend(ops, op);
    Wrap32Sum(|ops|, 1);
  }

  lemma {:induction false} PayloadConcat(a: seq<Op>, b: seq<Op>)
    ensures Payload(a + b) == Payload(a) + Payload(b)
    decreases |b|
  {
    hide Payload, Record;
    if b == [] {
      assert a + b == a;
      PayloadEmpty();
    } else {
      var b', last := b[..|b| - 1], b[|b| - 1];
      PayloadConcat(a, b');
      assert a + b == (a + b') + [last];
      assert b == b' + [last];
      PayloadAppend(a + b', last);
      PayloadAppend(b', last);
    }
  }

  lemma LengthPrefixedParses(s: Bytes, rest: Bytes)
    requires |s| < UINT32_SIZE
    ensures GetLengthPrefixed(LengthPrefixed(s) + rest) == Some((s, rest))
  {
    hide Varint, ParseVarint, Power128;
    Power128Values();
    VarintRoundTrip(|s|, 5, s + rest);
    assert LengthPrefixed(s) + rest == Varint(|s|) + (s + rest);
  }

  lemma RecordParses(op: Op, rest: Bytes)
    requires Sized(op)
    ensures ParseRecord(Record(op) + rest) == Some((op, rest))
  {
    hide LengthPrefixed, GetLengthPrefixed;
    match op
    case Put(key, value) =>
      LengthPrefixedParses(key, LengthPrefixed(value) + rest);
      LengthPrefixedParses(value, rest);
      assert (Record(op) + rest)[1..] == LengthPrefixed(key) + (LengthPrefixed(value) + rest);
    case Delete(key) =>
      LengthPrefixedParses(key, rest);
      assert (Record(op) + rest)[1..] == LengthPrefixed(key) + rest;
  }

  lemma {:induction false} PayloadReplaysBefore(ops: seq<Op>, rest: Bytes)
    requires AllSized(ops)
    ensures Replayed(Payload(ops) + rest) == (ops + Replayed(rest).0, Replayed(rest).1)
    decreases |ops|
  {
    hide Record, ParseRecord, Payload, Replayed;
    if ops == [] {
      PayloadEmpty();
      assert Payload(ops) + rest == rest;
      assert ops + Replayed(rest).0 == Replayed(rest).0;
    } else {
      var front, last := ops[..|ops| - 1], ops[|ops| - 1];
      PayloadReplaysBefore(front, Record(last) + rest);
      assert ops == front + [last];
      PayloadAppend(front, last);
      assert Payload(ops) + rest == Payload(front) + (Record(last) + rest);
      RecordParses(last, rest);
      ReplayedStep(Record(last) + rest);
      assert front + ([last] + Replayed(rest).0) == ops + Replayed(rest).0;
    }
  }

  /** Replaying a batch tells the handler exactly the operations it was built from, in order. */
  lemma BatchReplays(sequence: uint64, ops: seq<Op>)
    requires AllSized(ops)
    ensures Replayed(Rep(sequence, ops)[HEADER..]) == (ops, true)
    ensures Sequence(Rep(sequence, ops)) == sequence
    ensures |ops| < UINT32_SIZE ==> Count(Rep(sequence, ops)) == |ops|
  {
    hide Payload, Replayed, FromLittleEndian;
    RepParts(sequence, ops);
    PayloadReplaysBefore(ops, []);
    ReplayedEnd();
    assert Payload(ops) + [] == Payload(ops);
    assert ops + [] == ops;
  }

  /** Exactly when a batch replays as it was built, and is accepted: when all lengths, and the number of
      operations, fit 32 bits. */
  lemma BatchReplaysIff(sequence: uint64, ops: seq<Op>)
    ensures
      var rep := Rep(sequence, ops);
      Replayed(rep[HEADER..]) == (ops, true) && Count(rep) == |ops| <==> AllSized(ops) && |ops| < UINT32_SIZE
  {
    hide Payload, Replayed, FromLittleEndian;
    RepParts(sequence, ops);
    var payload := Rep(sequence, ops)[HEADER..];
    if AllSized(ops) {
      BatchReplays(sequence, ops);
    }
    if Replayed(payload) == (ops, true) {
      ReplayedIsSized(payload);
    }
  }

  /** Whatever the bytes are, no operation is told whose lengths need more than 32 bits. */
  lemma {:induction false} ReplayedIsSized(s: Bytes)
    ensures AllSized(Replayed(s).0)
    decreases |s|
  {
    hide Replayed, ParseRecord;
    if s == [] {
      ReplayedEnd();
    } else {
      ReplayedStep(s);
      if ParseRecord(s).Some? {
        ParsedIsSized(s);
        ReplayedIsSized(ParseRecord(s).value.1);
      }
    }
  }

  lemma ParsedIsSized(s: Bytes)
    requires s != [] && ParseRecord(s).Some?
    ensures Sized(ParseRecord(s).value.0)
  {
    hide ParseVarint;
  }
}
