/**
 Physical records whose type no writer uses.  The reader numbers its own results kEof and kBadRecord right
 behind the types, so that it takes intact records of types 5 and 6 for them.
 */
module LogForeign {
  import opened ByteStrings
  import opened LogFormat
  import opened LogProofs

  /** The record fits the block, and its type is not one of the four that writers use (an empty record of
      type zero is preallocated space). */
  predicate Foreign(off: nat, t: byte, payload: Bytes)
    requires off <= BLOCK_SIZE
  {
    && Start(off) + HEADER_SIZE + |payload| <= BLOCK_SIZE
    && (t > LAST_TYPE || (t == ZERO_TYPE && payload != []))
  }

  function ForeignRecord(crc: Checksum, off: nat, t: byte, payload: Bytes): Bytes
    requires off <= BLOCK_SIZE && Foreign(off, t, payload)
  {
    Padding(off) + Physical(crc, t, payload)
  }

  /** What the reader says about an intact foreign record: an interrupted record only for type 6, everything
      it drops for the others. */
  function Complaint(t: byte, payload: Bytes, inFragment: bool, scratch: Bytes): seq<Report> {
    if t == BAD_RECORD_TYPE then (if inFragment then [Report(|scratch|, ErrorInMiddle)] else [])
    else [Report(|payload| + (if inFragment then |scratch| else 0), UnknownType)]
  }

  /** Type 5 ends the log: what follows is neither returned nor reported.  Any other foreign record is passed
      over, and with it the record being reassembled; type 6 without a word about itself. */
  lemma ForeignIsPassed(
    crc: Checksum, checksum: bool, off: nat, t: byte, payload: Bytes, rest: Bytes, inFragment: bool, scratch: Bytes)
    requires off <= BLOCK_SIZE && Foreign(off, t, payload)
    ensures
      var after := Recovered(crc, checksum, Start(off) + HEADER_SIZE + |payload|, rest, false, []);
      Recovered(crc, checksum, off, ForeignRecord(crc, off, t, payload) + rest, inFragment, scratch) ==
      if t == EOF_TYPE then Outcome([], [])
      else Outcome(after.records, Complaint(t, payload, inFragment, scratch) + after.reports)
  {
    hide Recovered, NextEvent, Physical, Padding;
    var w := ForeignRecord(crc, off, t, payload);
    var s := w + rest;
    assert s[..|w|] == w && s[|w|..] == rest;
    PhysicalIsRead(crc, checksum, off, t, payload, s);
    OneMoreEvent(crc, checksum, off, s, inFragment, scratch);
  }

  // ----- in a whole log -----

  /** How much of the current block is used after a sequence of records. */
  function OffsetBehind(off: nat, records: seq<Bytes>): (o: nat)
    requires off <= BLOCK_SIZE
    ensures o <= BLOCK_SIZE
    decreases |records|
  {
    if records == [] then off else OffsetBehind(OffsetAfter(off, records[0]), records[1..])
  }

  /** A log with anything behind it: its records are returned, and reading goes on there. */
  lemma {:induction false} LogThenRest(crc: Checksum, checksum: bool, off: nat, records: seq<Bytes>, rest: Bytes)
    requires off <= BLOCK_SIZE
    ensures
      var after := Recovered(crc, checksum, OffsetBehind(off, records), rest, false, []);
      Recovered(crc, checksum, off, Written(crc, off, records) + rest, false, [])
      == Outcome(records + after.records, after.reports)
    decreases |records|
  {
    hide Recovered, Framed, OffsetAfter, Written;
    WrittenOpen(crc, off, records);
    if records == [] {
      assert [] + rest == rest;
    } else {
      var framed, off' := Framed(crc, off, records[0], true), OffsetAfter(off, records[0]);
      var later := Written(crc, off', records[1..]) + rest;
      var s := Written(crc, off, records) + rest;
      assert s == framed + later;
      assert s[|framed|..] == later && s[..|framed|] == framed;
      RecordIsRead(crc, checksum, off, records[0], true, [], s);
      assert [] + records[0] == records[0];
      LogThenRest(crc, checksum, off', records[1..], rest);
    }
  }

  /** A log with an intact foreign record behind the records `before`. */
  lemma ForeignInLog(crc: Checksum, checksum: bool, before: seq<Bytes>, t: byte, payload: Bytes, rest: Bytes)
    requires Foreign(OffsetBehind(BLOCK_SIZE, before), t, payload)
    ensures
      var off := OffsetBehind(BLOCK_SIZE, before);
      var after := Recovered(crc, checksum, Start(off) + HEADER_SIZE + |payload|, rest, false, []);
      Recover(crc, checksum, Written(crc, 0, before) + ForeignRecord(crc, off, t, payload) + rest) ==
      if t == EOF_TYPE then Outcome(before, [])
      else Outcome(before + after.records, Complaint(t, payload, false, []) + after.reports)
  {
    hide Recovered, Framed, OffsetAfter, Written, Physical, Padding;
    var off := OffsetBehind(BLOCK_SIZE, before);
    var tail := ForeignRecord(crc, off, t, payload) + rest;
    SameFromBlockEnd(crc, before);
    LogThenRest(crc, checksum, BLOCK_SIZE, before, tail);
    assert Written(crc, 0, before) + ForeignRecord(crc, off, t, payload) + rest == Written(crc, 0, before) + tail;
    ForeignIsPassed(crc, checksum, off, t, payload, rest, false, []);
    assert before + [] == before;
  }

  /** Exactly when an intact record of a foreign type is reported, and nothing but it is lost: unless its type
      is one of the reader's own two results. */
  lemma ForeignIsReportedIff(crc: Checksum, checksum: bool, before: seq<Bytes>, t: byte, payload: Bytes, rest: Bytes)
    requires Foreign(OffsetBehind(BLOCK_SIZE, before), t, payload)
    ensures
      var off := OffsetBehind(BLOCK_SIZE, before);
      var after := Recovered(crc, checksum, Start(off) + HEADER_SIZE + |payload|, rest, false, []);
      Recover(crc, checksum, Written(crc, 0, before) + ForeignRecord(crc, off, t, payload) + rest)
      == Outcome(before + after.records, [Report(|payload|, UnknownType)] + after.reports)
      <==> t != EOF_TYPE && t != BAD_RECORD_TYPE
  {
    hide Recovered, Recover, OffsetAfter, Written, ForeignRecord;
    ForeignInLog(crc, checksum, before, t, payload, rest);
    var off := OffsetBehind(BLOCK_SIZE, before);
    var after := Recovered(crc, checksum, Start(off) + HEADER_SIZE + |payload|, rest, false, []);
    assert |[Report(|payload|, UnknownType)] + after.reports| == 1 + |after.reports|;
    assert [] + after.reports == after.reports;
  }

  /** A log in which an empty record of type 5 stands between two written ones: the second is lost without a
      report.  With type 6 it is returned, again without a report; with type 7 it is, with one. */
  lemma RecordBehindType5IsLost(crc: Checksum, checksum: bool, t: byte)
    requires 5 <= t <= 7
    ensures
      var file := Written(crc, 0, [[1]]) + Physical(crc, t, []) + Framed(crc, 15, [2], true);
      Recover(crc, checksum, file) ==
      if t == 5 then Outcome([[1]], [])
      else Outcome([[1], [2]], if t == 6 then [] else [Report(0, UnknownType)])
  {
    hide Recovered, Framed, Written, Physical;
    assert OffsetBehind(BLOCK_SIZE, [[1]]) == 8;
    assert Padding(8) == [];
    ForeignInLog(crc, checksum, [[1]], t, [], Framed(crc, 15, [2], true));
    assert ForeignRecord(crc, 8, t, []) == Physical(crc, t, []);
    var s := Framed(crc, 15, [2], true);
    RecordIsRead(crc, checksum, 15, [2], true, [], s);
    NothingLeft(crc, checksum, OffsetAfter(15, [2]), false, []);
    assert s[|s|..] == [] && [] + [2] == [2];
  }
}
