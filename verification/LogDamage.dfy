/**
 Damage that the reader's checks detect: which records survive it, and that fragments of different
 records are never joined.
 */
module LogDamage {
  import opened ByteStrings
  import opened LogFormat
  import opened LogProofs

  // ----- the damaged file seen next to what was written -----

  /** The damaged bytes at the place where the writer put its next fragment. */
  function AtFragment(off: nat, s: Bytes): Bytes
    requires off <= BLOCK_SIZE && |Padding(off)| <= |s|
  {
    s[|Padding(off)|..]
  }

  function BehindFragment(off: nat, data: Bytes, s: Bytes): Bytes
    requires off <= BLOCK_SIZE
    requires |Padding(off)| + HEADER_SIZE + FragmentLength(off, data) <= |s|
  {
    s[|Padding(off)| + HEADER_SIZE + FragmentLength(off, data)..]
  }

  predicate Fits(crc: Checksum, off: nat, data: Bytes, begin: bool, s: Bytes)
    requires off <= BLOCK_SIZE
  {
    |Framed(crc, off, data, begin)| <= |s|
  }

  lemma FitsStep(crc: Checksum, off: nat, data: Bytes, begin: bool, s: Bytes)
    requires off <= BLOCK_SIZE && Fits(crc, off, data, begin, s)
    ensures |Padding(off)| + HEADER_SIZE + FragmentLength(off, data) <= |s|
    ensures BufferLength(Start(off), AtFragment(off, s)) >= HEADER_SIZE
    ensures FragmentLength(off, data) < |data| ==>
              Fits(crc, AfterFragment(off, data), data[FragmentLength(off, data)..], false, BehindFragment(off, data, s))
    ensures FragmentLength(off, data) < |data| ==>
              |Framed(crc, off, data, begin)| == |Padding(off)| + HEADER_SIZE + FragmentLength(off, data) +
              |Framed(crc, AfterFragment(off, data), data[FragmentLength(off, data)..], false)|
    ensures FragmentLength(off, data) == |data| ==>
              |Framed(crc, off, data, begin)| == |Padding(off)| + HEADER_SIZE + FragmentLength(off, data)
  {
    FramedSplit(crc, off, data, begin);
  }

  /** The fragment is intact and no damaged fragment comes before it in its block. */
  predicate Seen(crc: Checksum, off: nat, data: Bytes, begin: bool, s: Bytes, lost: bool)
    requires off <= BLOCK_SIZE && Fits(crc, off, data, begin, s)
  {
    FitsStep(crc, off, data, begin, s);
    !(lost && Start(off) != 0) && Fragment(crc, off, data, begin) <= AtFragment(off, s)
  }

  /** All fragments of the record are seen. */
  predicate Survives(crc: Checksum, off: nat, data: Bytes, begin: bool, s: Bytes, lost: bool)
    requires off <= BLOCK_SIZE && Fits(crc, off, data, begin, s)
    decreases |data|, if off == BLOCK_SIZE - HEADER_SIZE then 1 else 0
  {
    FitsStep(crc, off, data, begin, s);
    var n := FragmentLength(off, data);
    && Seen(crc, off, data, begin, s, lost)
    && (n == |data| ||
        Survives(crc, AfterFragment(off, data), data[n..], false, BehindFragment(off, data, s), false))
  }

  /** Whether the rest of the current block is lost behind the record. */
  predicate LostBehind(crc: Checksum, off: nat, data: Bytes, begin: bool, s: Bytes, lost: bool)
    requires off <= BLOCK_SIZE && Fits(crc, off, data, begin, s)
    decreases |data|, if off == BLOCK_SIZE - HEADER_SIZE then 1 else 0
  {
    FitsStep(crc, off, data, begin, s);
    var n := FragmentLength(off, data);
    var lost' := !Seen(crc, off, data, begin, s, lost);
    if n == |data| then lost'
    else LostBehind(crc, AfterFragment(off, data), data[n..], false, BehindFragment(off, data, s), lost')
  }

  /** Every fragment of the record that the reader looks at is either intact or refused by its own checks (its
      length field leaves the block, its checksum is wrong, or it reads as an empty record of type zero).
      Behind a refused fragment the reader does not look until the next block, so that anything may stand
      there. */
  predicate Detected(crc: Checksum, checksum: bool, off: nat, data: Bytes, begin: bool, s: Bytes, lost: bool)
    requires off <= BLOCK_SIZE && Fits(crc, off, data, begin, s)
    decreases |data|, if off == BLOCK_SIZE - HEADER_SIZE then 1 else 0
  {
    FitsStep(crc, off, data, begin, s);
    var n := FragmentLength(off, data);
    && (|| (lost && Start(off) != 0)
        || Fragment(crc, off, data, begin) <= AtFragment(off, s)
        || !ParseBuffer(crc, checksum, Start(off), AtFragment(off, s)).0.Piece?)
    && (n == |data| ||
        Detected(crc, checksum, AfterFragment(off, data), data[n..], false, BehindFragment(off, data, s),
                 !Seen(crc, off, data, begin, s, lost)))
  }

  predicate LogDetected(crc: Checksum, checksum: bool, off: nat, records: seq<Bytes>, s: Bytes, lost: bool)
    requires off <= BLOCK_SIZE && |s| == |Written(crc, off, records)|
    decreases |records|
  {
    records == [] ||
    (&& Detected(crc, checksum, off, records[0], true, s, lost)
     && LogDetected(crc, checksum, OffsetAfter(off, records[0]), records[1..],
                    s[|Framed(crc, off, records[0], true)|..], LostBehind(crc, off, records[0], true, s, lost)))
  }

  /** The records all of whose fragments are seen. */
  function Surviving(crc: Checksum, off: nat, records: seq<Bytes>, s: Bytes, lost: bool): seq<Bytes>
    requires off <= BLOCK_SIZE && |s| == |Written(crc, off, records)|
    decreases |records|
  {
    if records == [] then []
    else
      (if Survives(crc, off, records[0], true, s, lost) then [records[0]] else []) +
      Surviving(crc, OffsetAfter(off, records[0]), records[1..], s[|Framed(crc, off, records[0], true)|..],
                LostBehind(crc, off, records[0], true, s, lost))
  }

  // ----- the reader against that -----

  /** Behind damage the reader stands at the end of the block. */
  function ReaderAt(off: nat, s: Bytes, lost: bool): (p: Position)
    requires off <= BLOCK_SIZE
    ensures p.off <= BLOCK_SIZE
  {
    if lost then Position(off + BufferLength(off, s), s[BufferLength(off, s)..]) else Position(off, s)
  }

  function Reading(crc: Checksum, checksum: bool, p: Position, inFragment: bool, scratch: Bytes): seq<Bytes>
    requires p.off <= BLOCK_SIZE
  {
    Recovered(crc, checksum, p.off, p.s, inFragment, scratch).records
  }

  /** A lost reader does not move while the writer's fragments stay in the same block. */
  lemma LostInSameBlock(off: nat, data: Bytes, s: Bytes)
    requires off <= BLOCK_SIZE && Start(off) == off
    requires HEADER_SIZE + FragmentLength(off, data) <= |s|
    ensures ReaderAt(AfterFragment(off, data), BehindFragment(off, data, s), true) == ReaderAt(off, s, true)
  {
    var k := HEADER_SIZE + FragmentLength(off, data);
    assert BehindFragment(off, data, s) == s[k..];
    assert s[k..][BufferLength(off + k, s[k..])..] == s[BufferLength(off, s)..];
  }

  /** At the start of a block a lost reader is back in step. */
  lemma BackInStep(crc: Checksum, checksum: bool, off: nat, s: Bytes, inFragment: bool, scratch: Bytes)
    requires off <= BLOCK_SIZE && BLOCK_SIZE - off < HEADER_SIZE && |Padding(off)| + HEADER_SIZE <= |s|
    ensures Reading(crc, checksum, ReaderAt(off, s, true), inFragment, scratch)
            == Reading(crc, checksum, Position(off, s), inFragment, scratch)
  {
    var n := BufferLength(off, s);
    assert n == BLOCK_SIZE - off == |Padding(off)|;
    assert s[n..][0..] == s[n..];
    assert NextEvent(crc, checksum, BLOCK_SIZE, s[n..]) == NextEvent(crc, checksum, off, s);
  }

  /** After kBadRecord, or at the end of the file, nothing is being reassembled. */
  lemma AfterBadEvent(crc: Checksum, checksum: bool, off: nat, s: Bytes, inFragment: bool, scratch: Bytes)
    requires off <= BLOCK_SIZE
    requires var (ev, p) := NextEvent(crc, checksum, off, s); ev.Bad? || (ev.Eof? && p.s == [])
    ensures Reading(crc, checksum, Position(off, s), inFragment, scratch)
            == Reading(crc, checksum, NextEvent(crc, checksum, off, s).1, false, [])
  {
    var (ev, p) := NextEvent(crc, checksum, off, s);
    if ev.Eof? {
      NothingLeft(crc, checksum, p.off, false, []);
    }
  }

  lemma FragmentIsNext(crc: Checksum, checksum: bool, off: nat, s: Bytes)
    requires off <= BLOCK_SIZE && |Padding(off)| + HEADER_SIZE <= |s|
    requires BufferLength(Start(off), AtFragment(off, s)) >= HEADER_SIZE
    ensures NextEvent(crc, checksum, off, s) == ParseBuffer(crc, checksum, Start(off), AtFragment(off, s))
  {
    assert s[0..] == s;
  }

  lemma RefusedParse(crc: Checksum, checksum: bool, off: nat, s: Bytes)
    requires off <= BLOCK_SIZE && BufferLength(off, s) >= HEADER_SIZE
    requires !ParseBuffer(crc, checksum, off, s).0.Piece?
    ensures ParseBuffer(crc, checksum, off, s).1 == ReaderAt(off, s, true)
    ensures ParseBuffer(crc, checksum, off, s).0.Eof? ==> ReaderAt(off, s, true).s == []
  {
  }

  /** A refused fragment costs the rest of the block and ends any record being reassembled. */
  lemma RefusedStep(crc: Checksum, checksum: bool, off: nat, data: Bytes, s: Bytes, inFragment: bool, scratch: Bytes)
    requires off <= BLOCK_SIZE
    requires |Padding(off)| + HEADER_SIZE + FragmentLength(off, data) <= |s|
    requires BufferLength(Start(off), AtFragment(off, s)) >= HEADER_SIZE
    requires !ParseBuffer(crc, checksum, Start(off), AtFragment(off, s)).0.Piece?
    ensures Reading(crc, checksum, Position(off, s), inFragment, scratch)
            == Reading(crc, checksum, ReaderAt(AfterFragment(off, data), BehindFragment(off, data, s), true), false, [])
  {
    hide Recovered, Reading, NextEvent, ParseBuffer, ReaderAt;
    var o, a := Start(off), AtFragment(off, s);
    FragmentIsNext(crc, checksum, off, s);
    RefusedParse(crc, checksum, o, a);
    AfterBadEvent(crc, checksum, off, s, inFragment, scratch);
    assert BehindFragment(o, data, a) == BehindFragment(off, data, s);
    LostInSameBlock(o, data, a);
  }

  /** An intact fragment whose record has already lost a piece is passed over. */
  lemma OrphanStep(crc: Checksum, checksum: bool, off: nat, data: Bytes, s: Bytes)
    requires off <= BLOCK_SIZE
    requires Padding(off) + Fragment(crc, off, data, false) <= s
    ensures Reading(crc, checksum, Position(off, s), false, [])
            == Reading(crc, checksum, Position(AfterFragment(off, data), BehindFragment(off, data, s)), false, [])
  {
    FragmentIsRead(crc, checksum, off, data, false, s);
  }

  lemma IntactWithPadding(crc: Checksum, checksum: bool, off: nat, data: Bytes, begin: bool, s: Bytes)
    requires off <= BLOCK_SIZE && |Padding(off)| <= |s|
    requires Fragment(crc, off, data, begin) <= AtFragment(off, s)
    ensures exists t: Bytes :: SameButPadding(off, s, t) && Padding(off) + Fragment(crc, off, data, begin) <= t
  {
    var t := Padding(off) + AtFragment(off, s);
    assert AtFragment(off, t) == AtFragment(off, s);
    assert SameButPadding(off, s, t);
  }

  /** The trailer's contents do not matter: the reader skips it unseen. */
  predicate SameButPadding(off: nat, s: Bytes, t: Bytes)
    requires off <= BLOCK_SIZE && |Padding(off)| <= |s|
  {
    |t| == |s| && t[|Padding(off)|..] == s[|Padding(off)|..]
  }

  lemma PaddingIsSkipped(crc: Checksum, checksum: bool, off: nat, s: Bytes, t: Bytes, inFragment: bool, scratch: Bytes)
    requires off <= BLOCK_SIZE && |Padding(off)| + HEADER_SIZE <= |s|
    requires SameButPadding(off, s, t)
    ensures Reading(crc, checksum, Position(off, s), inFragment, scratch)
            == Reading(crc, checksum, Position(off, t), inFragment, scratch)
  {
    if Padding(off) == [] {
      assert s[0..] == s && t[0..] == t;
    } else {
      assert NextEvent(crc, checksum, off, s) == NextEvent(crc, checksum, off, t);
    }
  }

  /** The reader passes one seen fragment. */
  lemma SeenStep(crc: Checksum, checksum: bool, off: nat, data: Bytes, begin: bool, s: Bytes,
                 inFragment: bool, scratch: Bytes)
    requires off <= BLOCK_SIZE && Fits(crc, off, data, begin, s)
    requires |Padding(off)| + HEADER_SIZE + FragmentLength(off, data) <= |s|
    requires Fragment(crc, off, data, begin) <= AtFragment(off, s)
    requires inFragment ==> !begin
    requires !inFragment ==> scratch == []
    ensures
      var n := FragmentLength(off, data);
      var next := Position(AfterFragment(off, data), BehindFragment(off, data, s));
      Reading(crc, checksum, Position(off, s), inFragment, scratch) ==
      if !begin && !inFragment then Reading(crc, checksum, next, false, [])
      else if n == |data| then [scratch + data] + Reading(crc, checksum, next, false, [])
      else Reading(crc, checksum, next, true, scratch + data[..n])
  {
    hide Recovered, Framed, Fragment;
    IntactWithPadding(crc, checksum, off, data, begin, s);
    var t: Bytes :| SameButPadding(off, s, t) && Padding(off) + Fragment(crc, off, data, begin) <= t;
    PaddingIsSkipped(crc, checksum, off, s, t, inFragment, scratch);
    var k := HEADER_SIZE + FragmentLength(off, data);
    assert t[|Padding(off)|..][k..] == t[|Padding(off)| + k..];
    assert s[|Padding(off)|..][k..] == s[|Padding(off)| + k..];
    if !begin && !inFragment {
      OrphanStep(crc, checksum, off, data, t);
    } else {
      IntactStep(crc, checksum, off, data, begin, scratch, t);
    }
  }

  /** One record under detected damage. */
  lemma {:induction false} DamagedRecord(
    crc: Checksum, checksum: bool, off: nat, data: Bytes, begin: bool, s: Bytes,
    lost: bool, inFragment: bool, scratch: Bytes)
    requires 0 < off <= BLOCK_SIZE && Fits(crc, off, data, begin, s)
    requires Detected(crc, checksum, off, data, begin, s, lost)
    requires inFragment ==> !begin && !lost
    requires !inFragment ==> scratch == []
    ensures
      var rest := ReaderAt(OffsetAfter(off, data), s[|Framed(crc, off, data, begin)|..],
                           LostBehind(crc, off, data, begin, s, lost));
      Reading(crc, checksum, ReaderAt(off, s, lost), inFragment, scratch) ==
      (if (begin || inFragment) && Survives(crc, off, data, begin, s, lost) then [scratch + data] else []) +
      Reading(crc, checksum, rest, false, [])
    decreases |data|, if off == BLOCK_SIZE - HEADER_SIZE then 1 else 0
  {
    hide Recovered, Reading, Framed, Fragment, ParseBuffer, ReaderAt, Padding, Fits;
    FitsStep(crc, off, data, begin, s);
    var n := FragmentLength(off, data);
    var seen := Seen(crc, off, data, begin, s, lost);
    var off', s' := AfterFragment(off, data), BehindFragment(off, data, s);
    var inFragment' := seen && (begin || inFragment) && n < |data|;
    var scratch' := if inFragment' then scratch + data[..n] else [];
    var now := if seen && (begin || inFragment) && n == |data| then [scratch + data] else [];
    assert Reading(crc, checksum, ReaderAt(off, s, lost), inFragment, scratch)
        == now + Reading(crc, checksum, ReaderAt(off', s', !seen), inFragment', scratch') by {
      OneFragment(crc, checksum, off, data, begin, s, lost, inFragment, scratch);
    }
    if n == |data| {
    } else {
      DamagedRecord(crc, checksum, off', data[n..], false, s', !seen, inFragment', scratch');
      if inFragment' {
        assert scratch' + data[n..] == scratch + data;
      }
      assert s'[|Framed(crc, off', data[n..], false)|..] == s[|Framed(crc, off, data, begin)|..];
    }
  }

  /** One fragment under detected damage. */
  lemma OneFragment(
    crc: Checksum, checksum: bool, off: nat, data: Bytes, begin: bool, s: Bytes,
    lost: bool, inFragment: bool, scratch: Bytes)
    requires 0 < off <= BLOCK_SIZE && Fits(crc, off, data, begin, s)
    requires Detected(crc, checksum, off, data, begin, s, lost)
    requires inFragment ==> !begin && !lost
    requires !inFragment ==> scratch == []
    requires |Padding(off)| + HEADER_SIZE + FragmentLength(off, data) <= |s|
    ensures
      var n := FragmentLength(off, data);
      var seen := Seen(crc, off, data, begin, s, lost);
      var inFragment' := seen && (begin || inFragment) && n < |data|;
      Reading(crc, checksum, ReaderAt(off, s, lost), inFragment, scratch) ==
      (if seen && (begin || inFragment) && n == |data| then [scratch + data] else []) +
      Reading(crc, checksum, ReaderAt(AfterFragment(off, data), BehindFragment(off, data, s), !seen),
              inFragment', if inFragment' then scratch + data[..n] else [])
  {
    hide Recovered, Reading, Framed, Fragment, ParseBuffer;
    FitsStep(crc, off, data, begin, s);
    if lost && Start(off) != 0 {
      assert Padding(off) == [];
      LostInSameBlock(off, data, s);
    } else {
      if lost {
        BackInStep(crc, checksum, off, s, inFragment, scratch);
      }
      if Seen(crc, off, data, begin, s, lost) {
        SeenStep(crc, checksum, off, data, begin, s, inFragment, scratch);
      } else {
        RefusedStep(crc, checksum, off, data, s, inFragment, scratch);
      }
    }
  }

  lemma {:induction false} DamagedLogFrom(
    crc: Checksum, checksum: bool, off: nat, records: seq<Bytes>, s: Bytes, lost: bool)
    requires 0 < off <= BLOCK_SIZE && |s| == |Written(crc, off, records)|
    requires LogDetected(crc, checksum, off, records, s, lost)
    ensures Reading(crc, checksum, ReaderAt(off, s, lost), false, []) == Surviving(crc, off, records, s, lost)
    decreases |records|
  {
    hide Recovered, Reading, Framed, Detected, Survives, LostBehind;
    if records == [] {
      NothingLeft(crc, checksum, off, false, []);
      assert s == [];
      EmptyReading(crc, checksum, ReaderAt(off, s, lost));
    } else {
      DamagedRecord(crc, checksum, off, records[0], true, s, lost, false, []);
      assert [] + records[0] == records[0];
      DamagedLogFrom(crc, checksum, OffsetAfter(off, records[0]), records[1..],
                     s[|Framed(crc, off, records[0], true)|..], LostBehind(crc, off, records[0], true, s, lost));
    }
  }

  lemma EmptyReading(crc: Checksum, checksum: bool, p: Position)
    requires p.off <= BLOCK_SIZE && p.s == []
    ensures Reading(crc, checksum, p, false, []) == []
  {
    NothingLeft(crc, checksum, p.off, false, []);
  }

  /** Under damage that the checks detect, exactly the records survive all of whose fragments are
      intact and have only intact fragments before them in their block. */
  lemma DetectedDamage(crc: Checksum, checksum: bool, records: seq<Bytes>, damaged: Bytes)
    requires |damaged| == |Written(crc, BLOCK_SIZE, records)|
    requires LogDetected(crc, checksum, BLOCK_SIZE, records, damaged, false)
    ensures Recover(crc, checksum, damaged).records == Surviving(crc, BLOCK_SIZE, records, damaged, false)
  {
    DamagedLogFrom(crc, checksum, BLOCK_SIZE, records, damaged, false);
  }

  ghost predicate Subsequence<T(!new)>(a: seq<T>, b: seq<T>)
    decreases |b|
  {
    if b == [] then a == []
    else Subsequence(a, b[1..]) || (a != [] && a[0] == b[0] && Subsequence(a[1..], b[1..]))
  }

  lemma {:induction false} SurvivingIsSubsequence(
    crc: Checksum, off: nat, records: seq<Bytes>, s: Bytes, lost: bool)
    requires off <= BLOCK_SIZE && |s| == |Written(crc, off, records)|
    ensures Subsequence(Surviving(crc, off, records, s, lost), records)
    decreases |records|
  {
    if records != [] {
      SurvivingIsSubsequence(crc, OffsetAfter(off, records[0]), records[1..],
                             s[|Framed(crc, off, records[0], true)|..],
                             LostBehind(crc, off, records[0], true, s, lost));
      var rest := Surviving(crc, OffsetAfter(off, records[0]), records[1..],
                            s[|Framed(crc, off, records[0], true)|..],
                            LostBehind(crc, off, records[0], true, s, lost));
      assert ([records[0]] + rest)[1..] == rest;
      assert [] + rest == rest;
    }
  }

  /** The reader never returns anything but written records, whole and in their order. */
  lemma NeverStitched(crc: Checksum, checksum: bool, records: seq<Bytes>, damaged: Bytes)
    requires |damaged| == |Written(crc, BLOCK_SIZE, records)|
    requires LogDetected(crc, checksum, BLOCK_SIZE, records, damaged, false)
    ensures Subsequence(Recover(crc, checksum, damaged).records, records)
  {
    DetectedDamage(crc, checksum, records, damaged);
    SurvivingIsSubsequence(crc, BLOCK_SIZE, records, damaged, false);
  }
}
