/**
 What the log promises: reading undoes writing, a torn tail costs only the unfinished record, and
 detected damage never joins fragments of different records.
 */
module LogProofs {
  import opened ByteStrings
  import opened LogFormat

  /** `Recovered` opened once. */
  lemma OneMoreEvent(crc: Checksum, checksum: bool, off: nat, s: Bytes, inFragment: bool, scratch: Bytes)
    requires off <= BLOCK_SIZE
    ensures
      var (ev, p) := NextEvent(crc, checksum, off, s);
      Recovered(crc, checksum, off, s, inFragment, scratch) ==
      match React(ev, inFragment, scratch)
      case Stop => Outcome([], [])
      case Return(reported, record) =>
        var rest := Recovered(crc, checksum, p.off, p.s, false, []);
        Outcome([record] + rest.records, reported + rest.reports)
      case Continue(reported, inFragment', scratch') =>
        var rest := Recovered(crc, checksum, p.off, p.s, inFragment', scratch');
        Outcome(rest.records, reported + rest.reports)
  {
  }

  // ----- reading one intact fragment -----

  lemma PhysicalParses(crc: Checksum, t: byte, payload: Bytes, s: Bytes)
    requires |payload| <= 0xffff
    requires Physical(crc, t, payload) <= s
    ensures PayloadLength(s) == |payload| && s[6] == t
    ensures s[HEADER_SIZE..HEADER_SIZE + |payload|] == payload
    ensures ChecksumOk(crc, s)
  {
    var bs := Physical(crc, t, payload);
    assert s[..|bs|] == bs;
    assert bs[4] == |payload| % 256 && bs[5] == |payload| / 256 && bs[6] == t;
    assert s[..4] == bs[..4] == LittleEndian(crc([t] + payload), 4);
    assert bs[HEADER_SIZE..] == payload;
    Power256Values();
    LittleEndianRoundTrip(crc([t] + payload), 4);
  }

  /** An intact physical record (after the trailer, if any) is returned as it was written, whatever its
      type; only an empty one of type zero is passed over. */
  lemma PhysicalIsRead(crc: Checksum, checksum: bool, off: nat, t: byte, payload: Bytes, s: Bytes)
    requires off <= BLOCK_SIZE && Start(off) + HEADER_SIZE + |payload| <= BLOCK_SIZE
    requires Padding(off) + Physical(crc, t, payload) <= s
    requires t != ZERO_TYPE || payload != []
    ensures NextEvent(crc, checksum, off, s) ==
            (Piece(t, payload),
             Position(Start(off) + HEADER_SIZE + |payload|, s[|Padding(off)| + HEADER_SIZE + |payload|..]))
  {
    hide Physical, ChecksumOk, PayloadLength, ParseBuffer, NextEvent;
    var pad, record := Padding(off), Physical(crc, t, payload);
    var s' := s[|pad|..];
    PrefixOfConcat(pad, record, s);
    PaddingIsPassed(crc, checksum, off, s);
    PhysicalParses(crc, t, payload, s');
    PieceIsParsed(crc, checksum, Start(off), s');
  }

  /** The reader skips what is left of a block that has no room for a header. */
  lemma PaddingIsPassed(crc: Checksum, checksum: bool, off: nat, s: Bytes)
    requires off <= BLOCK_SIZE && |Padding(off)| + HEADER_SIZE <= |s|
    ensures BufferLength(Start(off), s[|Padding(off)|..]) >= HEADER_SIZE
    ensures NextEvent(crc, checksum, off, s) == ParseBuffer(crc, checksum, Start(off), s[|Padding(off)|..])
  {
    hide ParseBuffer;
    if Padding(off) == [] {
      assert s[0..] == s;
    }
  }

  lemma PieceIsParsed(crc: Checksum, checksum: bool, off: nat, s: Bytes)
    requires off <= BLOCK_SIZE && BufferLength(off, s) >= HEADER_SIZE
    requires HEADER_SIZE + PayloadLength(s) <= BufferLength(off, s) && ChecksumOk(crc, s)
    requires s[6] != ZERO_TYPE || PayloadLength(s) != 0
    ensures
      var n := HEADER_SIZE + PayloadLength(s);
      ParseBuffer(crc, checksum, off, s) == (Piece(s[6], s[HEADER_SIZE..n]), Position(off + n, s[n..]))
  {
    hide ChecksumOk, PayloadLength;
  }

  /** An intact fragment is returned as it was written. */
  lemma FragmentIsRead(crc: Checksum, checksum: bool, off: nat, data: Bytes, begin: bool, s: Bytes)
    requires off <= BLOCK_SIZE
    requires Padding(off) + Fragment(crc, off, data, begin) <= s
    ensures
      var n := FragmentLength(off, data);
      NextEvent(crc, checksum, off, s) ==
      (Piece(TypeFor(begin, n == |data|), data[..n]),
       Position(AfterFragment(off, data), s[|Padding(off)| + HEADER_SIZE + n..]))
  {
    hide NextEvent, Physical, Padding;
    var n := FragmentLength(off, data);
    PhysicalIsRead(crc, checksum, off, TypeFor(begin, n == |data|), data[..n], s);
  }

  /** A fragment cut short by the end of the file reads as end of file. */
  lemma TornFragmentIsEof(crc: Checksum, checksum: bool, off: nat, data: Bytes, begin: bool, s: Bytes)
    requires off <= BLOCK_SIZE
    requires s < Padding(off) + Fragment(crc, off, data, begin)
    ensures NextEvent(crc, checksum, off, s).0 == Eof
  {
    var n := FragmentLength(off, data);
    var pad := Padding(off);
    var frag := Fragment(crc, off, data, begin);
    if |s| >= |pad| + HEADER_SIZE {
      var s' := s[|pad|..];
      assert s' == (pad + frag)[..|s|][|pad|..] == frag[..|s'|];
      assert frag[4] == n % 256 && frag[5] == n / 256;
      assert PayloadLength(s') == n;
    }
  }

  // ----- one record -----

  /** The effect of one intact fragment on the reassembly state. */
  lemma IntactStep(crc: Checksum, checksum: bool, off: nat, data: Bytes, begin: bool, scratch: Bytes, s: Bytes)
    requires off <= BLOCK_SIZE
    requires Padding(off) + Fragment(crc, off, data, begin) <= s
    requires begin ==> scratch == []
    ensures
      var n := FragmentLength(off, data);
      var off' := AfterFragment(off, data);
      var s' := s[|Padding(off)| + HEADER_SIZE + n..];
      Recovered(crc, checksum, off, s, !begin, scratch) ==
      if n == |data| then
        var rest := Recovered(crc, checksum, off', s', false, []);
        Outcome([scratch + data] + rest.records, rest.reports)
      else
        Recovered(crc, checksum, off', s', true, scratch + data[..n])
  {
    hide Recovered, NextEvent, Fragment, Padding;
    FragmentIsRead(crc, checksum, off, data, begin, s);
    OneMoreEvent(crc, checksum, off, s, !begin, scratch);
    var n := FragmentLength(off, data);
    if n == |data| {
      assert data[..n] == data;
    }
    if begin {
      assert scratch + data[..n] == data[..n];
    }
  }

  /** `Framed` opened once: a first fragment, then the rest of the record. */
  lemma FramedSplit(crc: Checksum, off: nat, data: Bytes, begin: bool)
    requires off <= BLOCK_SIZE
    ensures
      var n := FragmentLength(off, data);
      var w := Padding(off) + Fragment(crc, off, data, begin);
      && |w| == |Padding(off)| + HEADER_SIZE + n
      && Framed(crc, off, data, begin) ==
         if n == |data| then w else w + Framed(crc, AfterFragment(off, data), data[n..], false)
    ensures
      var n := FragmentLength(off, data);
      && OffsetAfter(off, data) ==
         (if n == |data| then AfterFragment(off, data) else OffsetAfter(AfterFragment(off, data), data[n..]))
      && (n == 0 && data != [] ==> off == BLOCK_SIZE - HEADER_SIZE && AfterFragment(off, data) == BLOCK_SIZE)
  {
  }

  lemma PrefixOfConcat<T>(a: seq<T>, b: seq<T>, s: seq<T>)
    requires a + b <= s
    ensures a <= s && b <= s[|a|..]
    ensures s[|a|..][|b|..] == s[|a + b|..]
  {
    assert (a + b)[..|a|] == a;
    assert (a + b)[|a|..] == b;
    assert s[|a|..][..|b|] == s[|a|..|a + b|];
    assert s[..|a + b|] == a + b;
  }

  lemma CutOfConcat<T>(a: seq<T>, b: seq<T>, s: seq<T>)
    requires s < a + b
    ensures s < a || (a <= s && s[|a|..] < b)
  {
    var c := a + b;
    assert s == c[..|s|];
    if |s| < |a| {
      assert c[..|s|] == a[..|s|];
    } else {
      assert c[..|s|][..|a|] == a;
      assert s[|a|..] == b[..|s| - |a|];
    }
  }

  /** A completely written record is returned, and reading goes on behind it. */
  lemma {:induction false} RecordIsRead(
    crc: Checksum, checksum: bool, off: nat, data: Bytes, begin: bool, scratch: Bytes, s: Bytes)
    requires off <= BLOCK_SIZE
    requires Framed(crc, off, data, begin) <= s
    requires begin ==> scratch == []
    ensures
      var rest := Recovered(crc, checksum, OffsetAfter(off, data), s[|Framed(crc, off, data, begin)|..], false, []);
      Recovered(crc, checksum, off, s, !begin, scratch) == Outcome([scratch + data] + rest.records, rest.reports)
    decreases |data|, if off == BLOCK_SIZE - HEADER_SIZE then 1 else 0
  {
    hide Recovered, Framed, Fragment;
    var n := FragmentLength(off, data);
    var w := Padding(off) + Fragment(crc, off, data, begin);
    FramedSplit(crc, off, data, begin);
    if n == |data| {
      IntactStep(crc, checksum, off, data, begin, scratch, s);
    } else {
      var off' := AfterFragment(off, data);
      PrefixOfConcat(w, Framed(crc, off', data[n..], false), s);
      IntactStep(crc, checksum, off, data, begin, scratch, s);
      RecordIsRead(crc, checksum, off', data[n..], false, scratch + data[..n], s[|w|..]);
      assert (scratch + data[..n]) + data[n..] == scratch + data;
    }
  }

  /** A record cut anywhere before its last byte yields nothing and no complaint. */
  lemma {:induction false} TornRecordIsIgnored(
    crc: Checksum, checksum: bool, off: nat, data: Bytes, begin: bool, scratch: Bytes, s: Bytes)
    requires off <= BLOCK_SIZE
    requires s < Framed(crc, off, data, begin)
    requires begin ==> scratch == []
    ensures Recovered(crc, checksum, off, s, !begin, scratch) == Outcome([], [])
    decreases |data|, if off == BLOCK_SIZE - HEADER_SIZE then 1 else 0
  {
    var n := FragmentLength(off, data);
    var w := Padding(off) + Fragment(crc, off, data, begin);
    FramedSplit(crc, off, data, begin);
    var later := if n == |data| then [] else Framed(crc, AfterFragment(off, data), data[n..], false);
    assert w + [] == w;
    CutOfConcat(w, later, s);
    if s < w {
      TornFragmentIsEof(crc, checksum, off, data, begin, s);
    } else {
      IntactStep(crc, checksum, off, data, begin, scratch, s);
      TornRecordIsIgnored(crc, checksum, AfterFragment(off, data), data[n..], false, scratch + data[..n], s[|w|..]);
    }
  }

  // ----- whole logs -----

  /** How many of the records lie completely inside the first `n` bytes of the log. */
  function Complete(crc: Checksum, off: nat, records: seq<Bytes>, n: nat): (k: nat)
    requires off <= BLOCK_SIZE
    ensures k <= |records|
    decreases |records|
  {
    if records == [] || n < |Framed(crc, off, records[0], true)| then 0
    else 1 + Complete(crc, OffsetAfter(off, records[0]), records[1..], n - |Framed(crc, off, records[0], true)|)
  }

  /** These records fit into the bytes, and one more does not. */
  lemma {:induction false} CompleteIsExact(crc: Checksum, off: nat, records: seq<Bytes>, n: nat)
    requires off <= BLOCK_SIZE
    ensures
      var k := Complete(crc, off, records, n);
      && |Written(crc, off, records[..k])| <= n
      && (k < |records| ==> n < |Written(crc, off, records[..k + 1])|)
    decreases |records|
  {
    hide Framed, OffsetAfter, Written, Complete;
    CompleteOpen(crc, off, records, n);
    var k := Complete(crc, off, records, n);
    WrittenOpen(crc, off, records[..k]);
    if k == 0 {
      if records != [] {
        WrittenOpen(crc, off, records[..1]);
        WrittenOpen(crc, OffsetAfter(off, records[0]), []);
        assert records[..1][1..] == [];
      }
    } else {
      CompleteIsExact(crc, OffsetAfter(off, records[0]), records[1..], n - |Framed(crc, off, records[0], true)|);
      assert records[..k][1..] == records[1..][..k - 1];
      if k < |records| {
        WrittenOpen(crc, off, records[..k + 1]);
        assert records[..k + 1][1..] == records[1..][..k];
      }
    }
  }

  lemma NothingLeft(crc: Checksum, checksum: bool, off: nat, inFragment: bool, scratch: Bytes)
    requires off <= BLOCK_SIZE
    ensures Recovered(crc, checksum, off, [], inFragment, scratch) == Outcome([], [])
  {
  }

  lemma {:induction false} TornLogFrom(crc: Checksum, checksum: bool, off: nat, records: seq<Bytes>, n: nat)
    requires off <= BLOCK_SIZE
    requires n <= |Written(crc, off, records)|
    ensures Recovered(crc, checksum, off, Written(crc, off, records)[..n], false, [])
            == Outcome(records[..Complete(crc, off, records, n)], [])
    decreases |records|
  {
    hide Recovered, Framed, OffsetAfter, Written, Complete;
    WrittenOpen(crc, off, records);
    CompleteOpen(crc, off, records, n);
    var s := Written(crc, off, records)[..n];
    if records == [] {
      NothingLeft(crc, checksum, off, false, []);
      assert s == [];
    } else {
      var framed := Framed(crc, off, records[0], true);
      var off' := OffsetAfter(off, records[0]);
      var later := Written(crc, off', records[1..]);
      if n < |framed| {
        assert s < framed by { assert (framed + later)[..n] == framed[..n]; }
        TornRecordIsIgnored(crc, checksum, off, records[0], true, [], s);
      } else {
        assert s == framed + later[..n - |framed|];
        RecordIsRead(crc, checksum, off, records[0], true, [], s);
        assert s[|framed|..] == later[..n - |framed|];
        TornLogFrom(crc, checksum, off', records[1..], n - |framed|);
        var k := Complete(crc, off', records[1..], n - |framed|);
        assert [] + records[0] == records[0];
        assert [records[0]] + records[1..][..k] == records[..k + 1];
      }
    }
  }

  /** For every byte prefix of a log, the reader returns exactly the records whose last fragment is
      complete and reports nothing. */
  lemma TornTail(crc: Checksum, checksum: bool, records: seq<Bytes>, n: nat)
    requires n <= |Written(crc, 0, records)|
    ensures Recover(crc, checksum, Written(crc, 0, records)[..n])
            == Outcome(records[..Complete(crc, 0, records, n)], [])
  {
    SameFromBlockEnd(crc, records);
    TornLogFrom(crc, checksum, BLOCK_SIZE, records, n);
    CompleteFromBlockEnd(crc, records, n);
  }

  /** Reading what was written returns exactly the records, in order, with nothing reported. */
  lemma RoundTrip(crc: Checksum, checksum: bool, records: seq<Bytes>)
    ensures Recover(crc, checksum, Written(crc, 0, records)) == Outcome(records, [])
  {
    hide Recover, Written, Complete;
    var w := Written(crc, 0, records);
    assert w[..|w|] == w;
    TornTail(crc, checksum, records, |w|);
    CompleteIsExact(crc, 0, records, |w|);
    var k := Complete(crc, 0, records, |w|);
    if k < |records| {
      WrittenGrows(crc, 0, records, k + 1);
    }
    assert records[..|records|] == records;
  }

  lemma {:induction false} WrittenGrows(crc: Checksum, off: nat, records: seq<Bytes>, k: nat)
    requires off <= BLOCK_SIZE && k <= |records|
    ensures Written(crc, off, records[..k]) <= Written(crc, off, records)
    decreases |records|
  {
    hide Framed, OffsetAfter, Written;
    WrittenOpen(crc, off, records);
    WrittenOpen(crc, off, records[..k]);
    if k > 0 {
      WrittenGrows(crc, OffsetAfter(off, records[0]), records[1..], k - 1);
      assert records[..k][1..] == records[1..][..k - 1];
    }
  }

  /** A fresh writer (offset 0) and a reader with an empty buffer (block end) agree on the layout. */
  lemma BlockEndIsStart(crc: Checksum, data: Bytes)
    ensures Framed(crc, 0, data, true) == Framed(crc, BLOCK_SIZE, data, true)
    ensures OffsetAfter(0, data) == OffsetAfter(BLOCK_SIZE, data)
  {
    hide Framed, OffsetAfter, Physical;
    FramedSplit(crc, 0, data, true);
    FramedSplit(crc, BLOCK_SIZE, data, true);
    assert Padding(BLOCK_SIZE) == [] == Padding(0);
  }

  lemma SameFromBlockEnd(crc: Checksum, records: seq<Bytes>)
    ensures Written(crc, 0, records) == Written(crc, BLOCK_SIZE, records)
  {
    hide Framed, OffsetAfter, Written;
    WrittenOpen(crc, 0, records);
    WrittenOpen(crc, BLOCK_SIZE, records);
    if records != [] {
      BlockEndIsStart(crc, records[0]);
    }
  }

  /** `Written` opened once. */
  lemma WrittenOpen(crc: Checksum, off: nat, records: seq<Bytes>)
    requires off <= BLOCK_SIZE
    ensures Written(crc, off, records) ==
            if records == [] then []
            else Framed(crc, off, records[0], true) + Written(crc, OffsetAfter(off, records[0]), records[1..])
  {
  }

  /** `Complete` opened once. */
  lemma CompleteOpen(crc: Checksum, off: nat, records: seq<Bytes>, n: nat)
    requires off <= BLOCK_SIZE
    ensures Complete(crc, off, records, n) ==
            if records == [] || n < |Framed(crc, off, records[0], true)| then 0
            else 1 + Complete(crc, OffsetAfter(off, records[0]), records[1..], n - |Framed(crc, off, records[0], true)|)
  {
    hide Framed, OffsetAfter, Written;
  }

  lemma CompleteFromBlockEnd(crc: Checksum, records: seq<Bytes>, n: nat)
    ensures Complete(crc, 0, records, n) == Complete(crc, BLOCK_SIZE, records, n)
  {
    hide Framed, OffsetAfter, Written, Complete;
    CompleteOpen(crc, 0, records, n);
    CompleteOpen(crc, BLOCK_SIZE, records, n);
    if records != [] {
      BlockEndIsStart(crc, records[0]);
    }
  }
}
