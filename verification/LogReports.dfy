/**
 The bytes of a record's headers, and what is reported: for a record that another one interrupts, for fragments
 without a beginning, and for damage.
 */
module LogReports {
  import opened ByteStrings
  import opened LogFormat
  import opened LogProofs
  import opened LogForeign

  // ----- bytes -----

  /** The header of a fragment: four bytes of checksum, two of length, and the type: 1 for a whole record, 2 for
      its first part, 3 for one in the middle and 4 for the last. */
  lemma HeaderBytes(crc: Checksum, off: nat, data: Bytes, begin: bool)
    requires off <= 32768
    ensures
      var bytes := Fragment(crc, off, data, begin);
      var n := FragmentLength(off, data);
      && |bytes| == 7 + n && bytes[7..] == data[..n]
      && (bytes[4] as int) + 256 * (bytes[5] as int) == n
      && bytes[6] == (if begin then (if n == |data| then 1 else 2) else (if n == |data| then 4 else 3))
      && FromLittleEndian(bytes[..4]) == crc([bytes[6]] + data[..n])
  {
    var n := FragmentLength(off, data);
    var t := TypeFor(begin, n == |data|);
    PhysicalParses(crc, t, data[..n], Physical(crc, t, data[..n]));
  }

  /** How much of a record fits behind `off` bytes of a block: a block has 32768 bytes, and fewer than seven at
      its end stay unused. */
  lemma FragmentFits(off: nat, data: Bytes)
    requires off <= 32768
    ensures
      var room := if off > 32761 then 32761 else 32761 - off;
      FragmentLength(off, data) == if |data| <= room then |data| else room
    ensures Padding(off) == if off > 32761 then seq(32768 - off, _ => 0) else []
  {
  }

  /** A record of 70000 bytes at the beginning of a log: types 2, 3 and 4 at the beginnings of three blocks. */
  lemma ThreeBlocks(crc: Checksum, data: Bytes)
    requires |data| == 70000
    ensures
      var bytes := Framed(crc, 0, data, true);
      && |bytes| == 70021
      && bytes[6] == 2 && bytes[32768 + 6] == 3 && bytes[65536 + 6] == 4
      && bytes[7..32768] == data[..32761] && bytes[32775..65536] == data[32761..65522] && bytes[65543..] == data[65522..]
  {
    hide Framed, Fragment, Padding, FragmentLength, OffsetAfter;
    var b, c := data[32761..], data[32761..][32761..];
    WholeBlock(crc, 0, data, true);
    WholeBlock(crc, 32768, b, false);
    LastBlock(crc, c);
    var f0, f1, f2 := Fragment(crc, 0, data, true), Fragment(crc, 32768, b, false), Fragment(crc, 32768, c, false);
    Slices(f0, f1, f2);
    assert b[..32761] == data[32761..65522] && c == data[65522..];
  }

  /** A record that goes on behind this block fills it. */
  lemma WholeBlock(crc: Checksum, off: nat, data: Bytes, begin: bool)
    requires off == 0 || off == 32768
    requires |data| > 32761
    ensures
      var f := Fragment(crc, off, data, begin);
      && Framed(crc, off, data, begin) == f + Framed(crc, 32768, data[32761..], false)
      && |f| == 32768 && f[7..] == data[..32761] && f[6] == if begin then 2 else 3
  {
    hide Framed, Fragment, Padding, FragmentLength, OffsetAfter;
    FragmentFits(off, data);
    HeaderBytes(crc, off, data, begin);
    FramedSplit(crc, off, data, begin);
    FirstBlock();
    assert [] + Fragment(crc, off, data, begin) == Fragment(crc, off, data, begin);
  }

  lemma LastBlock(crc: Checksum, data: Bytes)
    requires |data| <= 32761
    ensures
      var f := Fragment(crc, 32768, data, false);
      && Framed(crc, 32768, data, false) == f && |f| == 7 + |data| && f[7..] == data && f[6] == 4
  {
    hide Framed, Fragment, Padding, FragmentLength, OffsetAfter;
    FragmentFits(32768, data);
    HeaderBytes(crc, 32768, data, false);
    FramedSplit(crc, 32768, data, false);
    assert [] + Fragment(crc, 32768, data, false) == Fragment(crc, 32768, data, false);
    assert data[..|data|] == data;
  }

  lemma FirstBlock()
    ensures Start(0) == 0 && Start(32768) == 0
  {
  }

  lemma Slices(a: Bytes, b: Bytes, c: Bytes)
    requires |a| == 32768 == |b| && |c| >= 7
    ensures
      var bytes := a + (b + c);
      && bytes[6] == a[6] && bytes[32768 + 6] == b[6] && bytes[65536 + 6] == c[6]
      && bytes[7..32768] == a[7..] && bytes[32775..65536] == b[7..] && bytes[65543..] == c[7..]
  {
  }

  // ----- a record that another one interrupts -----

  /** An intact record that begins while another one is being put together: it is read as if nothing had been
      there, and what was put together is given up and reported, unless it was empty. */
  lemma RecordInterrupts(crc: Checksum, checksum: bool, off: nat, data: Bytes, scratch: Bytes, s: Bytes)
    requires off <= BLOCK_SIZE && Framed(crc, off, data, true) <= s
    ensures
      var rest := Recovered(crc, checksum, OffsetAfter(off, data), s[|Framed(crc, off, data, true)|..], false, []);
      Recovered(crc, checksum, off, s, true, scratch) ==
      Outcome([data] + rest.records, (if scratch == [] then [] else [Report(|scratch|, PartialWithoutEnd)]) + rest.reports)
  {
    hide Recovered, Framed, Fragment, NextEvent, OffsetAfter, AfterFragment, Padding;
    FramedSplit(crc, off, data, true);
    var n := FragmentLength(off, data);
    var w := Padding(off) + Fragment(crc, off, data, true);
    if n < |data| {
      PrefixOfConcat(w, Framed(crc, AfterFragment(off, data), data[n..], false), s);
    }
    FragmentIsRead(crc, checksum, off, data, true, s);
    OneMoreEvent(crc, checksum, off, s, true, scratch);
    OneMoreEvent(crc, checksum, off, s, false, []);
    RecordIsRead(crc, checksum, off, data, true, [], s);
    assert [] + data == data;
    var rest := Recovered(crc, checksum, OffsetAfter(off, data), s[|Framed(crc, off, data, true)|..], false, []);
    assert [] + rest.reports == rest.reports;
  }

  /** The first `k` fragments are not all of the record. */
  predicate Unfinished(off: nat, data: Bytes, k: nat)
    requires off <= BLOCK_SIZE
    decreases k
  {
    k == 0 ||
    (FragmentLength(off, data) < |data| && Unfinished(AfterFragment(off, data), data[FragmentLength(off, data)..], k - 1))
  }

  function Begun(crc: Checksum, off: nat, data: Bytes, begin: bool, k: nat): Bytes
    requires off <= BLOCK_SIZE
    decreases k
  {
    if k == 0 then []
    else
      Padding(off) + Fragment(crc, off, data, begin) +
      Begun(crc, AfterFragment(off, data), data[FragmentLength(off, data)..], false, k - 1)
  }

  /** What of the record these fragments hold, and where they end in their block. */
  function BegunLength(off: nat, data: Bytes, k: nat): (n: nat)
    requires off <= BLOCK_SIZE
    ensures n <= |data|
    decreases k
  {
    if k == 0 then 0
    else FragmentLength(off, data) + BegunLength(AfterFragment(off, data), data[FragmentLength(off, data)..], k - 1)
  }

  function BegunOffset(off: nat, data: Bytes, k: nat): (o: nat)
    requires off <= BLOCK_SIZE
    ensures o <= BLOCK_SIZE
    decreases k
  {
    if k == 0 then off else BegunOffset(AfterFragment(off, data), data[FragmentLength(off, data)..], k - 1)
  }

  lemma BegunOpen(crc: Checksum, off: nat, data: Bytes, begin: bool, k: nat)
    requires off <= BLOCK_SIZE && Unfinished(off, data, k)
    ensures k == 0 ==> Begun(crc, off, data, begin, k) == [] && BegunLength(off, data, k) == 0 && BegunOffset(off, data, k) == off
    ensures
      var n, off' := FragmentLength(off, data), AfterFragment(off, data);
      k > 0 ==>
        && n < |data| && Unfinished(off', data[n..], k - 1)
        && Begun(crc, off, data, begin, k)
           == Padding(off) + Fragment(crc, off, data, begin) + Begun(crc, off', data[n..], false, k - 1)
        && BegunLength(off, data, k) == n + BegunLength(off', data[n..], k - 1)
        && BegunOffset(off, data, k) == BegunOffset(off', data[n..], k - 1)
  {
    hide Fragment, Padding, FragmentLength, AfterFragment;
  }

  lemma {:induction false} BegunIsRead(
    crc: Checksum, checksum: bool, off: nat, data: Bytes, begin: bool, k: nat, scratch: Bytes, rest: Bytes)
    requires off <= BLOCK_SIZE && Unfinished(off, data, k) && (begin ==> scratch == [] && k > 0)
    ensures Recovered(crc, checksum, off, Begun(crc, off, data, begin, k) + rest, !begin, scratch)
         == Recovered(crc, checksum, BegunOffset(off, data, k), rest, true, scratch + data[..BegunLength(off, data, k)])
    decreases k
  {
    hide Recovered, Fragment, Padding, FragmentLength, AfterFragment, Begun, BegunLength, BegunOffset, Unfinished, OffsetAfter, Framed;
    BegunOpen(crc, off, data, begin, k);
    if k == 0 {
      assert [] + rest == rest && scratch + data[..0] == scratch;
    } else {
      var n, off' := FragmentLength(off, data), AfterFragment(off, data);
      var w := Padding(off) + Fragment(crc, off, data, begin);
      var later := Begun(crc, off', data[n..], false, k - 1);
      var s := Begun(crc, off, data, begin, k) + rest;
      FramedSplit(crc, off, data, begin);
      Front(w, later, rest);
      IntactStep(crc, checksum, off, data, begin, scratch, s);
      BegunIsRead(crc, checksum, off', data[n..], false, k - 1, scratch + data[..n], rest);
      var m := BegunLength(off', data[n..], k - 1);
      TwoParts(scratch, data, n, m);
    }
  }

  lemma Front(w: Bytes, later: Bytes, rest: Bytes)
    ensures
      var s := (w + later) + rest;
      w <= s && s[|w|..] == later + rest
  {
  }

  lemma TwoParts(scratch: Bytes, data: Bytes, n: nat, m: nat)
    requires n + m <= |data|
    ensures (scratch + data[..n]) + data[n..][..m] == scratch + data[..n + m]
  {
  }

  /** A log in which a record breaks off between two fragments and others follow: all whole records are returned,
      and the bytes of the broken one are reported once, unless there were none. */
  lemma BrokenRecord(
    crc: Checksum, checksum: bool, before: seq<Bytes>, data: Bytes, k: nat, record: Bytes, after: seq<Bytes>)
    requires k > 0 && Unfinished(OffsetBehind(BLOCK_SIZE, before), data, k)
    ensures
      var off := OffsetBehind(BLOCK_SIZE, before);
      var lost := BegunLength(off, data, k);
      Recover(crc, checksum,
              Written(crc, 0, before) + Begun(crc, off, data, true, k) + Written(crc, BegunOffset(off, data, k), [record] + after))
      == Outcome(before + [record] + after, if lost == 0 then [] else [Report(lost, PartialWithoutEnd)])
  {
    hide Recovered, Framed, OffsetAfter, Written, Begun, BegunLength, BegunOffset, Unfinished;
    var off := OffsetBehind(BLOCK_SIZE, before);
    var off' := BegunOffset(off, data, k);
    var begun, tail := Begun(crc, off, data, true, k), Written(crc, off', [record] + after);
    SameFromBlockEnd(crc, before);
    LogThenRest(crc, checksum, BLOCK_SIZE, before, begun + tail);
    assert Written(crc, 0, before) + begun + tail == Written(crc, 0, before) + (begun + tail);
    BegunIsRead(crc, checksum, off, data, true, k, [], tail);
    var scratch := data[..BegunLength(off, data, k)];
    assert [] + scratch == scratch;
    WrittenOpen(crc, off', [record] + after);
    assert ([record] + after)[1..] == after;
    var framed := Framed(crc, off', record, true);
    assert tail[..|framed|] == framed && tail[|framed|..] == Written(crc, OffsetAfter(off', record), after);
    RecordInterrupts(crc, checksum, off', record, scratch, tail);
    LogThenRest(crc, checksum, OffsetAfter(off', record), after, []);
    assert Written(crc, OffsetAfter(off', record), after) + [] == Written(crc, OffsetAfter(off', record), after);
    NothingLeft(crc, checksum, OffsetBehind(OffsetAfter(off', record), after), false, []);
    assert after + [] == after && before + ([record] + after) == before + [record] + after;
  }

  // ----- fragments without a beginning -----

  /** An intact middle or last fragment (type 3 or 4) where no record is being put together is dropped, and its
      payload reported. */
  lemma OrphanIsReported(crc: Checksum, checksum: bool, off: nat, t: byte, payload: Bytes, rest: Bytes)
    requires off <= BLOCK_SIZE && Start(off) + HEADER_SIZE + |payload| <= BLOCK_SIZE && (t == 3 || t == 4)
    ensures
      var after := Recovered(crc, checksum, Start(off) + HEADER_SIZE + |payload|, rest, false, []);
      Recovered(crc, checksum, off, Padding(off) + Physical(crc, t, payload) + rest, false, [])
      == Outcome(after.records, [Report(|payload|, MissingStart)] + after.reports)
  {
    hide Recovered, NextEvent, Physical, Padding;
    var w := Padding(off) + Physical(crc, t, payload);
    var s := w + rest;
    assert s[..|w|] == w && s[|w|..] == rest;
    PhysicalIsRead(crc, checksum, off, t, payload, s);
    OneMoreEvent(crc, checksum, off, s, false, []);
  }

  // ----- damage -----

  /** Why a header is refused, in a block of which `n` bytes are left, all of them there. */
  function Refusal(crc: Checksum, n: nat, s: Bytes): (r: Option<seq<Report>>)
    requires 7 <= n <= |s|
  {
    var length: nat := (s[4] as int) + 256 * (s[5] as int);
    if 7 + length > n then Some([Report(n, BadLength)])
    else if length == 0 && s[6] == 0 then Some([])
    else if FromLittleEndian(s[..4]) != crc([s[6]] + s[7..7 + length]) then Some([Report(n, ChecksumMismatch)])
    else None
  }

  /** A fragment with a bad length or checksum costs the rest of its block, which is reported in bytes, and the
      record being put together, which is reported too; an empty record of type zero costs the same and is not
      reported itself.  Reading goes on with the next block. */
  lemma RefusedIsReported(crc: Checksum, off: nat, s: Bytes, inFragment: bool, scratch: Bytes)
    requires off <= 32761 && 32768 - off <= |s| && Refusal(crc, 32768 - off, s).Some?
    ensures
      var after := Recovered(crc, true, 32768, s[32768 - off..], false, []);
      Recovered(crc, true, off, s, inFragment, scratch) ==
      Outcome(after.records,
              Refusal(crc, 32768 - off, s).value + (if inFragment then [Report(|scratch|, ErrorInMiddle)] else []) + after.reports)
  {
    hide Recovered;
    OneMoreEvent(crc, true, off, s, inFragment, scratch);
    assert BufferLength(off, s) == 32768 - off;
    var n := 32768 - off;
    assert NextEvent(crc, true, off, s) == (Bad(Refusal(crc, n, s).value), Position(32768, s[n..]));
  }
}
