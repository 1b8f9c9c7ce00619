/**
 The writer and reader objects, with the loops and fields of the source, proved against the
 functions of LogFormat.
 */
module LogIO {
  import opened ByteStrings
  import opened LogFormat
  import LogProofs

  class Writer {
    const crc: Checksum
    var dest: Bytes          // contents of the file so far
    var room: nat            // bytes that the file will still take
    var blockOffset: nat

    ghost predicate Valid()
      reads this
    {
      blockOffset <= BLOCK_SIZE
    }

    constructor (crc: Checksum, room: nat)
      ensures Valid() && this.crc == crc && dest == [] && this.room == room && blockOffset == 0
    {
      this.crc := crc;
      this.room := room;
      dest := [];
      blockOffset := 0;
    }

    /** What a file that runs full has taken of `bs`. */
    ghost predicate Took(was: Bytes, hadRoom: nat, bs: Bytes, ok: bool)
      reads this
    {
      && (ok <==> |bs| <= hadRoom)
      && dest == was + (if ok then bs else bs[..hadRoom])
      && room == if ok then hadRoom - |bs| else 0
    }

    /** The file's own append: all of the bytes, or as many as fit and an error. */
    method Append(bs: Bytes) returns (ok: bool)
      modifies this`dest, this`room
      ensures Took(old(dest), old(room), bs, ok)
    {
      ok := |bs| <= room;
      if ok {
        dest, room := dest + bs, room - |bs|;
      } else {
        dest, room := dest + bs[..room], 0;
      }
    }

    /** Appends the record, or as much of it as the file takes; only in the first case it returns OK. */
    method AddRecord(data: Bytes) returns (ok: bool)
      requires Valid()
      modifies this
      ensures Valid()
      ensures Took(old(dest), old(room), Framed(crc, old(blockOffset), data, true), ok)
      ensures ok ==> blockOffset == OffsetAfter(old(blockOffset), data)
    {
      hide Framed, Fragment, Padding, FragmentLength, AfterFragment, OffsetAfter, Took;
      LogProofs.FramedSplit(crc, blockOffset, data, true);
      ghost var written := Padding(blockOffset) + Fragment(crc, blockOffset, data, true);
      var left;
      ok, left := AddFragment(data, true);
      ghost var rest := if left == [] then [] else Framed(crc, blockOffset, left, false);
      NothingMore(written);
      FirstPart(old(dest), old(room), written, rest, ok);
      while ok && |left| > 0
        invariant Valid() && Framed(crc, old(blockOffset), data, true) == written + rest
        invariant ok ==> Took(old(dest), old(room), written, true)
        invariant ok ==> rest == if left == [] then [] else Framed(crc, blockOffset, left, false)
        invariant ok ==> (if left == [] then blockOffset else OffsetAfter(blockOffset, left)) == OffsetAfter(old(blockOffset), data)
        invariant !ok ==> Took(old(dest), old(room), written + rest, false)
        decreases ok, |left|, if blockOffset == BLOCK_SIZE - HEADER_SIZE then 1 else 0
      {
        LogProofs.FramedSplit(crc, blockOffset, left, false);
        ghost var part := Padding(blockOffset) + Fragment(crc, blockOffset, left, false);
        ghost var dest1, room1 := dest, room;
        TookAll(old(dest), old(room), written);
        ok, left := AddFragment(left, false);
        rest := if left == [] then [] else Framed(crc, blockOffset, left, false);
        BothParts(old(dest), old(room), written, dest1, room1, part, ok);
        NothingMore(part);
        Associates(written, part, rest);
        written := written + part;
        FirstPart(old(dest), old(room), written, rest, ok);
      }
      NothingMore(written);
    }

    lemma Associates(a: Bytes, b: Bytes, c: Bytes)
      ensures a + (b + c) == (a + b) + c
    {
    }

    lemma TookAll(was: Bytes, hadRoom: nat, bs: Bytes)
      requires Took(was, hadRoom, bs, true)
      ensures |bs| <= hadRoom && dest == was + bs && room == hadRoom - |bs|
    {
    }

    /** Once the file is full, nothing that follows is taken. */
    lemma FirstPart(was: Bytes, hadRoom: nat, a: Bytes, b: Bytes, ok: bool)
      requires Took(was, hadRoom, a, ok)
      ensures !ok ==> Took(was, hadRoom, a + b, false)
    {
      if !ok {
        assert (a + b)[..hadRoom] == a[..hadRoom];
      }
    }

    /** Two appends, the first of them complete. */
    lemma BothParts(was: Bytes, hadRoom: nat, a: Bytes, dest1: Bytes, room1: nat, b: Bytes, ok: bool)
      requires |a| <= hadRoom && dest1 == was + a && room1 == hadRoom - |a|
      requires Took(dest1, room1, b, ok)
      ensures Took(was, hadRoom, a + b, ok)
    {
      if !ok {
        assert (a + b)[..hadRoom] == a + b[..room1];
      }
    }

    /** One turn of the source's do-while loop.  The result of appending the trailer is not looked at: in a
        full file the header behind it fails as well. */
    method AddFragment(data: Bytes, begin: bool) returns (ok: bool, left: Bytes)
      requires Valid()
      modifies this
      ensures Valid()
      ensures Took(old(dest), old(room), Padding(old(blockOffset)) + Fragment(crc, old(blockOffset), data, begin), ok)
      ensures blockOffset == AfterFragment(old(blockOffset), data)
      ensures left == data[FragmentLength(old(blockOffset), data)..]
    {
      hide Physical, Took;
      ghost var pad := Padding(blockOffset);
      var leftover := BLOCK_SIZE - blockOffset;
      var padded := true;
      if leftover < HEADER_SIZE {
        if leftover > 0 {
          padded := Append(Zeros(leftover));
        }
        blockOffset := 0;
      }
      ghost var dest1, room1 := dest, room;
      var avail := BLOCK_SIZE - blockOffset - HEADER_SIZE;
      var fragmentLength := if |data| < avail then |data| else avail;
      var end := |data| == fragmentLength;
      var t := if begin && end then FULL_TYPE else if begin then FIRST_TYPE
               else if end then LAST_TYPE else MIDDLE_TYPE;
      ok := EmitPhysicalRecord(t, data[..fragmentLength]);
      left := data[fragmentLength..];
      Padded(old(dest), old(room), pad, dest1, room1, Physical(crc, t, data[..fragmentLength]), padded, ok);
    }

    lemma Padded(was: Bytes, hadRoom: nat, a: Bytes, dest1: Bytes, room1: nat, b: Bytes, aOk: bool, ok: bool)
      requires aOk <==> |a| <= hadRoom
      requires dest1 == was + (if aOk then a else a[..hadRoom]) && room1 == if aOk then hadRoom - |a| else 0
      requires Took(dest1, room1, b, ok) && b != []
      ensures Took(was, hadRoom, a + b, ok)
    {
      if aOk {
        BothParts(was, hadRoom, a, dest1, room1, b, ok);
      } else {
        assert dest == dest1 + b[..0] == dest1;
        assert (a + b)[..hadRoom] == a[..hadRoom];
      }
    }

    method EmitPhysicalRecord(t: byte, payload: Bytes) returns (ok: bool)
      requires blockOffset + HEADER_SIZE + |payload| <= BLOCK_SIZE
      modifies this
      ensures Took(old(dest), old(room), Physical(crc, t, payload), ok)
      ensures blockOffset == old(blockOffset) + HEADER_SIZE + |payload|
    {
      var header := LittleEndian(crc([t] + payload), 4) + [|payload| % 256, |payload| / 256, t];
      ok := Append(header);
      FirstPart(old(dest), old(room), header, payload, ok);
      if ok {
        ghost var dest1, room1 := dest, room;
        ok := Append(payload);
        BothParts(old(dest), old(room), header, dest1, room1, payload, ok);
      }
      blockOffset := blockOffset + HEADER_SIZE + |payload|;
    }
  }

  class Reader {
    const crc: Checksum
    const checksum: bool
    var file: Bytes             // not yet read from the file
    var buffer: Bytes           // rest of the current block
    var eof: bool               // the last read came back short
    var reports: seq<Report>    // what the reporter was told
    ghost var off: nat          // bytes of the current block already consumed

    ghost predicate Valid()
      reads this
    {
      && off <= BLOCK_SIZE
      && |buffer| == BufferLength(off, buffer + file)
      && (eof <==> |buffer| < BLOCK_SIZE - off)
    }

    /** All that is still to be returned and reported. */
    ghost function Pending(inFragment: bool, scratch: Bytes): Outcome
      requires Valid()
      reads this
    {
      Recovered(crc, checksum, off, buffer + file, inFragment, scratch)
    }

    constructor (crc: Checksum, checksum: bool, file: Bytes)
      ensures Valid() && this.crc == crc && this.checksum == checksum && reports == []
      ensures Pending(false, []) == Recover(crc, checksum, file)
    {
      this.crc := crc;
      this.checksum := checksum;
      this.file := file;
      this.buffer := [];
      this.eof := false;
      this.reports := [];
      this.off := BLOCK_SIZE;
      new;
      assert [] + file == file;
    }

    method ReadPhysicalRecord() returns (ev: Event)
      requires Valid()
      modifies this
      ensures Valid()
      ensures (ev, Position(off, buffer + file)) == NextEvent(crc, checksum, old(off), old(buffer + file))
      ensures reports == old(reports) + if ev.Bad? then ev.dropped else []
    {
      var refilled := false;
      while |buffer| < HEADER_SIZE
        invariant Valid() && reports == old(reports)
        invariant !refilled ==> off == old(off) && buffer == old(buffer) && file == old(file)
        invariant refilled ==> old(|buffer| < HEADER_SIZE && !eof)
        invariant refilled ==> off == 0 && buffer + file == old(file)
        invariant refilled && |buffer| < HEADER_SIZE ==> eof
        decreases !refilled
      {
        if !eof {
          ghost var file0 := file;
          var n := if |file| < BLOCK_SIZE then |file| else BLOCK_SIZE;
          buffer, file := file[..n], file[n..];
          assert buffer + file == file0;
          off := 0;
          if n < BLOCK_SIZE {
            eof := true;
          }
          refilled := true;
          assert old(buffer + file)[old(|buffer|)..] == old(file);
        } else {
          off := off + |buffer|;
          assert file == [];
          buffer := [];
          assert buffer + file == [];
          assert refilled ==> old(buffer + file)[old(|buffer|)..] == old(file);
          return Eof;
        }
      }
      ghost var s := buffer + file;
      assert refilled ==> old(buffer + file)[old(|buffer|)..] == s;
      assert NextEvent(crc, checksum, old(off), old(buffer + file)) == ParseBuffer(crc, checksum, off, s);
      ev := ParseHeader();
    }

    /** The part of the physical read that works on a buffer holding at least a header. */
    method ParseHeader() returns (ev: Event)
      requires Valid() && |buffer| >= HEADER_SIZE
      modifies this
      ensures Valid()
      ensures (ev, Position(off, buffer + file)) == ParseBuffer(crc, checksum, old(off), old(buffer + file))
      ensures reports == old(reports) + if ev.Bad? then ev.dropped else []
    {
      ghost var s := buffer + file;
      var length := PayloadLength(buffer);
      var t := buffer[6];
      var dropSize := |buffer|;
      assert s[|buffer|..] == file && [] + file == file;
      if HEADER_SIZE + length > |buffer| {
        off, buffer := off + |buffer|, [];
        if !eof {
          reports := reports + [Report(dropSize, BadLength)];
          return Bad([Report(dropSize, BadLength)]);
        }
        return Eof;
      }
      if t == ZERO_TYPE && length == 0 {
        off, buffer := off + |buffer|, [];
        return Bad([]);
      }
      assert s[..4] == buffer[..4];
      assert s[HEADER_SIZE..HEADER_SIZE + length] == buffer[HEADER_SIZE..HEADER_SIZE + length];
      if checksum {
        var expected := FromLittleEndian(buffer[..4]);
        var actual := crc([t] + buffer[HEADER_SIZE..HEADER_SIZE + length]);
        if actual != expected {
          off, buffer := off + |buffer|, [];
          reports := reports + [Report(dropSize, ChecksumMismatch)];
          return Bad([Report(dropSize, ChecksumMismatch)]);
        }
      }
      ev := Piece(t, buffer[HEADER_SIZE..HEADER_SIZE + length]);
      assert s[HEADER_SIZE + length..] == buffer[HEADER_SIZE + length..] + file;
      off, buffer := off + HEADER_SIZE + length, buffer[HEADER_SIZE + length..];
    }

    /** Returns the next record, or `None` at the end of the input. */
    method ReadRecord() returns (record: Option<Bytes>)
      requires Valid()
      modifies this
      ensures Valid()
      ensures
        var before := old(Pending(false, []));
        var after := Pending(false, []);
        && old(reports) + before.reports == reports + (if record.Some? then after.reports else [])
        && before.records == (if record.Some? then [record.value] + after.records else [])
      ensures record.Some? ==> |buffer + file| < old(|buffer + file|)
    {
      hide Recovered, NextEvent, React;
      var scratch: Bytes := [];
      var inFragment := false;
      ghost var before := Pending(false, []);
      while true
        invariant Valid()
        invariant |buffer + file| <= old(|buffer + file|)
        invariant Pending(inFragment, scratch).records == before.records
        invariant reports + Pending(inFragment, scratch).reports == old(reports) + before.reports
        decreases |buffer + file|
      {
        LogProofs.OneMoreEvent(crc, checksum, off, buffer + file, inFragment, scratch);
        ghost var reports0 := reports;
        var ev := ReadPhysicalRecord();
        ghost var action := React(ev, inFragment, scratch);
        var done;
        done, record, inFragment, scratch := Handle(ev, inFragment, scratch, reports0);
        if done {
          return;
        }
        assert reports == reports0 + action.reported;
      }
    }

    /** The switch of the source's loop; what the physical layer dropped is already reported. */
    method Handle(ev: Event, inFragment: bool, scratch: Bytes, ghost before: seq<Report>)
      returns (done: bool, record: Option<Bytes>, inFragment': bool, scratch': Bytes)
      requires Valid()
      requires reports == before + if ev.Bad? then ev.dropped else []
      modifies this`reports
      ensures
        var action := React(ev, inFragment, scratch);
        && done == !action.Continue? && (ev.Eof? ==> action.Stop?)
        && record == (if action.Return? then Some(action.record) else None)
        && (action.Continue? ==> action.inFragment == inFragment' && action.scratch == scratch')
        && reports == before + if action.Stop? then [] else action.reported
    {
      done, record, inFragment', scratch' := false, None, inFragment, scratch;
      match ev {
        case Eof =>
          done := true;
        case Bad(_) =>
          if inFragment {
            reports := reports + [Report(|scratch|, ErrorInMiddle)];
            inFragment' := false;
          }
          scratch' := [];
        case Piece(t, payload) =>
          if t == FULL_TYPE {
            if inFragment && scratch != [] {
              reports := reports + [Report(|scratch|, PartialWithoutEnd)];
            }
            done, record := true, Some(payload);
          } else if t == FIRST_TYPE {
            if inFragment && scratch != [] {
              reports := reports + [Report(|scratch|, PartialWithoutEnd)];
            }
            inFragment', scratch' := true, payload;
          } else if t == MIDDLE_TYPE {
            if !inFragment {
              reports := reports + [Report(|payload|, MissingStart)];
            } else {
              scratch' := scratch + payload;
            }
          } else if t == LAST_TYPE {
            if !inFragment {
              reports := reports + [Report(|payload|, MissingStart)];
            } else {
              done, record := true, Some(scratch + payload);
            }
          } else if t == EOF_TYPE {
            done := true;
          } else if t == BAD_RECORD_TYPE {
            if inFragment {
              reports := reports + [Report(|scratch|, ErrorInMiddle)];
            }
            inFragment', scratch' := false, [];
          } else {
            reports := reports + [Report(|payload| + (if inFragment then |scratch| else 0), UnknownType)];
            inFragment', scratch' := false, [];
          }
      }
    }
  }

  /** Writing records with the writer object, into a file that may run full, and reading the file back with
      the reader object: exactly the records for which the writer returned OK come back, and nothing is
      reported, wherever the last one was cut. */
  method WriteThenRead(crc: Checksum, checksum: bool, records: seq<Bytes>, room: nat)
    returns (acknowledged: nat, back: seq<Bytes>, reports: seq<Report>)
    ensures acknowledged <= |records| && back == records[..acknowledged] && reports == []
    ensures acknowledged == |records| <==> |Written(crc, 0, records)| <= room
  {
    hide Framed, Recover, Written, OffsetAfter, LogProofs.Complete;
    var writer := new Writer(crc, room);
    ghost var all := Written(crc, 0, records);
    acknowledged := 0;
    assert records[0..] == records;
    while acknowledged < |records|
      invariant writer.Valid() && writer.crc == crc && acknowledged <= |records|
      invariant |writer.dest| + writer.room == room
      invariant writer.dest + Written(crc, writer.blockOffset, records[acknowledged..]) == all
      invariant LogProofs.Complete(crc, 0, records, room)
             == acknowledged + LogProofs.Complete(crc, writer.blockOffset, records[acknowledged..], writer.room)
    {
      ghost var rest := records[acknowledged..];
      ghost var dest0, room0, off0 := writer.dest, writer.room, writer.blockOffset;
      LogProofs.WrittenOpen(crc, off0, rest);
      LogProofs.CompleteOpen(crc, off0, rest, room0);
      assert rest[1..] == records[acknowledged + 1..];
      var ok := writer.AddRecord(records[acknowledged]);
      if !ok {
        assert writer.dest == all[..room] by {
          assert all == dest0 + (Framed(crc, off0, rest[0], true) + Written(crc, OffsetAfter(off0, rest[0]), rest[1..]));
        }
        LogProofs.TornTail(crc, checksum, records, room);
        back, reports := ReadAll(crc, checksum, writer.dest);
        return;
      }
      acknowledged := acknowledged + 1;
    }
    LogProofs.WrittenOpen(crc, writer.blockOffset, records[acknowledged..]);
    assert writer.dest == all;
    assert records[..|records|] == records;
    back, reports := ReadAll(crc, checksum, writer.dest);
    LogProofs.RoundTrip(crc, checksum, records);
  }

  /** The recovery loop: read until the reader says there is no more. */
  method ReadAll(crc: Checksum, checksum: bool, file: Bytes) returns (records: seq<Bytes>, reports: seq<Report>)
    ensures Outcome(records, reports) == Recover(crc, checksum, file)
  {
    hide Recover, Recovered, BufferLength, Reader.Valid, Reader.Pending;
    var reader := new Reader(crc, checksum, file);
    ghost var all := Recover(crc, checksum, file);
    records := [];
    while true
      invariant reader.Valid() && reader.crc == crc && reader.checksum == checksum
      invariant records + reader.Pending(false, []).records == all.records
      invariant reader.reports + reader.Pending(false, []).reports == all.reports
      decreases |reader.buffer + reader.file|
    {
      var r := reader.ReadRecord();
      match r {
        case None =>
          NothingMore(records);
          reports := reader.reports;
          return;
        case Some(record) =>
          OneMore(records, record, reader.Pending(false, []).records);
          records := records + [record];
      }
    }
  }

  lemma OneMore<T>(a: seq<T>, x: T, b: seq<T>)
    ensures a + ([x] + b) == (a + [x]) + b
  {
  }

  lemma NothingMore<T>(a: seq<T>)
    ensures a + [] == a
  {
  }
}
