/**
 LevelDB's write-ahead log: the block format, the fragmenting writer and the recovering reader.

 The file is a run of 32 KiB blocks.  A record is cut into fragments, none of which crosses a
 block boundary; a block's last bytes are zero filled when no header fits there.

 The checksum is a parameter `crc`, standing for the masked CRC-32C of a type byte and a payload:
 everything below holds for every checksum function.
 */
module LogFormat {
  import opened ByteStrings

  const BLOCK_SIZE := 32768
  const HEADER_SIZE := 7

  const ZERO_TYPE: byte := 0
  const FULL_TYPE: byte := 1
  const FIRST_TYPE: byte := 2
  const MIDDLE_TYPE: byte := 3
  const LAST_TYPE: byte := 4

  // The reader's own results share their numbers with type bytes that no writer uses.
  const EOF_TYPE: byte := 5
  const BAD_RECORD_TYPE: byte := 6

  type Checksum = Bytes -> uint32

  // ----- the writer's output as a function -----

  function TypeFor(begin: bool, end: bool): byte {
    if begin && end then FULL_TYPE
    else if begin then FIRST_TYPE
    else if end then LAST_TYPE
    else MIDDLE_TYPE
  }

  /** A physical record: checksum, 16-bit length, type, payload. */
  function Physical(crc: Checksum, t: byte, payload: Bytes): (bs: Bytes)
    requires |payload| <= 0xffff
    ensures |bs| == HEADER_SIZE + |payload|
  {
    LittleEndian(crc([t] + payload), 4) + [|payload| % 256, |payload| / 256, t] + payload
  }

  /** Where the next fragment starts when `off` bytes of the current block are used. */
  function Start(off: nat): (o: nat)
    requires off <= BLOCK_SIZE
    ensures o <= BLOCK_SIZE - HEADER_SIZE
  {
    if BLOCK_SIZE - off < HEADER_SIZE then 0 else off
  }

  function Padding(off: nat): (p: Bytes)
    requires off <= BLOCK_SIZE
  {
    if BLOCK_SIZE - off < HEADER_SIZE then Zeros(BLOCK_SIZE - off) else []
  }

  function FragmentLength(off: nat, data: Bytes): (n: nat)
    requires off <= BLOCK_SIZE
    ensures n <= |data|
    ensures Start(off) + HEADER_SIZE + n <= BLOCK_SIZE
  {
    var avail := BLOCK_SIZE - Start(off) - HEADER_SIZE;
    if |data| < avail then |data| else avail
  }

  /** One turn of the writer's loop: trailer, header and the part of `data` that fits. */
  function Fragment(crc: Checksum, off: nat, data: Bytes, begin: bool): Bytes
    requires off <= BLOCK_SIZE
  {
    var n := FragmentLength(off, data);
    Physical(crc, TypeFor(begin, n == |data|), data[..n])
  }

  function AfterFragment(off: nat, data: Bytes): (o: nat)
    requires off <= BLOCK_SIZE
    ensures HEADER_SIZE <= o <= BLOCK_SIZE
  {
    Start(off) + HEADER_SIZE + FragmentLength(off, data)
  }

  /** The bytes `AddRecord` appends for (the rest of) a record. */
  function Framed(crc: Checksum, off: nat, data: Bytes, begin: bool): Bytes
    requires off <= BLOCK_SIZE
    decreases |data|, if off == BLOCK_SIZE - HEADER_SIZE then 1 else 0
  {
    var n := FragmentLength(off, data);
    Padding(off) + Fragment(crc, off, data, begin) +
    if n == |data| then [] else Framed(crc, AfterFragment(off, data), data[n..], false)
  }

  function OffsetAfter(off: nat, data: Bytes): (o: nat)
    requires off <= BLOCK_SIZE
    ensures HEADER_SIZE <= o <= BLOCK_SIZE
    decreases |data|, if off == BLOCK_SIZE - HEADER_SIZE then 1 else 0
  {
    var n := FragmentLength(off, data);
    if n == |data| then AfterFragment(off, data)
    else OffsetAfter(AfterFragment(off, data), data[n..])
  }

  /** The bytes of a whole sequence of `AddRecord` calls. */
  function Written(crc: Checksum, off: nat, records: seq<Bytes>): Bytes
    requires off <= BLOCK_SIZE
    decreases |records|
  {
    if records == [] then []
    else Framed(crc, off, records[0], true) + Written(crc, OffsetAfter(off, records[0]), records[1..])
  }

  // ----- the reader as a function of the bytes still to be read -----

  datatype Reason = BadLength | ChecksumMismatch | PartialWithoutEnd | MissingStart | ErrorInMiddle | UnknownType

  datatype Report = Report(bytes: nat, reason: Reason)

  /** What `ReadPhysicalRecord` returns: a fragment, kBadRecord or kEof. */
  datatype Event = Piece(t: byte, payload: Bytes) | Bad(dropped: seq<Report>) | Eof

  /** Reader position: `off` bytes of the current block are consumed and `s` is the rest of the file. */
  datatype Position = Position(off: nat, s: Bytes)

  /** The part of the rest of the file that belongs to the current block, i.e. the reader's buffer. */
  function BufferLength(off: nat, s: Bytes): (n: nat)
    requires off <= BLOCK_SIZE
    ensures n <= |s| && off + n <= BLOCK_SIZE
  {
    if |s| < BLOCK_SIZE - off then |s| else BLOCK_SIZE - off
  }

  function PayloadLength(s: Bytes): nat
    requires |s| >= HEADER_SIZE
  {
    s[4] as int + 256 * (s[5] as int)
  }

  predicate ChecksumOk(crc: Checksum, s: Bytes)
    requires |s| >= HEADER_SIZE && |s| >= HEADER_SIZE + PayloadLength(s)
  {
    FromLittleEndian(s[..4]) == crc([s[6]] + s[HEADER_SIZE..HEADER_SIZE + PayloadLength(s)])
  }

  /** Parses the physical record at the front of the buffer. */
  function ParseBuffer(crc: Checksum, checksum: bool, off: nat, s: Bytes): (r: (Event, Position))
    requires off <= BLOCK_SIZE
    requires BufferLength(off, s) >= HEADER_SIZE
    ensures r.1.off <= BLOCK_SIZE && |r.1.s| < |s|
  {
    var n := BufferLength(off, s);
    var drop := Position(off + n, s[n..]);
    var len := PayloadLength(s);
    if HEADER_SIZE + len > n then
      if n < BLOCK_SIZE - off then (Eof, drop) else (Bad([Report(n, BadLength)]), drop)
    else if s[6] == ZERO_TYPE && len == 0 then
      (Bad([]), drop)
    else if checksum && !ChecksumOk(crc, s) then
      (Bad([Report(n, ChecksumMismatch)]), drop)
    else
      (Piece(s[6], s[HEADER_SIZE..HEADER_SIZE + len]),
       Position(off + HEADER_SIZE + len, s[HEADER_SIZE + len..]))
  }

  /** `ReadPhysicalRecord`: refills the buffer at a block end, then parses. */
  function NextEvent(crc: Checksum, checksum: bool, off: nat, s: Bytes): (r: (Event, Position))
    requires off <= BLOCK_SIZE
    ensures r.1.off <= BLOCK_SIZE && |r.1.s| <= |s|
    ensures !r.0.Eof? ==> |r.1.s| < |s|
  {
    var n := BufferLength(off, s);
    if n >= HEADER_SIZE then ParseBuffer(crc, checksum, off, s)
    else if n < BLOCK_SIZE - off then (Eof, Position(off + n, []))
    else if BufferLength(0, s[n..]) >= HEADER_SIZE then ParseBuffer(crc, checksum, 0, s[n..])
    else (Eof, Position(|s[n..]|, []))
  }

  /** Everything the reader will still return and report. */
  datatype Outcome = Outcome(records: seq<Bytes>, reports: seq<Report>)

  /** How `ReadRecord` reacts to an event: stop, return a record, or go on with new reassembly state. */
  datatype Action =
    | Stop
    | Return(reported: seq<Report>, record: Bytes)
    | Continue(reported: seq<Report>, inFragment: bool, scratch: Bytes)

  function Interrupted(inFragment: bool, scratch: Bytes): seq<Report> {
    if inFragment && scratch != [] then [Report(|scratch|, PartialWithoutEnd)] else []
  }

  function AfterBad(dropped: seq<Report>, inFragment: bool, scratch: Bytes): Action {
    Continue(dropped + (if inFragment then [Report(|scratch|, ErrorInMiddle)] else []), false, [])
  }

  function React(ev: Event, inFragment: bool, scratch: Bytes): Action {
    match ev
    case Eof => Stop
    case Bad(dropped) => AfterBad(dropped, inFragment, scratch)
    case Piece(t, payload) =>
      if t == FULL_TYPE then
        Return(Interrupted(inFragment, scratch), payload)
      else if t == FIRST_TYPE then
        Continue(Interrupted(inFragment, scratch), true, payload)
      else if t == MIDDLE_TYPE && inFragment then
        Continue([], true, scratch + payload)
      else if t == LAST_TYPE && inFragment then
        Return([], scratch + payload)
      else if t == MIDDLE_TYPE || t == LAST_TYPE then
        Continue([Report(|payload|, MissingStart)], false, scratch)
      else if t == EOF_TYPE then
        Stop
      else if t == BAD_RECORD_TYPE then
        AfterBad([], inFragment, scratch)
      else
        Continue([Report(|payload| + (if inFragment then |scratch| else 0), UnknownType)], false, [])
  }

  /** The whole recovery: `ReadRecord` called until it returns false, with reassembly state
      `inFragment` and `scratch`. */
  function Recovered(crc: Checksum, checksum: bool, off: nat, s: Bytes, inFragment: bool, scratch: Bytes): Outcome
    requires off <= BLOCK_SIZE
    decreases |s|
  {
    var (ev, p) := NextEvent(crc, checksum, off, s);
    match React(ev, inFragment, scratch)
    case Stop => Outcome([], [])
    case Return(reported, record) =>
      var rest := Recovered(crc, checksum, p.off, p.s, false, []);
      Outcome([record] + rest.records, reported + rest.reports)
    case Continue(reported, inFragment', scratch') =>
      var rest := Recovered(crc, checksum, p.off, p.s, inFragment', scratch');
      Outcome(rest.records, reported + rest.reports)
  }

  /** The reader applied to a whole file (an empty buffer forces a first read). */
  function Recover(crc: Checksum, checksum: bool, file: Bytes): Outcome {
    Recovered(crc, checksum, BLOCK_SIZE, file, false, [])
  }
}
