/**
 The store as a state machine: writes in flight, memtable switches, flushes, compactions, snapshots,
 reads without the lock, file deletion, and crashes followed by recovery.  Every event is one stretch
 of `db_impl.cc` executed with the mutex held, or one step of work done without it.
 */
module Store {
  import opened ByteStrings
  import opened Versions
  import opened Tables

  /** A log record: one write group and the sequence number of its first operation. */
  datatype Group = Group(base: nat, writes: seq<Write>)

  /** The group that the leading writer is logging and applying without the lock. */
  datatype InFlight = InFlight(writes: seq<Write>, logged: bool, applied: nat)

  /** The immutable memtable, what it covers, and the log that backs it. */
  datatype Imm = Imm(run: Run, base: nat, log: nat)

  /** What the descriptor file on disk says. */
  datatype Manifest = Manifest(files: seq<File>, logNumber: nat, lastSequence: nat, nextFile: nat)

  /** An edit written to the descriptor but not yet installed in memory (`LogAndApply` lets go of the
      mutex in between). */
  datatype Edit = NoEdit | FlushEdit | CompactEdit | MoveEdit

  datatype Job = Idle | Compacting(inputs: set<nat>, smallest: nat, version: seq<File>, output: nat)

  datatype Snapshot = Snapshot(id: nat, number: nat)

  /** A read in progress holds on to the memtable object and to the version it started with. */
  datatype MemRef = Live | Frozen(run: Run)
  datatype Reader = Reader(key: UserKey, number: nat, mem: MemRef, imm: Option<Run>, files: seq<File>)

  datatype State = State(
    history: seq<Write>,          // every acknowledged operation, in sequence order (specification only)
    lastSequence: nat,
    inflight: Option<InFlight>,
    mem: Run,
    memBase: nat,                 // operations up to here are not in `mem`
    imm: Option<Imm>,
    files: seq<File>,             // versions_->current()
    logNumber: nat,               // versions_->LogNumber()
    manifest: Manifest,
    edit: Edit,
    job: Job,
    logfile: nat,                 // logfile_number_
    logs: map<nat, seq<Group>>,
    nextFile: nat,
    disk: set<nat>,               // table files present
    snapshots: seq<Snapshot>,
    readers: map<nat, Reader>,
    down: bool)                   // crashed and not yet open again: only the disk counts

  datatype Event =
    | BeginWrite(writes: seq<Write>)
    | LogWrite
    | InsertNext
    | FinishWrite
    | TakeSnapshot(id: nat)
    | ReleaseSnapshot(i: nat)
    | SwitchMemtable
    | PersistFlush(p: nat)
    | BeginCompaction(inputs: set<nat>)
    | PersistCompaction(p: nat, isBase: UserKey -> bool)
    | PersistMove(number: nat, p: nat)
    | Install
    | DeleteObsolete(logs: set<nat>, tables: set<nat>)
    | BeginRead(id: nat, key: UserKey, snapshot: Option<nat>)
    | EndRead(id: nat)
    | Crash(survives: bool)
    | RecoveryStops(parts: map<nat, seq<seq<Group>>>, tables: set<nat>, logCreated: bool)
    | Recover(parts: map<nat, seq<seq<Group>>>)

  ghost predicate Init(s: State) {
    && s.history == [] && s.lastSequence == 0 && s.inflight.None?
    && s.mem == map[] && s.memBase == 0 && s.imm.None? && s.files == []
    && s.manifest == Manifest([], s.logfile, 0, s.nextFile) && s.logNumber == s.logfile
    && s.edit == NoEdit && s.job == Idle
    && s.logs == map[s.logfile := []] && s.logfile < s.nextFile && s.disk == {}
    && s.snapshots == [] && s.readers == map[] && !s.down
  }

  // ----- reads -----

  function CurrentRuns(s: State): seq<Run> {
    [s.mem] + (if s.imm.Some? then [s.imm.value.run] else []) + Runs(s.files)
  }

  /** `Get` at a sequence number: memtable, immutable memtable, then the tables. */
  function Get(s: State, key: UserKey, number: nat): Option<Bytes> {
    ValueOf(Layered(CurrentRuns(s), key, number))
  }

  function ReaderRuns(s: State, r: Reader): seq<Run> {
    [if r.mem.Live? then s.mem else r.mem.run] + (if r.imm.Some? then [r.imm.value] else []) + Runs(r.files)
  }

  /** What a read in progress returns if it finishes now. */
  function Answer(s: State, r: Reader): Option<Bytes> {
    ValueOf(Layered(ReaderRuns(s, r), r.key, r.number))
  }

  /** The smallest sequence number that a new or held snapshot can name. */
  function Floor(s: State): nat {
    if s.snapshots == [] then s.lastSequence else s.snapshots[0].number
  }

  // ----- recovery -----

  /** How much of the history is in the table files of the current version, and of the descriptor. */
  function Top(s: State): nat {
    if s.imm.Some? then s.imm.value.base else s.memBase
  }

  function ManifestTop(s: State): nat {
    if s.edit == FlushEdit then s.memBase else Top(s)
  }

  /** The log files as a crash leaves them: only the record of the unacknowledged group may be gone. */
  function DiskLogs(s: State, survives: bool): (logs: map<nat, seq<Group>>)
    ensures logs.Keys == s.logs.Keys
  {
    if s.logfile in s.logs && s.inflight.Some? && s.inflight.value.logged && !survives && s.logs[s.logfile] != [] then
      s.logs[s.logfile := s.logs[s.logfile][..|s.logs[s.logfile]| - 1]]
    else s.logs
  }

  /** The records of the logs numbered `from` to `to`, in the order in which they are replayed. */
  function Replay(logs: map<nat, seq<Group>>, from: nat, to: nat): seq<Group>
    decreases to + 1 - from
  {
    if from > to then []
    else (if from in logs then logs[from] else []) + Replay(logs, from + 1, to)
  }

  function RunOfGroup(g: Group): Run {
    map q: nat | g.base <= q < g.base + |g.writes| :: GroupWrite(g, q)
  }

  function GroupWrite(g: Group, q: nat): Write
    requires g.base <= q < g.base + |g.writes|
  {
    g.writes[q - g.base]
  }

  /** A memtable filled from log records. */
  function RunOf(groups: seq<Group>): Run {
    if groups == [] then map[] else RunOfGroup(groups[0]) + RunOf(groups[1..])
  }

  function Concat(parts: seq<seq<Group>>): seq<Group> {
    if parts == [] then [] else parts[0] + Concat(parts[1..])
  }

  /** Recovery of one log writes a table whenever its memtable is large enough, and at the end; `parts` says
      where it was.  An empty memtable uses up a number but leaves no file. */
  function RecoverFiles(files: seq<File>, parts: seq<seq<Group>>, number: nat): seq<File>
    decreases |parts|
  {
    if parts == [] then files
    else
      var run := RunOf(parts[0]);
      RecoverFiles(if run == map[] then files else Insert(files, 0, File(number, run)), parts[1..], number + 1)
  }

  /** Where recovery stands: the tables of the version it builds, and the next file number. */
  datatype Progress = Progress(files: seq<File>, next: nat)

  /** The parts into which the replayed logs are cut. */
  predicate PartsOf(logs: map<nat, seq<Group>>, from: nat, to: nat, parts: map<nat, seq<seq<Group>>>) {
    forall n :: from <= n <= to && n in logs ==> n in parts && Concat(parts[n]) == logs[n]
  }

  /** The logs numbered `from` to `to` replayed in order.  A log's own number is marked as used only behind its
      tables: log and table files have different names. */
  function RecoverLogs(
    logs: map<nat, seq<Group>>, from: nat, to: nat, parts: map<nat, seq<seq<Group>>>, p: Progress): Progress
    requires PartsOf(logs, from, to, parts)
    decreases 1 + to - from
  {
    if from > to then p
    else if from !in logs then RecoverLogs(logs, from + 1, to, parts, p)
    else
      var next := p.next + |parts[from]|;
      RecoverLogs(logs, from + 1, to, parts,
                  Progress(RecoverFiles(p.files, parts[from], p.next), if next <= from then from + 1 else next))
  }

  function MaxSequence(groups: seq<Group>, m: nat): nat {
    if groups == [] then m
    else
      var last := groups[0].base + |groups[0].writes| - 1;
      MaxSequence(groups[1..], if last > m then last else m)
  }

  function FileNumbers(files: seq<File>): set<nat> {
    set i | 0 <= i < |files| :: files[i].number
  }

  /** Table files that `DeleteObsoleteFiles` must keep. */
  ghost predicate LiveFile(s: State, n: nat) {
    || n in FileNumbers(s.files)
    || (s.job.Compacting? && (n == s.job.output || n in FileNumbers(s.job.version)))
    || exists id :: id in s.readers && n in FileNumbers(s.readers[id].files)
  }

  // ----- transitions -----

  // Writing a group: the leader logs it, applies it entry by entry, then publishes its last number.

  ghost predicate CanBeginWrite(s: State) {
    s.inflight.None?
  }

  function BegunWrite(s: State, writes: seq<Write>): State {
    s.(inflight := Some(InFlight(writes, false, 0)))
  }

  ghost predicate CanLogWrite(s: State) {
    s.inflight.Some? && !s.inflight.value.logged && s.logfile in s.logs
  }

  ghost function LoggedWrite(s: State): State
    requires CanLogWrite(s)
  {
    var f := s.inflight.value;
    s.(inflight := Some(f.(logged := true)),
       logs := s.logs[s.logfile := s.logs[s.logfile] + [Group(s.lastSequence + 1, f.writes)]])
  }

  ghost predicate CanInsertNext(s: State) {
    s.inflight.Some? && s.inflight.value.logged && s.inflight.value.applied < |s.inflight.value.writes|
  }

  ghost function InsertedNext(s: State): State
    requires CanInsertNext(s)
  {
    var f := s.inflight.value;
    s.(inflight := Some(f.(applied := f.applied + 1)),
       mem := s.mem[s.lastSequence + 1 + f.applied := f.writes[f.applied]])
  }

  ghost predicate CanFinishWrite(s: State) {
    s.inflight.Some? && s.inflight.value.logged && s.inflight.value.applied == |s.inflight.value.writes|
  }

  ghost function FinishedWrite(s: State): State
    requires CanFinishWrite(s)
  {
    var w := s.inflight.value.writes;
    s.(inflight := None, history := s.history + w, lastSequence := s.lastSequence + |w|)
  }

  // Snapshots.

  ghost predicate CanTakeSnapshot(s: State, id: nat) {
    forall i :: 0 <= i < |s.snapshots| ==> s.snapshots[i].id != id
  }

  function TakenSnapshot(s: State, id: nat): State {
    s.(snapshots := s.snapshots + [Snapshot(id, s.lastSequence)])
  }

  function ReleasedSnapshot(s: State, i: nat): State
    requires i < |s.snapshots|
  {
    s.(snapshots := s.snapshots[..i] + s.snapshots[i + 1..])
  }

  // Memtable switch and flush.

  ghost predicate CanSwitchMemtable(s: State) {
    s.inflight.None? && s.imm.None?
  }

  function FreezeReaders(s: State): map<nat, Reader> {
    map id | id in s.readers ::
      var r := s.readers[id];
      if r.mem.Live? then r.(mem := Frozen(s.mem)) else r
  }

  function SwitchedMemtable(s: State): State {
    s.(imm := Some(Imm(s.mem, s.memBase, s.logfile)), mem := map[], memBase := s.lastSequence,
       logfile := s.nextFile, logs := s.logs[s.nextFile := []], nextFile := s.nextFile + 1,
       readers := FreezeReaders(s))
  }

  ghost predicate CanPersistFlush(s: State, p: nat) {
    && s.imm.Some? && s.edit == NoEdit && p <= |s.files|
    && forall i :: 0 <= i < p ==> NoSharedKey(s.files[i].run, s.imm.value.run)
  }

  /** An empty memtable leaves no file. */
  ghost function PersistedFlush(s: State, p: nat): State
    requires CanPersistFlush(s, p)
  {
    var files := if s.imm.value.run == map[] then s.files else Insert(s.files, p, File(s.nextFile, s.imm.value.run));
    s.(manifest := Manifest(files, s.logfile, s.lastSequence, s.nextFile + 1), edit := FlushEdit,
       disk := s.disk + {s.nextFile}, nextFile := s.nextFile + 1)
  }

  // Compaction.

  ghost predicate CanBeginCompaction(s: State, inputs: set<nat>) {
    s.job == Idle && s.edit == NoEdit && inputs <= FileNumbers(s.files)
  }

  function BegunCompaction(s: State, inputs: set<nat>): State {
    s.(job := Compacting(inputs, Floor(s), s.files, s.nextFile),
       disk := s.disk + {s.nextFile}, nextFile := s.nextFile + 1)
  }

  /** The level structure puts the output below the newer files and above the older ones, and
      `IsBaseLevelForKey` looks at the deeper files of the version the compaction started from. */
  ghost predicate CanPersistCompaction(s: State, p: nat, isBase: UserKey -> bool) {
    && s.job.Compacting? && s.edit == NoEdit
    && p <= |Without(s.files, s.job.inputs)|
    && InOrder(Without(s.files, s.job.inputs), p, Inputs(s.files, s.job.inputs))
    && forall key, f :: isBase(key) && f in Without(s.files, s.job.inputs)[p..] && f in s.job.version ==> !HasKey(f.run, key)
  }

  ghost function PersistedCompaction(s: State, p: nat, isBase: UserKey -> bool): State
    requires CanPersistCompaction(s, p, isBase)
  {
    s.(manifest := Manifest(Compacted(s.files, s.job.inputs, s.job.smallest, isBase, p, s.job.output),
                            s.logNumber, s.lastSequence, s.nextFile),
       edit := CompactEdit)
  }

  ghost predicate CanPersistMove(s: State, n: nat, p: nat) {
    && s.job == Idle && s.edit == NoEdit && n in FileNumbers(s.files)
    && p <= |Without(s.files, {n})|
    && InOrder(Without(s.files, {n}), p, Inputs(s.files, {n}))
  }

  /** A trivial move: a compaction that drops nothing, since no entry is numbered 0. */
  ghost function PersistedMove(s: State, n: nat, p: nat): State
    requires CanPersistMove(s, n, p)
  {
    s.(manifest := Manifest(Compacted(s.files, {n}, 0, _ => false, p, n), s.logNumber, s.lastSequence, s.nextFile),
       edit := MoveEdit)
  }

  // Installing an edit, deleting files, reading.

  function Installed(s: State): State {
    s.(files := s.manifest.files, logNumber := s.manifest.logNumber, edit := NoEdit,
       imm := if s.edit == FlushEdit then None else s.imm,
       job := if s.edit == CompactEdit then Idle else s.job)
  }

  ghost predicate CanDeleteObsolete(s: State, logs: set<nat>, tables: set<nat>) {
    && s.edit == NoEdit
    && (forall n :: n in logs ==> n < s.logNumber)
    && (forall n :: n in tables ==> !LiveFile(s, n))
  }

  function DeletedObsolete(s: State, logs: set<nat>, tables: set<nat>): State {
    s.(logs := s.logs - logs, disk := s.disk - tables)
  }

  ghost predicate CanBeginRead(s: State, id: nat, snapshot: Option<nat>) {
    id !in s.readers && (snapshot.Some? ==> snapshot.value < |s.snapshots|)
  }

  ghost function BegunRead(s: State, id: nat, key: UserKey, snapshot: Option<nat>): State
    requires CanBeginRead(s, id, snapshot)
  {
    var number := if snapshot.Some? then s.snapshots[snapshot.value].number else s.lastSequence;
    var imm := if s.imm.Some? then Some(s.imm.value.run) else None;
    s.(readers := s.readers[id := Reader(key, number, Live, imm, s.files)])
  }

  function EndedRead(s: State, id: nat): State {
    s.(readers := s.readers - {id})
  }

  // Crashing and opening again.

  ghost predicate CanCrash(s: State, survives: bool) {
    survives ==> s.inflight.Some? && s.inflight.value.logged
  }

  /** What a crash leaves: descriptor, logs and tables.  `history` records what should be found there,
      `memBase` how much of it is in the descriptor's tables, and `logfile` is the newest log. */
  ghost function Crashed(s: State, survives: bool, base: nat): State
    requires CanCrash(s, survives)
  {
    State(
      s.history + (if survives then s.inflight.value.writes else []),
      0, None, map[], base, None, [], 0, s.manifest, NoEdit, Idle,
      s.logfile, DiskLogs(s, survives), 0, s.disk, [], map[], true)
  }

  /** What recovery computes, from the descriptor and the logs alone. */
  ghost function Rebuilt(s: State, parts: map<nat, seq<seq<Group>>>): Progress
    requires PartsOf(s.logs, s.manifest.logNumber, s.logfile, parts)
  {
    RecoverLogs(s.logs, s.manifest.logNumber, s.logfile, parts, Progress(s.manifest.files, s.manifest.nextFile))
  }

  /** A crash inside recovery, before the descriptor is written: some tables are there that nothing names,
      and perhaps an empty log. */
  ghost predicate CanStopRecovery(s: State, parts: map<nat, seq<seq<Group>>>, tables: set<nat>) {
    && PartsOf(s.logs, s.manifest.logNumber, s.logfile, parts)
    && forall n :: n in tables ==> s.manifest.nextFile <= n < Rebuilt(s, parts).next
  }

  ghost function StoppedRecovery(s: State, parts: map<nat, seq<seq<Group>>>, tables: set<nat>, logCreated: bool): State
    requires CanStopRecovery(s, parts, tables)
  {
    var newLog := Rebuilt(s, parts).next;
    var t := s.(disk := s.disk + tables);
    if logCreated then t.(logs := s.logs[newLog := []], logfile := newLog) else t
  }

  /** The state after `DB::Open`. */
  ghost function Recovered(s: State, parts: map<nat, seq<seq<Group>>>): State
    requires PartsOf(s.logs, s.manifest.logNumber, s.logfile, parts)
  {
    var p := Rebuilt(s, parts);
    var groups := Replay(s.logs, s.manifest.logNumber, s.logfile);
    var last := MaxSequence(groups, s.manifest.lastSequence);
    State(
      s.history, last, None, map[], last, None, p.files, p.next,
      Manifest(p.files, p.next, last, p.next + 1), NoEdit, Idle,
      p.next, s.logs[p.next := []], p.next + 1, s.disk + FileNumbers(p.files), [], map[], false)
  }

  // ----- runs -----

  ghost predicate Enabled(s: State, e: Event) {
    s.down == (e.RecoveryStops? || e.Recover?) &&
    match e
    case BeginWrite(_) => CanBeginWrite(s)
    case LogWrite => CanLogWrite(s)
    case InsertNext => CanInsertNext(s)
    case FinishWrite => CanFinishWrite(s)
    case TakeSnapshot(id) => CanTakeSnapshot(s, id)
    case ReleaseSnapshot(i) => i < |s.snapshots|
    case SwitchMemtable => CanSwitchMemtable(s)
    case PersistFlush(p) => CanPersistFlush(s, p)
    case BeginCompaction(inputs) => CanBeginCompaction(s, inputs)
    case PersistCompaction(p, isBase) => CanPersistCompaction(s, p, isBase)
    case PersistMove(n, p) => CanPersistMove(s, n, p)
    case Install => s.edit != NoEdit
    case DeleteObsolete(logs, tables) => CanDeleteObsolete(s, logs, tables)
    case BeginRead(id, _, snapshot) => CanBeginRead(s, id, snapshot)
    case EndRead(id) => id in s.readers
    case Crash(survives) => CanCrash(s, survives)
    case RecoveryStops(parts, tables, _) => CanStopRecovery(s, parts, tables)
    case Recover(parts) => PartsOf(s.logs, s.manifest.logNumber, s.logfile, parts)
  }

  ghost function Next(s: State, e: Event): State
    requires Enabled(s, e)
  {
    match e
    case BeginWrite(writes) => BegunWrite(s, writes)
    case LogWrite => LoggedWrite(s)
    case InsertNext => InsertedNext(s)
    case FinishWrite => FinishedWrite(s)
    case TakeSnapshot(id) => TakenSnapshot(s, id)
    case ReleaseSnapshot(i) => ReleasedSnapshot(s, i)
    case SwitchMemtable => SwitchedMemtable(s)
    case PersistFlush(p) => PersistedFlush(s, p)
    case BeginCompaction(inputs) => BegunCompaction(s, inputs)
    case PersistCompaction(p, isBase) => PersistedCompaction(s, p, isBase)
    case PersistMove(n, p) => PersistedMove(s, n, p)
    case Install => Installed(s)
    case DeleteObsolete(logs, tables) => DeletedObsolete(s, logs, tables)
    case BeginRead(id, key, snapshot) => BegunRead(s, id, key, snapshot)
    case EndRead(id) => EndedRead(s, id)
    case Crash(survives) => Crashed(s, survives, ManifestTop(s))
    case RecoveryStops(parts, tables, logCreated) => StoppedRecovery(s, parts, tables, logCreated)
    case Recover(parts) => Recovered(s, parts)
  }

  ghost predicate CanRun(s: State, events: seq<Event>)
    decreases |events|
  {
    events == [] || (Enabled(s, events[0]) && CanRun(Next(s, events[0]), events[1..]))
  }

  ghost function After(s: State, events: seq<Event>): State
    requires CanRun(s, events)
    decreases |events|
  {
    if events == [] then s else After(Next(s, events[0]), events[1..])
  }
}
