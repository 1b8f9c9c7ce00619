/**
 Every event of the store keeps the invariant.
 */
module StoreSteps {
  import opened ByteStrings
  import opened Versions
  import opened Compaction
  import opened Tables
  import opened Store
  import opened StoreProofs

  lemma InitInv(s: State)
    requires Init(s)
    ensures Inv(s)
  {
    assert s.mem == Slice(s.history + Pending(s), 0, 0);
    forall key, n: nat
      ensures ValueOf(Layered(Runs([]), key, n)) == At(s.history, key, Min(n, 0))
    {
    }
    assert Acknowledged(s) == [];
  }

  // ----- what an event does not touch -----

  lemma SameMemory(s: State, s': State)
    requires MemoryOk(s)
    requires s' == s.(files := s'.files, logNumber := s'.logNumber, manifest := s'.manifest, logfile := s'.logfile,
                      logs := s'.logs, nextFile := s'.nextFile, disk := s'.disk, snapshots := s'.snapshots,
                      readers := s'.readers)
    ensures MemoryOk(s')
  {
    hide Slice;
  }

  lemma SameVersions(s: State, s': State)
    requires VersionsOk(s) && Floor(s') == Floor(s)
    requires s'.files == s.files && s'.history == s.history && s'.imm == s.imm && s'.memBase == s.memBase
    requires s'.manifest == s.manifest && s'.edit == s.edit
    ensures VersionsOk(s')
  {
    hide TablesOk, Floor;
  }

  lemma SameJob(s: State, s': State)
    requires JobOk(s) && Floor(s) <= Floor(s') && s'.nextFile >= s.nextFile
    requires s'.files == s.files && s'.history == s.history && s'.imm == s.imm && s'.memBase == s.memBase
    requires s'.manifest == s.manifest && s'.edit == s.edit && s'.job == s.job
    ensures JobOk(s')
  {
    hide Since, Floor;
  }

  lemma SameLogs(s: State, s': State)
    requires LogsOk(s) && s'.nextFile >= s.nextFile
    requires s' == s.(mem := s'.mem, files := s'.files, job := s'.job, nextFile := s'.nextFile, disk := s'.disk,
                      snapshots := s'.snapshots, readers := s'.readers)
    ensures LogsOk(s')
  {
    hide Covers;
    assert Acknowledged(s') == Acknowledged(s);
  }

  lemma SameDisk(s: State, s': State)
    requires DiskOk(s) && s'.nextFile >= s.nextFile && s.disk <= s'.disk
    requires s'.files == s.files && s'.manifest == s.manifest && s'.job == s.job && s'.readers == s.readers
    ensures DiskOk(s')
  {
    hide FileNumbers;
  }

  // ----- writing a group -----

  lemma SameFloor(s: State, s': State)
    requires s'.snapshots == s.snapshots && s'.lastSequence == s.lastSequence
    ensures Floor(s') == Floor(s)
  {
  }

  lemma BeginWriteMemory(s: State, writes: seq<Write>)
    requires MemoryOk(s) && CanBeginWrite(s)
    ensures MemoryOk(BegunWrite(s, writes))
  {
    SliceGrows(s.history, writes, s.memBase, |s.history|);
    assert s.history + [] == s.history;
  }

  /** What is appended to the history is in no earlier slice. */
  lemma SliceGrows(history: seq<Write>, more: seq<Write>, lo: nat, hi: nat)
    requires lo <= hi <= |history|
    ensures Slice(history + more, lo, hi) == Slice(history, lo, hi)
  {
  }

  lemma BeginWriteLogs(s: State, writes: seq<Write>)
    requires LogsOk(s) && CanBeginWrite(s)
    ensures LogsOk(BegunWrite(s, writes))
  {
    hide Covers;
    assert Acknowledged(BegunWrite(s, writes)) == Acknowledged(s);
  }

  lemma BeginWriteKeepsInv(s: State, writes: seq<Write>)
    requires Inv(s) && CanBeginWrite(s)
    ensures Inv(BegunWrite(s, writes))
  {
    hide VersionsOk, JobOk, ReadersOk, LogsOk, DiskOk, Floor, Slice;
    var s' := BegunWrite(s, writes);
    BeginWriteMemory(s, writes);
    SameVersions(s, s') by { SameFloor(s, s'); }
    SameJob(s, s') by { SameFloor(s, s'); }
    SameAnswers(s, s');
    BeginWriteLogs(s, writes);
    SameDisk(s, s');
  }

  lemma LogWriteLogs(s: State)
    requires LogsOk(s) && CanLogWrite(s)
    ensures LogsOk(LoggedWrite(s))
  {
    hide Covers;
    var s' := LoggedWrite(s);
    assert Acknowledged(s') == s.logs[s.logfile] == Acknowledged(s);
  }

  lemma LogWriteMemory(s: State)
    requires MemoryOk(s) && CanLogWrite(s)
    ensures MemoryOk(LoggedWrite(s))
  {
    hide Slice;
  }

  lemma LogWriteKeepsInv(s: State)
    requires Inv(s) && CanLogWrite(s)
    ensures Inv(LoggedWrite(s))
  {
    hide MemoryOk, VersionsOk, JobOk, ReadersOk, LogsOk, DiskOk, Floor;
    var s' := LoggedWrite(s);
    LogWriteLogs(s);
    LogWriteMemory(s);
    SameFloor(s, s');
    SameVersions(s, s');
    SameJob(s, s');
    SameAnswers(s, s');
    SameDisk(s, s');
  }

  /** Nothing a reader can see changes when memory and readers stay the same. */
  lemma SameAnswers(s: State, s': State)
    requires ReadersOk(s)
    requires s'.mem == s.mem && s'.readers == s.readers && s'.history == s.history
    ensures ReadersOk(s')
  {
    forall id | id in s'.readers
      ensures Answer(s', s'.readers[id]) == Answer(s, s.readers[id])
    {
      assert ReaderRuns(s', s.readers[id]) == ReaderRuns(s, s.readers[id]);
    }
  }

  /** Entries above every reader's sequence number are invisible to it. */
  lemma InsertIsInvisible(s: State, r: Reader, q: nat, w: Write)
    requires r.number < q
    ensures Answer(s.(mem := s.mem[q := w]), r) == Answer(s, r)
  {
    var s' := s.(mem := s.mem[q := w]);
    var runs, runs' := ReaderRuns(s, r), ReaderRuns(s', r);
    assert runs'[1..] == runs[1..];
    LookupAgrees(runs[0], runs'[0], r.key, r.number);
  }

  lemma InsertNextMemory(s: State)
    requires MemoryOk(s) && CanInsertNext(s)
    ensures MemoryOk(InsertedNext(s))
  {
    var s' := InsertedNext(s);
    var f := s.inflight.value;
    var q := s.lastSequence + 1 + f.applied;
    assert (s.history + f.writes)[q - 1] == f.writes[f.applied];
    assert s'.mem == Slice(s'.history + Pending(s'), s'.memBase, |s'.history| + Applied(s'));
  }

  lemma InsertNextReaders(s: State)
    requires MemoryOk(s) && ReadersOk(s) && CanInsertNext(s)
    ensures ReadersOk(InsertedNext(s))
  {
    hide Answer, At, Slice;
    var s' := InsertedNext(s);
    var f := s.inflight.value;
    var q := s.lastSequence + 1 + f.applied;
    forall id | id in s'.readers
      ensures Answer(s', s'.readers[id]) == Answer(s, s.readers[id])
    {
      InsertIsInvisible(s, s.readers[id], q, f.writes[f.applied]);
      SameMemSameAnswer(s', s.(mem := s.mem[q := f.writes[f.applied]]), s.readers[id]);
    }
  }

  lemma InsertNextLogs(s: State)
    requires LogsOk(s) && CanInsertNext(s)
    ensures LogsOk(InsertedNext(s))
  {
    hide Covers;
    assert Acknowledged(InsertedNext(s)) == Acknowledged(s);
  }

  lemma InsertNextKeepsInv(s: State)
    requires Inv(s) && CanInsertNext(s)
    ensures Inv(InsertedNext(s))
  {
    hide MemoryOk, VersionsOk, JobOk, ReadersOk, LogsOk, DiskOk, Floor;
    var s' := InsertedNext(s);
    InsertNextMemory(s);
    InsertNextReaders(s);
    InsertNextLogs(s);
    SameFloor(s, s');
    SameVersions(s, s');
    SameJob(s, s');
    SameDisk(s, s');
  }

  lemma SameMemSameAnswer(s: State, s': State, r: Reader)
    requires s.mem == s'.mem
    ensures Answer(s, r) == Answer(s', r)
  {
    assert ReaderRuns(s, r) == ReaderRuns(s', r);
  }

  lemma FinishWriteLogs(s: State)
    requires MemoryOk(s) && LogsOk(s) && CanFinishWrite(s)
    ensures LogsOk(FinishedWrite(s))
  {
    hide Covers;
    var s' := FinishedWrite(s);
    var w := s.inflight.value.writes;
    var groups, g := Acknowledged(s), Group(s.lastSequence + 1, w);
    assert Acknowledged(s') == groups + [g];
    CoversGrows(groups, s.history, w, s.memBase, |s.history|);
    assert s'.history[|s.history|..|s'.history|] == w;
    CoversAppend(groups, g, s'.history, s.memBase, |s.history|);
    if ImmIsReplayed(s) {
      CoversGrows(s.logs[s.imm.value.log], s.history, w, s.imm.value.base, s.memBase);
    }
  }

  lemma FinishWriteReaders(s: State)
    requires MemoryOk(s) && ReadersOk(s) && CanFinishWrite(s)
    ensures ReadersOk(FinishedWrite(s))
  {
    hide Answer, At;
    var s' := FinishedWrite(s);
    forall id | id in s'.readers
      ensures Answer(s', s'.readers[id]) == At(s'.history, s'.readers[id].key, s'.readers[id].number)
    {
      SameMemSameAnswer(s, s', s.readers[id]);
      PastIsFixed(s.history, s.inflight.value.writes, s.readers[id].key, s.readers[id].number);
    }
  }

  lemma FinishWriteMemory(s: State)
    requires MemoryOk(s) && CanFinishWrite(s)
    ensures MemoryOk(FinishedWrite(s))
  {
    var s' := FinishedWrite(s);
    assert s'.history + Pending(s') == s.history + s.inflight.value.writes;
    assert s'.imm.Some? ==> s'.imm.value.run == Slice(s'.history, s'.imm.value.base, s'.memBase);
  }

  lemma FinishWriteKeepsInv(s: State)
    requires Inv(s) && CanFinishWrite(s)
    ensures Inv(FinishedWrite(s))
  {
    hide TablesOk, LogsOk, ReadersOk, Slice;
    var s' := FinishedWrite(s);
    var w := s.inflight.value.writes;
    FinishWriteMemory(s);
    FinishWriteLogs(s);
    FinishWriteReaders(s);
    TablesSurviveGrowth(s.files, s.history, w, Top(s), Floor(s), Floor(s'));
    TablesSurviveGrowth(s.manifest.files, s.history, w, ManifestTop(s), Floor(s), Floor(s'));
  }

  // ----- snapshots -----

  lemma TakeSnapshotKeepsInv(s: State, id: nat)
    requires Inv(s) && CanTakeSnapshot(s, id)
    ensures Inv(TakenSnapshot(s, id))
  {
    hide MemoryOk, VersionsOk, JobOk, ReadersOk, LogsOk, DiskOk;
    var s' := TakenSnapshot(s, id);
    assert Floor(s') == Floor(s);
    SameMemory(s, s');
    SameVersions(s, s');
    SameJob(s, s');
    SameAnswers(s, s');
    SameLogs(s, s');
    SameDisk(s, s');
  }

  lemma HigherFloor(s: State, s': State)
    requires VersionsOk(s) && Floor(s) <= Floor(s') && s' == s.(snapshots := s'.snapshots)
    ensures VersionsOk(s')
  {
    hide TablesOk, Floor;
    assert s.history + [] == s.history;
    TablesSurviveGrowth(s.files, s.history, [], Top(s), Floor(s), Floor(s'));
    TablesSurviveGrowth(s.manifest.files, s.history, [], ManifestTop(s), Floor(s), Floor(s'));
  }

  lemma ReleaseSnapshotKeepsInv(s: State, i: nat)
    requires Inv(s) && i < |s.snapshots|
    ensures Inv(ReleasedSnapshot(s, i))
  {
    hide MemoryOk, VersionsOk, JobOk, ReadersOk, LogsOk, DiskOk;
    var s' := ReleasedSnapshot(s, i);
    assert Floor(s) <= Floor(s');
    SameMemory(s, s');
    HigherFloor(s, s');
    SameJob(s, s');
    SameAnswers(s, s');
    SameLogs(s, s');
    SameDisk(s, s');
  }

  // ----- memtable switch and flush -----

  lemma SwitchMemory(s: State)
    requires MemoryOk(s) && CanSwitchMemtable(s)
    ensures MemoryOk(SwitchedMemtable(s))
  {
    var s' := SwitchedMemtable(s);
    assert s.history + [] == s.history;
    assert s'.mem == Slice(s'.history + Pending(s'), s'.memBase, |s'.history|);
  }

  lemma SwitchVersions(s: State)
    requires VersionsOk(s) && MemoryOk(s) && CanSwitchMemtable(s)
    ensures VersionsOk(SwitchedMemtable(s))
  {
    hide TablesOk, Slice;
  }

  lemma SwitchJob(s: State)
    requires JobOk(s) && CanSwitchMemtable(s)
    ensures JobOk(SwitchedMemtable(s))
  {
    hide Since;
  }

  lemma SwitchReaders(s: State)
    requires ReadersOk(s)
    ensures ReadersOk(SwitchedMemtable(s))
  {
    hide Answer, At;
    var s' := SwitchedMemtable(s);
    forall id | id in s'.readers
      ensures Answer(s', s'.readers[id]) == Answer(s, s.readers[id])
    {
      assert ReaderRuns(s', s'.readers[id]) == ReaderRuns(s, s.readers[id]);
      SameRunsSameAnswer(s, s.readers[id], s', s'.readers[id]);
    }
  }

  lemma SwitchLogs(s: State)
    requires LogsOk(s) && MemoryOk(s) && CanSwitchMemtable(s)
    ensures LogsOk(SwitchedMemtable(s))
  {
    hide Slice;
    assert Acknowledged(SwitchedMemtable(s)) == [] && Acknowledged(s) == s.logs[s.logfile];
  }

  lemma SwitchDisk(s: State)
    requires DiskOk(s)
    ensures DiskOk(SwitchedMemtable(s))
  {
    hide FileNumbers;
  }

  lemma SwitchMemtableKeepsInv(s: State)
    requires Inv(s) && CanSwitchMemtable(s)
    ensures Inv(SwitchedMemtable(s))
  {
    hide MemoryOk, VersionsOk, JobOk, ReadersOk, LogsOk, DiskOk;
    var s' := SwitchedMemtable(s);
    SwitchMemory(s);
    SwitchVersions(s);
    SwitchJob(s);
    SwitchReaders(s);
    SwitchLogs(s);
    SwitchDisk(s);
  }

  lemma SameRunsSameAnswer(s: State, r: Reader, s': State, r': Reader)
    requires ReaderRuns(s, r) == ReaderRuns(s', r') && r.key == r'.key && r.number == r'.number
    ensures Answer(s, r) == Answer(s', r')
  {
  }

  lemma NumbersInserted(files: seq<File>, p: nat, f: File)
    requires p <= |files|
    ensures FileNumbers(Insert(files, p, f)) == FileNumbers(files) + {f.number}
  {
    var files' := Insert(files, p, f);
    forall n | n in FileNumbers(files)
      ensures n in FileNumbers(files')
    {
      var i :| 0 <= i < |files| && files[i].number == n;
      assert files'[if i < p then i else i + 1].number == n;
    }
    assert files'[p].number == f.number;
    forall n | n in FileNumbers(files')
      ensures n in FileNumbers(files) + {f.number}
    {
      var i :| 0 <= i < |files'| && files'[i].number == n;
      if i != p {
        assert files[if i < p then i else i - 1].number == n;
      }
    }
  }

  lemma FlushedSince(s: State, p: nat)
    requires Inv(s) && CanPersistFlush(s, p) && s.job.Compacting?
    ensures Since(PersistedFlush(s, p).manifest.files, s.job)
  {
    var imm := s.imm.value;
    if imm.run != map[] {
      InsertedMembers(s.files, p, File(s.nextFile, imm.run));
      forall g | g in s.job.version
        ensures Newer(imm.run, g.run)
      {
      }
    }
  }

  lemma FlushMemory(s: State, p: nat)
    requires MemoryOk(s) && CanPersistFlush(s, p)
    ensures MemoryOk(PersistedFlush(s, p))
  {
    hide Slice, Insert, NoSharedKey;
  }

  lemma FlushVersions(s: State, p: nat)
    requires MemoryOk(s) && VersionsOk(s) && CanPersistFlush(s, p)
    ensures VersionsOk(PersistedFlush(s, p))
  {
    hide TablesOk, NoSharedKey, Insert, Slice;
    var imm := s.imm.value;
    FlushKeepsTables(s.files, s.nextFile, s.history, imm.base, s.memBase, Floor(s), p);
    if imm.run == map[] {
      NothingFlushed(s.history, imm.base, s.memBase);
    }
  }

  lemma NothingFlushed(history: seq<Write>, lo: nat, hi: nat)
    requires lo <= hi <= |history| && Slice(history, lo, hi) == map[]
    ensures lo == hi
  {
    assert hi !in Slice(history, lo, hi);
  }

  lemma FlushJob(s: State, p: nat)
    requires Inv(s) && CanPersistFlush(s, p)
    ensures JobOk(PersistedFlush(s, p))
  {
    hide MemoryOk, VersionsOk, ReadersOk, LogsOk, DiskOk, NoSharedKey, Since, Insert;
    if s.job.Compacting? {
      FlushedSince(s, p);
    }
  }

  lemma FlushLogs(s: State, p: nat)
    requires LogsOk(s) && MemoryOk(s) && CanPersistFlush(s, p)
    ensures LogsOk(PersistedFlush(s, p))
  {
    hide Covers, NoSharedKey, Insert, Slice;
    assert Acknowledged(PersistedFlush(s, p)) == Acknowledged(s);
    NothingReplayedMeansBase(s);
  }

  lemma FlushDisk(s: State, p: nat)
    requires DiskOk(s) && s.manifest.files == s.files && CanPersistFlush(s, p)
    ensures DiskOk(PersistedFlush(s, p))
  {
    hide FileNumbers, NoSharedKey, Insert;
    if s.imm.value.run != map[] {
      NumbersInserted(s.files, p, File(s.nextFile, s.imm.value.run));
    }
  }

  lemma PersistFlushKeepsInv(s: State, p: nat)
    requires Inv(s) && CanPersistFlush(s, p)
    ensures Inv(PersistedFlush(s, p))
  {
    hide MemoryOk, VersionsOk, JobOk, ReadersOk, LogsOk, DiskOk;
    var s' := PersistedFlush(s, p);
    FlushMemory(s, p);
    FlushVersions(s, p);
    FlushJob(s, p);
    SameAnswers(s, s');
    FlushLogs(s, p);
    FlushDisk(s, p) by { NothingPending(s); }
  }

  lemma NothingPending(s: State)
    requires VersionsOk(s) && s.edit == NoEdit
    ensures s.manifest.files == s.files
  {
  }

  lemma NothingReplayedMeansBase(s: State)
    requires LogsOk(s)
    ensures Acknowledged(s) == [] ==> s.memBase == |s.history|
  {
  }

  // ----- compaction -----

  lemma CompactionMemory(s: State, s': State)
    requires MemoryOk(s) && s.edit == NoEdit
    requires s'.edit == NoEdit || (s'.edit == CompactEdit && s'.job.Compacting?) || (s'.edit == MoveEdit && s'.job == Idle)
    requires s' == s.(manifest := s'.manifest, edit := s'.edit, job := s'.job, nextFile := s'.nextFile, disk := s'.disk)
    ensures MemoryOk(s')
  {
    hide Slice;
  }

  lemma BeginCompactionJob(s: State, inputs: set<nat>)
    requires Inv(s) && CanBeginCompaction(s, inputs)
    ensures JobOk(BegunCompaction(s, inputs))
  {
    hide MemoryOk, ReadersOk, LogsOk, Faithful, NewestFirst;
  }

  lemma BeginCompactionDisk(s: State, inputs: set<nat>)
    requires DiskOk(s) && CanBeginCompaction(s, inputs)
    ensures DiskOk(BegunCompaction(s, inputs))
  {
    hide FileNumbers;
  }

  lemma BeginCompactionKeepsInv(s: State, inputs: set<nat>)
    requires Inv(s) && CanBeginCompaction(s, inputs)
    ensures Inv(BegunCompaction(s, inputs))
  {
    hide MemoryOk, VersionsOk, JobOk, ReadersOk, LogsOk, DiskOk;
    var s' := BegunCompaction(s, inputs);
    SameFloor(s, s');
    CompactionMemory(s, s');
    SameVersions(s, s');
    BeginCompactionJob(s, inputs);
    SameAnswers(s, s');
    SameLogs(s, s');
    BeginCompactionDisk(s, inputs);
  }

  /** A file that stays and one that is compacted, both knowing a key of the base level: the one that
      stays is newer. */
  lemma StayingFileIsNewer(s: State, p: nat, isBase: UserKey -> bool, f: File, a: nat, g: File, q: nat)
    requires JobOk(s) && CanPersistCompaction(s, p, isBase)
    requires f in Without(s.files, s.job.inputs) && a in f.run
    requires g in s.files && g.number in s.job.inputs && q in g.run
    requires q in Inputs(s.files, s.job.inputs) && Inputs(s.files, s.job.inputs)[q] == g.run[q]
    requires f.run[a].key == g.run[q].key && isBase(g.run[q].key)
    ensures q < a
  {
    hide Inputs, Without, Only;
    var rest, inputs := Without(s.files, s.job.inputs), Inputs(s.files, s.job.inputs);
    WithoutMembers(s.files, s.job.inputs);
    var deeper := rest[p..];
    var i :| 0 <= i < |rest| && rest[i] == f;
    assert i < p || f in deeper;
    assert HasKey(f.run, g.run[q].key);
    assert g in s.job.version;
    if i < p {
      assert Newer(rest[i].run, inputs);
    }
  }

  lemma BaseLevelIsSound(s: State, p: nat, isBase: UserKey -> bool)
    requires JobOk(s) && VersionsOk(s) && CanPersistCompaction(s, p, isBase)
    ensures BaseIsSound(All(Without(s.files, s.job.inputs)), Inputs(s.files, s.job.inputs), isBase)
  {
    hide All, Without, Only, Faithful, JobOk, InOrder, NewestFirst;
    var rest, only := Without(s.files, s.job.inputs), Only(s.files, s.job.inputs);
    var inputs := Inputs(s.files, s.job.inputs);
    WithoutMembers(s.files, s.job.inputs);
    AllMembers(rest, s.history);
    AllMembers(only, s.history);
    forall a, q | a in All(rest) && q in inputs && All(rest)[a].key == inputs[q].key && isBase(inputs[q].key)
      ensures q < a
    {
      assert Holds(rest, a) && Holds(only, q);
      var f :| f in rest && a in f.run;
      var g :| g in only && q in g.run;
      StayingFileIsNewer(s, p, isBase, f, a, g, q);
    }
  }

  lemma CompactedNumbers(
    files: seq<File>, numbers: set<nat>, smallest: nat, isBase: UserKey -> bool, p: nat, number: nat)
    requires p <= |Without(files, numbers)|
    ensures FileNumbers(Compacted(files, numbers, smallest, isBase, p, number)) <= FileNumbers(files) + {number}
  {
    var rest := Without(files, numbers);
    NumbersInserted(rest, p, File(number, Retained(Inputs(files, numbers), smallest, isBase)));
    WithoutMembers(files, numbers);
    forall n | n in FileNumbers(rest)
      ensures n in FileNumbers(files)
    {
      var i :| 0 <= i < |rest| && rest[i].number == n;
      assert rest[i] in rest;
      var j :| 0 <= j < |files| && files[j] == rest[i];
    }
  }

  lemma PersistedVersions(s: State, p: nat, isBase: UserKey -> bool)
    requires VersionsOk(s) && JobOk(s) && CanPersistCompaction(s, p, isBase)
    ensures VersionsOk(PersistedCompaction(s, p, isBase))
  {
    hide TablesOk, All, Without, Only, InOrder, BaseIsSound, Compacted, Since;
    BaseLevelIsSound(s, p, isBase);
    CompactionKeepsTables(s.files, s.job.inputs, s.job.smallest, isBase, p, s.job.output, s.history, Top(s), Floor(s));
  }

  lemma MovedVersions(s: State, n: nat, p: nat)
    requires VersionsOk(s) && CanPersistMove(s, n, p)
    ensures VersionsOk(PersistedMove(s, n, p))
  {
    hide TablesOk, All, Without, Only, InOrder, Compacted;
    CompactionKeepsTables(s.files, {n}, 0, _ => false, p, n, s.history, Top(s), Floor(s));
  }

  lemma PersistedJob(s: State, s': State)
    requires JobOk(s) && s.edit == NoEdit && s'.edit != FlushEdit
    requires s' == s.(manifest := s'.manifest, edit := s'.edit)
    ensures JobOk(s')
  {
    hide Since;
  }

  lemma PersistedLogs(s: State, s': State)
    requires LogsOk(s) && s.edit == NoEdit && s'.edit != FlushEdit
    requires s' == s.(manifest := s'.manifest, edit := s'.edit)
    requires s'.manifest.logNumber == s.logNumber && s'.manifest.lastSequence == s.lastSequence == |s.history|
    ensures LogsOk(s')
  {
    hide Covers;
    assert Acknowledged(s') == Acknowledged(s);
  }

  lemma PersistedDisk(s: State, s': State)
    requires DiskOk(s) && s' == s.(manifest := s'.manifest, edit := s'.edit)
    requires FileNumbers(s'.manifest.files) <= s.disk && s'.manifest.nextFile == s.nextFile
    requires forall n :: n in FileNumbers(s'.manifest.files) ==> n < s.nextFile
    ensures DiskOk(s')
  {
    hide FileNumbers;
  }

  lemma OutputIsThere(s: State)
    requires DiskOk(s) && JobOk(s) && s.job.Compacting?
    ensures s.job.output in s.disk && s.job.output < s.nextFile
    ensures FileNumbers(s.files) <= s.disk && forall n :: n in FileNumbers(s.files) ==> n < s.nextFile
  {
    hide FileNumbers;
  }

  lemma PersistCompactionKeepsInv(s: State, p: nat, isBase: UserKey -> bool)
    requires Inv(s) && CanPersistCompaction(s, p, isBase)
    ensures Inv(PersistedCompaction(s, p, isBase))
  {
    hide MemoryOk, VersionsOk, JobOk, ReadersOk, LogsOk, DiskOk, FileNumbers, Without, Inputs, InOrder, Compacted;
    var s' := PersistedCompaction(s, p, isBase);
    CompactionMemory(s, s');
    PersistedVersions(s, p, isBase);
    PersistedJob(s, s');
    SameAnswers(s, s');
    HistoryIsDone(s);
    PersistedLogs(s, s');
    CompactedNumbers(s.files, s.job.inputs, s.job.smallest, isBase, p, s.job.output);
    OutputIsThere(s);
    PersistedDisk(s, s');
  }

  lemma FilesAreThere(s: State)
    requires DiskOk(s)
    ensures FileNumbers(s.files) <= s.disk && forall n :: n in FileNumbers(s.files) ==> n < s.nextFile
  {
    hide FileNumbers;
  }

  lemma HistoryIsDone(s: State)
    requires MemoryOk(s)
    ensures s.lastSequence == |s.history|
  {
    hide Slice;
  }

  lemma PersistMoveKeepsInv(s: State, n: nat, p: nat)
    requires Inv(s) && CanPersistMove(s, n, p)
    ensures Inv(PersistedMove(s, n, p))
  {
    hide MemoryOk, VersionsOk, JobOk, ReadersOk, LogsOk, DiskOk, FileNumbers, Without, Inputs, InOrder, Compacted;
    var s' := PersistedMove(s, n, p);
    CompactionMemory(s, s');
    MovedVersions(s, n, p);
    PersistedJob(s, s');
    SameAnswers(s, s');
    HistoryIsDone(s);
    PersistedLogs(s, s');
    CompactedNumbers(s.files, {n}, 0, _ => false, p, n);
    FilesAreThere(s);
    PersistedDisk(s, s');
  }

  // ----- installing, deleting, reading -----

  lemma InstallMemory(s: State)
    requires MemoryOk(s)
    ensures MemoryOk(Installed(s))
  {
    hide Slice;
  }

  lemma InstallVersions(s: State)
    requires VersionsOk(s) && MemoryOk(s) && s.edit != NoEdit
    ensures VersionsOk(Installed(s))
  {
    hide TablesOk, Slice;
    assert Top(Installed(s)) == ManifestTop(s);
  }

  lemma InstallJob(s: State)
    requires JobOk(s) && MemoryOk(s) && s.edit != NoEdit
    ensures JobOk(Installed(s))
  {
    hide Since, Slice;
  }

  lemma InstallLogs(s: State)
    requires LogsOk(s) && s.edit != NoEdit
    ensures LogsOk(Installed(s))
  {
    hide Covers;
    assert Acknowledged(Installed(s)) == Acknowledged(s);
  }

  lemma InstallDisk(s: State)
    requires DiskOk(s) && s.edit != NoEdit
    ensures DiskOk(Installed(s))
  {
    hide FileNumbers;
  }

  lemma InstallKeepsInv(s: State)
    requires Inv(s) && s.edit != NoEdit
    ensures Inv(Installed(s))
  {
    hide MemoryOk, VersionsOk, JobOk, ReadersOk, LogsOk, DiskOk;
    var s' := Installed(s);
    InstallMemory(s);
    InstallVersions(s);
    InstallJob(s);
    SameAnswers(s, s');
    InstallLogs(s);
    InstallDisk(s);
  }

  lemma DeleteLogs(s: State, logs: set<nat>, tables: set<nat>)
    requires LogsOk(s) && CanDeleteObsolete(s, logs, tables)
    ensures LogsOk(DeletedObsolete(s, logs, tables))
  {
    hide Covers, LiveFile;
    assert Acknowledged(DeletedObsolete(s, logs, tables)) == Acknowledged(s);
  }

  lemma DeleteDisk(s: State, logs: set<nat>, tables: set<nat>)
    requires DiskOk(s) && s.manifest.files == s.files && CanDeleteObsolete(s, logs, tables)
    ensures DiskOk(DeletedObsolete(s, logs, tables))
  {
    hide FileNumbers;
    var s' := DeletedObsolete(s, logs, tables);
    forall id | id in s'.readers
      ensures FileNumbers(s'.readers[id].files) <= s'.disk
    {
      assert forall n :: n in FileNumbers(s.readers[id].files) ==> LiveFile(s, n);
    }
  }

  lemma DeleteObsoleteKeepsInv(s: State, logs: set<nat>, tables: set<nat>)
    requires Inv(s) && CanDeleteObsolete(s, logs, tables)
    ensures Inv(DeletedObsolete(s, logs, tables))
  {
    hide MemoryOk, VersionsOk, JobOk, ReadersOk, LogsOk, DiskOk, LiveFile;
    var s' := DeletedObsolete(s, logs, tables);
    SameMemory(s, s');
    SameFloor(s, s');
    SameVersions(s, s');
    SameJob(s, s');
    SameAnswers(s, s');
    DeleteLogs(s, logs, tables);
    NothingPending(s);
    DeleteDisk(s, logs, tables);
  }

  lemma BeginReadAnswers(s: State, id: nat, key: UserKey, snapshot: Option<nat>)
    requires MemoryOk(s) && SnapshotsOk(s) && VersionsOk(s) && ReadersOk(s)
    requires CanBeginRead(s, id, snapshot)
    ensures ReadersOk(BegunRead(s, id, key, snapshot))
  {
    hide TablesOk, At, Layered;
    var s' := BegunRead(s, id, key, snapshot);
    var r := s'.readers[id];
    GetIsAt(s, key, r.number);
    assert ReaderRuns(s', r) == CurrentRuns(s);
    forall i | i in s'.readers && i != id
      ensures Answer(s', s'.readers[i]) == Answer(s, s.readers[i])
    {
      SameMemSameAnswer(s, s', s.readers[i]);
    }
  }

  lemma ReadersDisk(s: State, s': State)
    requires DiskOk(s) && s' == s.(readers := s'.readers)
    requires forall id :: id in s'.readers ==>
               s'.readers[id].files == s.files || (id in s.readers && s'.readers[id] == s.readers[id])
    ensures DiskOk(s')
  {
    hide FileNumbers;
  }

  lemma BeginReadKeepsInv(s: State, id: nat, key: UserKey, snapshot: Option<nat>)
    requires Inv(s) && CanBeginRead(s, id, snapshot)
    ensures Inv(BegunRead(s, id, key, snapshot))
  {
    hide MemoryOk, VersionsOk, JobOk, ReadersOk, LogsOk, DiskOk;
    var s' := BegunRead(s, id, key, snapshot);
    SameMemory(s, s');
    SameFloor(s, s');
    SameVersions(s, s');
    SameJob(s, s');
    BeginReadAnswers(s, id, key, snapshot);
    SameLogs(s, s');
    ReadersDisk(s, s');
  }

  lemma EndReadAnswers(s: State, id: nat)
    requires ReadersOk(s)
    ensures ReadersOk(EndedRead(s, id))
  {
    hide Answer, At;
    var s' := EndedRead(s, id);
    forall i | i in s'.readers
      ensures Answer(s', s'.readers[i]) == Answer(s, s.readers[i])
    {
      SameMemSameAnswer(s, s', s.readers[i]);
    }
  }

  lemma EndReadKeepsInv(s: State, id: nat)
    requires Inv(s) && id in s.readers
    ensures Inv(EndedRead(s, id))
  {
    hide MemoryOk, VersionsOk, JobOk, ReadersOk, LogsOk, DiskOk;
    var s' := EndedRead(s, id);
    SameMemory(s, s');
    SameFloor(s, s');
    SameVersions(s, s');
    SameJob(s, s');
    EndReadAnswers(s, id);
    SameLogs(s, s');
    ReadersDisk(s, s');
  }
}
