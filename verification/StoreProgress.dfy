/**
 What the store's work achieves: writes go through, a flush moves everything into tables, a compaction gets rid
 of its inputs, and what is obsolete can be deleted.
 */
module StoreProgress {
  import opened ByteStrings
  import opened Versions
  import opened Compaction
  import opened Tables
  import opened Store
  import opened StoreProofs
  import opened StoreSteps
  import opened StoreRuns

  lemma Then(s: State, e: Event, rest: seq<Event>)
    requires Enabled(s, e) && CanRun(Next(s, e), rest)
    ensures CanRun(s, [e] + rest) && After(s, [e] + rest) == After(Next(s, e), rest)
  {
    hide Enabled, Next;
    assert ([e] + rest)[1..] == rest;
  }

  /** Three steps in a row. */
  lemma ThreeSteps(s: State, e: Event, f: Event, g: Event)
    requires Inv(s) && Enabled(s, e) && Enabled(Next(s, e), f) && Enabled(Next(Next(s, e), f), g)
    requires !e.Crash? && !f.Crash? && !g.Crash?
    ensures CanRun(s, [e, f, g]) && After(s, [e, f, g]) == Next(Next(Next(s, e), f), g) && Inv(After(s, [e, f, g]))
  {
    hide Inv, Enabled, Next;
    var a := Next(s, e);
    var b := Next(a, f);
    UpStep(s, e);
    UpStep(a, f);
    UpStep(b, g);
    Then(b, g, []);
    Then(a, f, [g]);
    Then(s, e, [f, g]);
    assert [g] + [] == [g] && [f] + [g] == [f, g] && [e] + [f, g] == [e, f, g];
  }

  lemma UpStep(s: State, e: Event)
    requires Inv(s) && Enabled(s, e) && !e.Crash?
    ensures Inv(Next(s, e))
  {
    hide Inv, Enabled, Next;
    WorkKeepsInv(s, e);
  }

  // ----- writing -----

  /** A write that is logged is applied and finished by its leader alone. */
  lemma {:induction false} WriteFinishes(s: State) returns (events: seq<Event>)
    requires Inv(s) && s.inflight.Some? && s.inflight.value.logged
    ensures CanRun(s, events)
    ensures
      var t := After(s, events);
      Inv(t) && t.inflight.None? && t.history == s.history + s.inflight.value.writes && t.lastSequence == |t.history|
    decreases |s.inflight.value.writes| - s.inflight.value.applied
  {
    var f := s.inflight.value;
    var e := if f.applied < |f.writes| then InsertNext else FinishWrite;
    assert f.applied <= |f.writes|;
    UpStep(s, e);
    hide Inv;
    if f.applied < |f.writes| {
      var later := WriteFinishes(Next(s, e));
      Then(s, e, later);
      events := [e] + later;
    } else {
      Finished(s);
      Then(s, e, []);
      events := [e];
    }
  }

  lemma Finished(s: State)
    requires Inv(s) && CanFinishWrite(s)
    ensures FinishedWrite(s).lastSequence == |FinishedWrite(s).history|
  {
    hide VersionsOk, JobOk, ReadersOk, LogsOk, DiskOk, Slice;
  }

  /** Whenever no write is in hand, one can be made: it is acknowledged as a whole, and a read then sees it. */
  lemma WriteGoesThrough(s: State, writes: seq<Write>) returns (events: seq<Event>)
    requires Inv(s) && s.inflight.None?
    ensures CanRun(s, events)
    ensures
      var t := After(s, events);
      && !t.down && t.history == s.history + writes
      && forall key :: Get(t, key, t.lastSequence) == At(s.history + writes, key, |s.history + writes|)
  {
    assert s.logfile in s.logs && !s.down;
    var a := Next(s, BeginWrite(writes));
    UpStep(s, BeginWrite(writes));
    var b := Next(a, LogWrite);
    UpStep(a, LogWrite);
    hide Inv, Enabled, Next;
    Logged(s, writes);
    var later := WriteFinishes(b);
    Then(a, LogWrite, later);
    Then(s, BeginWrite(writes), [LogWrite] + later);
    events := [BeginWrite(writes)] + ([LogWrite] + later);
    var t := After(s, events);
    InvMeansUp(t);
    forall key
      ensures Get(t, key, t.lastSequence) == At(t.history, key, |t.history|)
    {
      RightAtTheEnd(t, key);
    }
  }

  lemma Logged(s: State, writes: seq<Write>)
    requires Enabled(s, BeginWrite(writes)) && Enabled(Next(s, BeginWrite(writes)), LogWrite)
    ensures
      var t := Next(Next(s, BeginWrite(writes)), LogWrite);
      t.inflight == Some(InFlight(writes, true, 0)) && t.history == s.history
  {
  }

  // ----- flushing -----

  /** Switching the memtable and flushing it leaves the whole history in the tables, and nothing to replay. */
  lemma FlushEmptiesTheMemtable(s: State)
    requires Inv(s) && s.inflight.None? && s.imm.None? && s.edit == NoEdit
    ensures CanRun(s, [SwitchMemtable, PersistFlush(0), Install])
    ensures
      var t := After(s, [SwitchMemtable, PersistFlush(0), Install]);
      && t.history == s.history && t.mem == map[] && t.imm.None? && t.edit == NoEdit
      && t.logNumber == t.logfile && t.logNumber > s.logfile
      && Replay(t.logs, t.manifest.logNumber, t.logfile) == []
      && forall key :: ValueOf(Layered(Runs(t.files), key, t.lastSequence)) == At(t.history, key, |t.history|)
  {
    InvMeansUp(s);
    FlushSteps(s);
    Flushed(s);
    hide Inv, Enabled, Next, CanRun, After, SwitchedMemtable, PersistedFlush, CanPersistFlush, Installed, Replay,
         Layered, Runs, ValueOf, At;
    ThreeSteps(s, SwitchMemtable, PersistFlush(0), Install);
    var t := Installed(PersistedFlush(SwitchedMemtable(s), 0));
    NothingToReplay(t);
    AllInTables(t);
  }

  lemma FlushSteps(s: State)
    requires !s.down && s.inflight.None? && s.imm.None? && s.edit == NoEdit
    ensures Enabled(s, SwitchMemtable) && Next(s, SwitchMemtable) == SwitchedMemtable(s)
    ensures
      var a := SwitchedMemtable(s);
      Enabled(a, PersistFlush(0)) && Next(a, PersistFlush(0)) == PersistedFlush(a, 0)
    ensures
      var b := PersistedFlush(SwitchedMemtable(s), 0);
      Enabled(b, Install) && Next(b, Install) == Installed(b)
  {
    hide FreezeReaders, Insert, NoSharedKey;
  }

  lemma Flushed(s: State)
    requires Inv(s) && s.inflight.None? && s.imm.None? && s.edit == NoEdit
    ensures
      var t := Installed(PersistedFlush(SwitchedMemtable(s), 0));
      && t.history == s.history && t.mem == map[] && t.imm.None? && t.edit == NoEdit && t.memBase == |t.history|
      && t.logNumber == t.logfile == t.manifest.logNumber && t.logNumber > s.logfile
      && t.logs == s.logs[t.logfile := []] && (forall n :: n in t.logs ==> n <= t.logfile)
  {
    hide VersionsOk, JobOk, ReadersOk, DiskOk, Slice, Covers;
  }

  lemma NothingToReplay(t: State)
    requires t.logNumber == t.logfile == t.manifest.logNumber && t.logfile in t.logs && t.logs[t.logfile] == []
    ensures Replay(t.logs, t.manifest.logNumber, t.logfile) == []
  {
    assert Replay(t.logs, t.logfile + 1, t.logfile) == [];
  }

  lemma AllInTables(t: State)
    requires Inv(t) && t.imm.None? && t.memBase == |t.history|
    ensures forall key :: ValueOf(Layered(Runs(t.files), key, t.lastSequence)) == At(t.history, key, |t.history|)
  {
    hide JobOk, ReadersOk, LogsOk, DiskOk, Slice, FilesOk;
    assert t.lastSequence == |t.history| && Floor(t) <= t.lastSequence;
    assert Faithful(t.files, t.history, |t.history|, Floor(t));
  }

  // ----- compaction -----

  /** A compaction leaves none of its inputs in the version, and one new table in their place. */
  lemma CompactionReplacesInputs(s: State, inputs: set<nat>, p: nat, isBase: UserKey -> bool)
    requires Inv(s) && CanBeginCompaction(s, inputs)
    requires CanPersistCompaction(BegunCompaction(s, inputs), p, isBase)
    ensures CanRun(s, [BeginCompaction(inputs), PersistCompaction(p, isBase), Install])
    ensures
      var t := After(s, [BeginCompaction(inputs), PersistCompaction(p, isBase), Install]);
      && t.job == Idle && t.edit == NoEdit && s.nextFile !in FileNumbers(s.files)
      && FileNumbers(t.files) == FileNumbers(s.files) - inputs + {s.nextFile}
      && t.history == s.history && forall key :: Get(t, key, t.lastSequence) == Get(s, key, s.lastSequence)
  {
    InvMeansUp(s);
    CompactionSteps(s, inputs, p, isBase);
    NewNumber(s);
    hide Inv, Enabled, Next, CanRun, After, CanBeginCompaction, BegunCompaction, PersistedCompaction,
         CanPersistCompaction, Compacted, FileNumbers, Without, Get, At, Installed;
    ThreeSteps(s, BeginCompaction(inputs), PersistCompaction(p, isBase), Install);
    ReplacedNumbers(s.files, inputs, Floor(s), isBase, p, s.nextFile);
    var t := Installed(PersistedCompaction(BegunCompaction(s, inputs), p, isBase));
    forall key
      ensures Get(t, key, t.lastSequence) == Get(s, key, s.lastSequence)
    {
      RightAtTheEnd(s, key);
      RightAtTheEnd(t, key);
    }
  }

  lemma CompactionSteps(s: State, inputs: set<nat>, p: nat, isBase: UserKey -> bool)
    requires !s.down && CanBeginCompaction(s, inputs)
    requires CanPersistCompaction(BegunCompaction(s, inputs), p, isBase)
    ensures
      var e := BeginCompaction(inputs);
      Enabled(s, e) && Next(s, e) == BegunCompaction(s, inputs)
    ensures
      var a := BegunCompaction(s, inputs);
      var e := PersistCompaction(p, isBase);
      Enabled(a, e) && Next(a, e) == PersistedCompaction(a, p, isBase)
    ensures
      var b := PersistedCompaction(BegunCompaction(s, inputs), p, isBase);
      var t := Installed(b);
      && Enabled(b, Install) && Next(b, Install) == t
      && t.history == s.history && t.job == Idle && t.edit == NoEdit && p <= |Without(s.files, inputs)|
      && t.files == Compacted(s.files, inputs, Floor(s), isBase, p, s.nextFile)
  {
    hide Compacted, Without, InOrder, Inputs, FileNumbers, HasKey, Floor;
  }

  lemma NewNumber(s: State)
    requires Inv(s)
    ensures s.nextFile !in FileNumbers(s.files)
  {
    FilesAreThere(s);
  }

  lemma ReplacedNumbers(
    files: seq<File>, inputs: set<nat>, smallest: nat, isBase: UserKey -> bool, p: nat, number: nat)
    requires p <= |Without(files, inputs)|
    ensures FileNumbers(Compacted(files, inputs, smallest, isBase, p, number)) == FileNumbers(files) - inputs + {number}
  {
    var rest := Without(files, inputs);
    NumbersInserted(rest, p, File(number, Retained(Inputs(files, inputs), smallest, isBase)));
    WithoutMembers(files, inputs);
    hide Without;
    forall n | n in FileNumbers(rest)
      ensures n in FileNumbers(files) - inputs
    {
      var i :| 0 <= i < |rest| && rest[i].number == n;
      assert rest[i] in rest;
      var j :| 0 <= j < |files| && files[j] == rest[i];
    }
    forall n | n in FileNumbers(files) - inputs
      ensures n in FileNumbers(rest)
    {
      var i :| 0 <= i < |files| && files[i].number == n;
      assert files[i] in files && files[i] in rest;
      var j :| 0 <= j < |rest| && rest[j] == files[i];
    }
  }

  // ----- deleting -----

  ghost function ObsoleteLogs(s: State): set<nat> {
    set n | n in s.logs && n < s.logNumber
  }

  ghost function ObsoleteTables(s: State): set<nat> {
    set n | n in s.disk && !LiveFile(s, n)
  }

  /** Everything obsolete can be deleted at once; what is left is what recovery, versions, reads and the running
      compaction need. */
  lemma EverythingObsoleteCanGo(s: State)
    requires Inv(s) && s.edit == NoEdit
    ensures Enabled(s, DeleteObsolete(ObsoleteLogs(s), ObsoleteTables(s)))
    ensures
      var t := Next(s, DeleteObsolete(ObsoleteLogs(s), ObsoleteTables(s)));
      && (forall n :: n in t.logs <==> n in s.logs && n >= s.logNumber)
      && (forall n :: n in t.disk <==> n in s.disk && LiveFile(s, n))
      && (forall n :: n in t.logs ==> t.logs[n] == s.logs[n])
  {
    hide LiveFile;
    assert !s.down;
  }
}
