/**
 The store against its specification: a history of acknowledged operations, the lengths it had when snapshots
 were taken, and the lengths at which reads began.  The specification sees the calls only; it knows nothing of
 memtables, tables, logs or sequence numbers.
 */
module StoreTrace {
  import opened ByteStrings
  import opened Versions
  import opened Compaction
  import opened Tables
  import opened Store
  import opened StoreProofs
  import opened StoreSteps
  import opened StoreRuns

  /** A read in progress: its key, and how much of the history it sees. */
  datatype Read = Read(key: UserKey, length: nat)

  /** A held snapshot, and how long the history was when it was taken. */
  datatype Taken = Taken(id: nat, length: nat)

  datatype Trace = Trace(
    history: seq<Write>,          // acknowledged operations
    pending: seq<Write>,          // of the write in progress
    snapshots: seq<Taken>,
    open: map<nat, Read>,         // reads in progress
    compactedAt: nat)             // what the last compaction to begin had to preserve

  /** What a compaction that begins now has to preserve: the oldest snapshot, or else only the present. */
  function Oldest(h: Trace): nat {
    if h.snapshots == [] then |h.history| else h.snapshots[0].length
  }

  function Observed(h: Trace, e: Event): Trace {
    match e
    case BeginWrite(writes) => h.(pending := writes)
    case FinishWrite => h.(history := h.history + h.pending, pending := [])
    case TakeSnapshot(id) => h.(snapshots := h.snapshots + [Taken(id, |h.history|)])
    case ReleaseSnapshot(i) =>
      if i < |h.snapshots| then h.(snapshots := h.snapshots[..i] + h.snapshots[i + 1..]) else h
    case BeginRead(id, key, snapshot) =>
      if snapshot.None? then h.(open := h.open[id := Read(key, |h.history|)])
      else if snapshot.value < |h.snapshots| then h.(open := h.open[id := Read(key, h.snapshots[snapshot.value].length)])
      else h
    case EndRead(id) => h.(open := h.open - {id})
    case BeginCompaction(_) => h.(compactedAt := Oldest(h))
    case Crash(survives) =>
      Trace(h.history + (if survives then h.pending else []), [], [], map[], h.compactedAt)
    case _ => h
  }

  function ObservedAll(h: Trace, events: seq<Event>): Trace
    decreases |events|
  {
    if events == [] then h else ObservedAll(Observed(h, events[0]), events[1..])
  }

  const START := Trace([], [], [], map[], 0)

  ghost predicate SnapshotsMatch(s: State, h: Trace) {
    && |s.snapshots| == |h.snapshots|
    && forall i :: 0 <= i < |s.snapshots| ==> Taken(s.snapshots[i].id, s.snapshots[i].number) == h.snapshots[i]
  }

  ghost predicate ReadsMatch(s: State, h: Trace) {
    && s.readers.Keys == h.open.Keys
    && forall id :: id in s.readers ==> Read(s.readers[id].key, s.readers[id].number) == h.open[id]
  }

  ghost predicate Matches(s: State, h: Trace) {
    && s.history == h.history && Pending(s) == h.pending
    && SnapshotsMatch(s, h) && ReadsMatch(s, h)
    && (s.job.Compacting? ==> s.job.smallest == h.compactedAt)
    && (s.down ==> s.inflight.None? && s.snapshots == [] && s.readers == map[] && s.job == Idle)
  }

  lemma StepMatches(s: State, h: Trace, e: Event)
    requires StateOk(s) && Enabled(s, e) && Matches(s, h)
    ensures Matches(Next(s, e), Observed(h, e))
  {
    hide Matches, Next, Enabled, Observed, StateOk;
    WhenUp(s, e);
    if !s.down {
      UpToDate(s);
    }
    match e
    case TakeSnapshot(id) => SnapshotMatches(s, h, e);
    case ReleaseSnapshot(i) => SnapshotMatches(s, h, e);
    case BeginRead(id, key, snapshot) => ReadMatches(s, h, e);
    case EndRead(id) => ReadMatches(s, h, e);
    case BeginWrite(_) => WriteMatches(s, h, e);
    case FinishWrite => WriteMatches(s, h, e);
    case LogWrite => WriteMatches(s, h, e);
    case InsertNext => WriteMatches(s, h, e);
    case BeginCompaction(inputs) => BeginCompactionMatches(s, h, inputs);
    case Crash(survives) => CrashMatches(s, h, e);
    case RecoveryStops(_, _, _) => CrashMatches(s, h, e);
    case Recover(_) => CrashMatches(s, h, e);
    case _ => WorkMatches(s, h, e);
  }

  lemma WhenUp(s: State, e: Event)
    requires Enabled(s, e)
    ensures s.down <==> e.RecoveryStops? || e.Recover?
  {
    hide PartsOf, CanStopRecovery, CanPersistCompaction, CanPersistMove, CanPersistFlush, CanDeleteObsolete;
  }

  lemma SnapshotMatches(s: State, h: Trace, e: Event)
    requires Enabled(s, e) && Matches(s, h) && (e.TakeSnapshot? || e.ReleaseSnapshot?) && s.lastSequence == |s.history|
    ensures Matches(Next(s, e), Observed(h, e))
  {
    SameReads(s, h, Next(s, e), Observed(h, e));
    hide ReadsMatch;
  }

  lemma SameReads(s: State, h: Trace, s': State, h': Trace)
    requires ReadsMatch(s, h) && s'.readers == s.readers && h'.open == h.open
    ensures ReadsMatch(s', h')
  {
  }

  lemma SameSnapshots(s: State, h: Trace, s': State, h': Trace)
    requires SnapshotsMatch(s, h) && s'.snapshots == s.snapshots && h'.snapshots == h.snapshots
    ensures SnapshotsMatch(s', h')
  {
  }

  lemma ReadMatches(s: State, h: Trace, e: Event)
    requires Enabled(s, e) && Matches(s, h) && (e.BeginRead? || e.EndRead?) && s.lastSequence == |s.history|
    ensures Matches(Next(s, e), Observed(h, e))
  {
    if e.BeginRead? && e.snapshot.Some? {
      assert Taken(s.snapshots[e.snapshot.value].id, s.snapshots[e.snapshot.value].number) == h.snapshots[e.snapshot.value];
    }
    var s', h' := Next(s, e), Observed(h, e);
    SameSnapshots(s, h, s', h');
    hide SnapshotsMatch;
    assert s'.readers.Keys == h'.open.Keys;
  }

  lemma WriteMatches(s: State, h: Trace, e: Event)
    requires Enabled(s, e) && Matches(s, h) && (e.BeginWrite? || e.LogWrite? || e.InsertNext? || e.FinishWrite?)
    ensures Matches(Next(s, e), Observed(h, e))
  {
    SameSnapshots(s, h, Next(s, e), Observed(h, e));
    SameReads(s, h, Next(s, e), Observed(h, e));
    hide SnapshotsMatch, ReadsMatch;
  }

  lemma BeginCompactionMatches(s: State, h: Trace, inputs: set<nat>)
    requires Enabled(s, BeginCompaction(inputs)) && Matches(s, h) && s.lastSequence == |s.history|
    ensures Matches(Next(s, BeginCompaction(inputs)), Observed(h, BeginCompaction(inputs)))
  {
    var s', h' := Next(s, BeginCompaction(inputs)), Observed(h, BeginCompaction(inputs));
    SameSnapshots(s, h, s', h');
    SameReads(s, h, s', h');
    hide ReadsMatch;
    assert s.snapshots != [] ==> Taken(s.snapshots[0].id, s.snapshots[0].number) == h.snapshots[0];
  }

  lemma CrashMatches(s: State, h: Trace, e: Event)
    requires Enabled(s, e) && Matches(s, h) && (e.Crash? || e.RecoveryStops? || e.Recover?)
    ensures Matches(Next(s, e), Observed(h, e))
  {
    hide RecoverLogs, Replay, DiskLogs, PartsOf, MaxSequence, FileNumbers;
  }

  /** Work that no caller sees. */
  lemma WorkMatches(s: State, h: Trace, e: Event)
    requires Enabled(s, e) && Matches(s, h)
    requires e.SwitchMemtable? || e.PersistFlush? || e.PersistCompaction? || e.PersistMove? || e.Install? || e.DeleteObsolete?
    ensures Matches(Next(s, e), Observed(h, e))
  {
    hide InOrder, Without, Inputs, Compacted, NoSharedKey, Insert, LiveFile, FileNumbers;
    var s' := Next(s, e);
    SameSnapshots(s, h, s', h);
    if e.SwitchMemtable? {
      FrozenReadsMatch(s, h);
    } else {
      SameReads(s, h, s', h);
    }
    hide SnapshotsMatch, ReadsMatch;
  }

  lemma FrozenReadsMatch(s: State, h: Trace)
    requires ReadsMatch(s, h)
    ensures ReadsMatch(SwitchedMemtable(s), h)
  {
    assert FreezeReaders(s).Keys == s.readers.Keys;
  }

  lemma UpToDate(s: State)
    requires StateOk(s) && !s.down
    ensures s.lastSequence == |s.history|
  {
    hide TablesOk, Covers, ReadersOk, VersionsOk, JobOk, LogsOk, DiskOk, Slice;
  }

  lemma {:induction false} RunMatches(s: State, h: Trace, events: seq<Event>)
    requires StateOk(s) && CanRun(s, events) && Matches(s, h)
    ensures Matches(After(s, events), ObservedAll(h, events))
    decreases |events|
  {
    hide StateOk, Enabled, Next, Matches, Observed;
    if events != [] {
      StepMatches(s, h, events[0]);
      StepKeepsInv(s, events[0]);
      RunMatches(Next(s, events[0]), Observed(h, events[0]), events[1..]);
    }
  }

  lemma FromStart(s: State, events: seq<Event>)
    requires Init(s) && CanRun(s, events)
    ensures Matches(After(s, events), ObservedAll(START, events))
    ensures StateOk(After(s, events))
  {
    hide CanRun, After, ObservedAll, Inv, DownInv;
    InitInv(s);
    InvMeansUp(s);
    RunMatches(s, START, events);
    RunKeepsInv(s, events);
  }

  /** In every reachable state each open read returns, if it finishes now, what the acknowledged history held
      for its key when it began, or when its snapshot was taken. */
  lemma ReadsFollowTheTrace(s: State, events: seq<Event>, id: nat)
    requires Init(s) && CanRun(s, events) && !After(s, events).down
    ensures
      var t, h := After(s, events), ObservedAll(START, events);
      && (id in t.readers <==> id in h.open)
      && (id in h.open ==>
            && h.open[id].length <= |h.history|
            && Answer(t, t.readers[id]) == At(h.history, h.open[id].key, h.open[id].length))
  {
    hide CanRun, After, ObservedAll, Answer;
    FromStart(s, events);
    var t := After(s, events);
    if id in t.readers {
      assert ReadersOk(t);
    }
  }

  /** So does a read of the present. */
  lemma PresentFollowsTheTrace(s: State, events: seq<Event>, key: UserKey)
    requires Init(s) && CanRun(s, events) && !After(s, events).down
    ensures
      var t, h := After(s, events), ObservedAll(START, events);
      Get(t, key, t.lastSequence) == At(h.history, key, |h.history|)
  {
    hide CanRun, After, ObservedAll, Get;
    FromStart(s, events);
    UpToDate(After(s, events));
    ReadsAreRight(s, events, key, After(s, events).lastSequence);
  }

  // ----- the same from the point at which a read begins -----

  /** The read stays open and no crash ends it. */
  ghost predicate StaysOpen(id: nat, events: seq<Event>) {
    forall e :: e in events ==> !e.Crash? && e != EndRead(id) && (e.BeginRead? ==> e.id != id)
  }

  lemma {:induction false} OpenReadStays(h: Trace, events: seq<Event>, id: nat)
    requires id in h.open && StaysOpen(id, events)
    ensures id in ObservedAll(h, events).open && ObservedAll(h, events).open[id] == h.open[id]
    ensures h.history <= ObservedAll(h, events).history
    decreases |events|
  {
    if events != [] {
      assert events[0] in events;
      OpenReadStays(Observed(h, events[0]), events[1..], id);
    }
  }

  lemma {:induction false} ObservedOn(h: Trace, a: seq<Event>, b: seq<Event>)
    ensures ObservedAll(h, a + b) == ObservedAll(ObservedAll(h, a), b)
    decreases |a|
  {
    hide Observed;
    if a == [] {
      assert a + b == b;
    } else {
      assert (a + b)[1..] == a[1..] + b;
      ObservedOn(Observed(h, a[0]), a[1..], b);
    }
  }

  lemma {:induction false} RunOn(s: State, a: seq<Event>, b: seq<Event>)
    requires CanRun(s, a) && CanRun(After(s, a), b)
    ensures CanRun(s, a + b) && After(s, a + b) == After(After(s, a), b)
    decreases |a|
  {
    hide Enabled, Next;
    if a == [] {
      assert a + b == b;
    } else {
      assert (a + b)[1..] == a[1..] + b;
      RunOn(Next(s, a[0]), a[1..], b);
    }
  }

  lemma {:induction false} NoCrashStaysUp(s: State, events: seq<Event>)
    requires CanRun(s, events) && !s.down && forall e :: e in events ==> !e.Crash?
    ensures !After(s, events).down
    decreases |events|
  {
    hide RecoverLogs, Replay, PartsOf, DiskLogs;
    if events != [] {
      assert events[0] in events;
      NoCrashStaysUp(Next(s, events[0]), events[1..]);
    }
  }

  /** What an open read sees. */
  lemma OpenRead(s: State, before: seq<Event>, id: nat, key: UserKey, snapshot: Option<nat>, during: seq<Event>)
    requires Init(s) && CanRun(s, before) && CanRun(After(s, before), [BeginRead(id, key, snapshot)] + during)
    requires StaysOpen(id, during)
    ensures
      var h := ObservedAll(START, before);
      var u := After(After(s, before), [BeginRead(id, key, snapshot)] + during);
      && h.history == After(s, before).history
      && (snapshot.Some? ==> snapshot.value < |h.snapshots|)
      && !u.down && id in u.readers && LengthOf(h, snapshot) <= |h.history|
      && Answer(u, u.readers[id]) == At(h.history, key, LengthOf(h, snapshot))
  {
    hide CanRun, After, ObservedAll, Answer, StaysOpen;
    var e := BeginRead(id, key, snapshot);
    var h := ObservedAll(START, before);
    ReadBegins(s, before, e, during);
    NoCrashInRead(id, e, during);
    NoCrashStaysUp(After(s, before), [e] + during);
    RunOn(s, before, [e] + during);
    ReadsFollowTheTrace(s, before + ([e] + during), id);
    TraceOfRead(h, before, e, during);
    AtPrefix(h.history, ObservedAll(START, before + ([e] + during)).history, key, LengthOf(h, snapshot));
  }

  function LengthOf(h: Trace, snapshot: Option<nat>): nat
    requires snapshot.Some? ==> snapshot.value < |h.snapshots|
  {
    if snapshot.Some? then h.snapshots[snapshot.value].length else |h.history|
  }

  lemma ReadBegins(s: State, before: seq<Event>, e: Event, during: seq<Event>)
    requires Init(s) && CanRun(s, before) && CanRun(After(s, before), [e] + during) && e.BeginRead?
    ensures
      var t, h := After(s, before), ObservedAll(START, before);
      && !t.down && h.history == t.history && (e.snapshot.Some? ==> e.snapshot.value < |h.snapshots|)
      && LengthOf(h, e.snapshot) <= |h.history|
  {
    var t := After(s, before);
    assert ([e] + during)[0] == e;
    assert Enabled(t, e);
    FromStart(s, before);
    hide CanRun, After, ObservedAll, StateOk;
    NumbersArePast(t, ObservedAll(START, before));
  }

  /** The trace knows the read, from its beginning on. */
  lemma TraceOfRead(h: Trace, before: seq<Event>, e: Event, during: seq<Event>)
    requires h == ObservedAll(START, before) && e.BeginRead? && StaysOpen(e.id, during)
    requires e.snapshot.Some? ==> e.snapshot.value < |h.snapshots|
    ensures
      var h' := ObservedAll(START, before + ([e] + during));
      && e.id in h'.open && h'.open[e.id] == Read(e.key, LengthOf(h, e.snapshot)) && h.history <= h'.history
  {
    hide ObservedAll, StaysOpen;
    ObservedOn(START, before, [e] + during);
    ObservedOn(h, [e], during);
    ObservedOne(h, e);
    OpenReadStays(Observed(h, e), during, e.id);
  }

  lemma ObservedOne(h: Trace, e: Event)
    ensures ObservedAll(h, [e]) == Observed(h, e)
  {
    assert [e][1..] == [];
  }

  lemma NoCrashInRead(id: nat, e: Event, during: seq<Event>)
    requires e.BeginRead? && StaysOpen(id, during)
    ensures forall x :: x in [e] + during ==> !x.Crash?
  {
  }

  lemma NumbersArePast(t: State, h: Trace)
    requires StateOk(t) && !t.down && Matches(t, h)
    ensures forall i :: 0 <= i < |h.snapshots| ==> h.snapshots[i].length <= |h.history|
  {
    UpToDate(t);
    hide TablesOk, Covers, ReadersOk, VersionsOk, JobOk, LogsOk, DiskOk, MemoryOk;
  }

  /** A read without a snapshot returns what was acknowledged when it began, however much is written, flushed,
      compacted or deleted while it runs. */
  lemma ReadSeesThePresent(s: State, before: seq<Event>, id: nat, key: UserKey, during: seq<Event>)
    requires Init(s) && CanRun(s, before) && CanRun(After(s, before), [BeginRead(id, key, None)] + during)
    requires StaysOpen(id, during)
    ensures
      var t := After(s, before);
      var u := After(t, [BeginRead(id, key, None)] + during);
      && !u.down && id in u.readers
      && Answer(u, u.readers[id]) == At(t.history, key, |t.history|)
  {
    hide CanRun, After, ObservedAll, Answer, StaysOpen;
    OpenRead(s, before, id, key, None, during);
  }

  ghost predicate NamesLength(h: Trace, i: nat, length: nat) {
    forall k :: 0 <= k < |h.snapshots| && h.snapshots[k].id == i ==> h.snapshots[k].length == length
  }

  /** As long as its number is not given out again, a snapshot means the point at which it was taken. */
  lemma {:induction false} SnapshotKeepsLength(h: Trace, events: seq<Event>, i: nat, length: nat)
    requires NamesLength(h, i, length) && TakeSnapshot(i) !in events
    ensures NamesLength(ObservedAll(h, events), i, length)
    decreases |events|
  {
    if events != [] {
      assert events[0] in events;
      SnapshotKeepsLength(Observed(h, events[0]), events[1..], i, length);
    }
  }

  /** A read at a snapshot returns what was acknowledged when the snapshot was taken, whatever happened between
      and happens while it runs. */
  lemma ReadSeesTheSnapshot(
    s: State, before: seq<Event>, i: nat, between: seq<Event>, id: nat, key: UserKey, k: nat, during: seq<Event>)
    requires Init(s) && CanRun(s, before) && CanRun(After(s, before), [TakeSnapshot(i)] + between)
    requires TakeSnapshot(i) !in between
    requires
      var p := After(After(s, before), [TakeSnapshot(i)] + between);
      k < |p.snapshots| && p.snapshots[k].id == i && CanRun(p, [BeginRead(id, key, Some(k))] + during)
    requires StaysOpen(id, during)
    ensures
      var t := After(s, before);
      var u := After(After(t, [TakeSnapshot(i)] + between), [BeginRead(id, key, Some(k))] + during);
      && !u.down && id in u.readers
      && Answer(u, u.readers[id]) == At(t.history, key, |t.history|)
  {
    hide CanRun, After, ObservedAll, Answer, StaysOpen;
    var t, first := After(s, before), [TakeSnapshot(i)] + between;
    RunOn(s, before, first);
    OpenRead(s, before + first, id, key, Some(k), during);
    SnapshotLength(s, before, i, between, k);
    RunKeepsHistory(t, first);
    AtPrefix(t.history, After(t, first).history, key, |t.history|);
  }

  lemma SnapshotLength(s: State, before: seq<Event>, i: nat, between: seq<Event>, k: nat)
    requires Init(s) && CanRun(s, before) && CanRun(After(s, before), [TakeSnapshot(i)] + between)
    requires TakeSnapshot(i) !in between
    requires
      var p := After(After(s, before), [TakeSnapshot(i)] + between);
      k < |p.snapshots| && p.snapshots[k].id == i
    ensures
      var h := ObservedAll(START, before + ([TakeSnapshot(i)] + between));
      k < |h.snapshots| && h.snapshots[k].length == |After(s, before).history|
  {
    var t, first := After(s, before), [TakeSnapshot(i)] + between;
    assert first[0] == TakeSnapshot(i);
    assert Enabled(t, TakeSnapshot(i));
    var h := ObservedAll(START, before);
    FromStart(s, before);
    hide CanRun, After, ObservedAll, StateOk;
    FreshNumber(t, h, i);
    RunOn(s, before, first);
    FromStart(s, before + first);
    ObservedOn(START, before, first);
    ObservedOn(h, [TakeSnapshot(i)], between);
    ObservedOne(h, TakeSnapshot(i));
    SnapshotKeepsLength(Observed(h, TakeSnapshot(i)), between, i, |h.history|);
  }

  lemma FreshNumber(t: State, h: Trace, i: nat)
    requires Matches(t, h) && CanTakeSnapshot(t, i)
    ensures NamesLength(Observed(h, TakeSnapshot(i)), i, |h.history|)
  {
    hide ReadsMatch;
    forall k | 0 <= k < |h.snapshots|
      ensures h.snapshots[k].id != i
    {
      assert Taken(t.snapshots[k].id, t.snapshots[k].number) == h.snapshots[k];
    }
  }

  // ----- compaction really reclaims -----

  /** What a compaction works with is what had to be preserved when it began. */
  lemma CompactionKnowsTheFloor(s: State, events: seq<Event>)
    requires Init(s) && CanRun(s, events) && After(s, events).job.Compacting?
    ensures After(s, events).job.smallest == ObservedAll(START, events).compactedAt
  {
    hide CanRun, After, ObservedAll;
    FromStart(s, events);
  }

  /** What the compaction writes holds no entry that a newer one of its inputs hides from every read it has to
      preserve, and no deletion marker of the base level that such reads see. */
  lemma CompactionReclaims(s: State, events: seq<Event>, p: nat, isBase: UserKey -> bool)
    requires Init(s) && CanRun(s, events) && Enabled(After(s, events), PersistCompaction(p, isBase))
    ensures
      var t := After(s, events);
      var floor := ObservedAll(START, events).compactedAt;
      var inputs := Inputs(t.files, t.job.inputs);
      var files := Next(t, PersistCompaction(p, isBase)).manifest.files;
      && p < |files| && files[p].number == t.job.output
      && (forall q :: q in files[p].run ==> q in inputs && files[p].run[q] == inputs[q])
      && (forall q, r :: q in files[p].run && r in inputs && q < r <= floor ==> inputs[r].key != inputs[q].key)
      && (forall q :: q in files[p].run && q <= floor && inputs[q].value.None? ==> !isBase(inputs[q].key))
  {
    hide CanRun, After, ObservedAll, Inputs, Without;
    CompactionKnowsTheFloor(s, events);
  }
}
