/**
 The theorems about whole runs of the store: reads are right, snapshots are stable, reads without the lock
 return the value at their sequence number, and no crash, not even one during recovery, loses an acknowledged
 group.
 */
module StoreRuns {
  import opened ByteStrings
  import opened Versions
  import opened Tables
  import opened Store
  import opened StoreProofs
  import opened StoreSteps
  import opened StoreCrash

  // ----- one step, whole runs -----

  ghost predicate StateOk(s: State) {
    if s.down then DownInv(s) else Inv(s)
  }

  /** Events of a store that is up. */
  lemma WorkKeepsInv(s: State, e: Event)
    requires Inv(s) && Enabled(s, e) && !e.Crash?
    ensures Inv(Next(s, e))
  {
    hide Inv;
    match e
    case BeginWrite(writes) => BeginWriteKeepsInv(s, writes);
    case LogWrite => LogWriteKeepsInv(s);
    case InsertNext => InsertNextKeepsInv(s);
    case FinishWrite => FinishWriteKeepsInv(s);
    case TakeSnapshot(id) => TakeSnapshotKeepsInv(s, id);
    case ReleaseSnapshot(i) => ReleaseSnapshotKeepsInv(s, i);
    case SwitchMemtable => SwitchMemtableKeepsInv(s);
    case PersistFlush(p) => PersistFlushKeepsInv(s, p);
    case BeginCompaction(inputs) => BeginCompactionKeepsInv(s, inputs);
    case PersistCompaction(p, isBase) => PersistCompactionKeepsInv(s, p, isBase);
    case PersistMove(n, p) => PersistMoveKeepsInv(s, n, p);
    case Install => InstallKeepsInv(s);
    case DeleteObsolete(logs, tables) => DeleteObsoleteKeepsInv(s, logs, tables);
    case BeginRead(id, key, snapshot) => BeginReadKeepsInv(s, id, key, snapshot);
    case EndRead(id) => EndReadKeepsInv(s, id);
    case RecoveryStops(_, _, _) => InvMeansUp(s);
    case Recover(_) => InvMeansUp(s);
  }

  lemma InvMeansUp(s: State)
    requires Inv(s)
    ensures !s.down
  {
  }

  lemma StepKeepsInv(s: State, e: Event)
    requires StateOk(s) && Enabled(s, e)
    ensures StateOk(Next(s, e))
  {
    hide Inv, DownInv, DiskLogs, RecoverLogs, Replay, Covers;
    match e
    case Crash(survives) => CrashKeepsInv(s, survives);
    case RecoveryStops(parts, tables, logCreated) => StopKeepsInv(s, parts, tables, logCreated);
    case Recover(parts) => RecoverKeepsInv(s, parts);
    case _ =>
      WorkKeepsInv(s, e);
      InvMeansUp(Next(s, e));
  }

  lemma {:induction false} RunKeepsInv(s: State, events: seq<Event>)
    requires StateOk(s) && CanRun(s, events)
    ensures StateOk(After(s, events))
    decreases |events|
  {
    hide StateOk, Enabled, Next;
    if events != [] {
      StepKeepsInv(s, events[0]);
      RunKeepsInv(Next(s, events[0]), events[1..]);
    }
  }

  lemma Reachable(s: State, events: seq<Event>)
    requires Init(s) && CanRun(s, events)
    ensures if After(s, events).down then DownInv(After(s, events)) else Inv(After(s, events))
  {
    hide CanRun, After, Inv, DownInv;
    InitInv(s);
    InvMeansUp(s);
    RunKeepsInv(s, events);
  }

  /** In every state that any run from a new database reaches, crashes included, a read at a held
      snapshot or at the last sequence number gives what the history says. */
  lemma ReadsAreRight(s: State, events: seq<Event>, key: UserKey, number: nat)
    requires Init(s) && CanRun(s, events) && !After(s, events).down
    requires
      var t := After(s, events);
      number == t.lastSequence || exists i :: 0 <= i < |t.snapshots| && number == t.snapshots[i].number
    ensures
      var t := After(s, events);
      number <= |t.history| && Get(t, key, number) == At(t.history, key, number)
  {
    hide CanRun, After;
    Reachable(s, events);
    GetIsAt(After(s, events), key, number);
  }

  /** A read that runs without the lock, however much happens meanwhile, returns the value at the
      sequence number it started with. */
  lemma UnlockedReadsAreRight(s: State, events: seq<Event>, id: nat)
    requires Init(s) && CanRun(s, events) && !After(s, events).down && id in After(s, events).readers
    ensures
      var t := After(s, events);
      var r := t.readers[id];
      r.number <= |t.history| && Answer(t, r) == At(t.history, r.key, r.number)
  {
    hide CanRun, After;
    Reachable(s, events);
  }

  // ----- durability -----

  /** No event takes back an acknowledged operation; a finished write or a crash adds the whole
      unacknowledged group or nothing. */
  lemma StepKeepsHistory(s: State, e: Event)
    requires Enabled(s, e)
    ensures s.history <= Next(s, e).history
    ensures Next(s, e).history == s.history || Next(s, e).history == s.history + Pending(s)
  {
    hide RecoverLogs, Replay, DiskLogs, PartsOf;
  }

  lemma {:induction false} RunKeepsHistory(s: State, events: seq<Event>)
    requires CanRun(s, events)
    ensures s.history <= After(s, events).history
    decreases |events|
  {
    hide Enabled, Next;
    if events != [] {
      StepKeepsHistory(s, events[0]);
      RunKeepsHistory(Next(s, events[0]), events[1..]);
    }
  }

  lemma AtPrefix(a: seq<Write>, b: seq<Write>, key: UserKey, s: nat)
    requires a <= b && s <= |a|
    ensures At(b, key, s) == At(a, key, s)
  {
    assert b == a + b[|a|..];
    PastIsFixed(a, b[|a|..], key, s);
  }

  /** Whatever happens after a point of a run, crashes and broken-off recoveries included: once the store is up,
      a read finds the acknowledged operations of that point, followed by later ones only. */
  lemma AcknowledgedIsDurable(s: State, before: seq<Event>, after: seq<Event>, key: UserKey)
    requires Init(s) && CanRun(s, before) && CanRun(After(s, before), after)
    requires !After(After(s, before), after).down
    ensures
      var t := After(s, before);
      var u := After(t, after);
      && u.lastSequence == |u.history| && t.history <= u.history
      && Get(u, key, u.lastSequence) == At(t.history + u.history[|t.history|..], key, u.lastSequence)
      && ((forall w :: w in u.history[|t.history|..] ==> w.key != key) ==>
            Get(u, key, u.lastSequence) == At(t.history, key, |t.history|))
  {
    hide CanRun, After, Get;
    var t := After(s, before);
    var u := After(t, after);
    Reachable(s, before);
    RunKeepsInv(t, after);
    GetIsAt(u, key, u.lastSequence);
    RunKeepsHistory(t, after);
    var later := u.history[|t.history|..];
    assert u.history == t.history + later;
    if forall w :: w in later ==> w.key != key {
      OtherKeysDoNotMatter(t.history, later, key, |later|);
    }
  }

  lemma {:induction false} OtherKeysDoNotMatter(history: seq<Write>, more: seq<Write>, key: UserKey, n: nat)
    requires n <= |more| && forall w :: w in more ==> w.key != key
    ensures At(history + more, key, |history| + n) == At(history, key, |history|)
    decreases n
  {
    if n == 0 {
      PastIsFixed(history, more, key, |history|);
    } else {
      assert (history + more)[|history| + n - 1] == more[n - 1];
      OtherKeysDoNotMatter(history, more, key, n - 1);
    }
  }

  ghost predicate Held(s: State, number: nat) {
    exists i :: 0 <= i < |s.snapshots| && s.snapshots[i].number == number
  }

  /** While a snapshot is held, reading at it gives the same answer, whatever is written, flushed,
      compacted or deleted in between. */
  lemma SnapshotsAreStable(s: State, before: seq<Event>, during: seq<Event>, key: UserKey, number: nat)
    requires Init(s) && CanRun(s, before) && CanRun(After(s, before), during)
    requires !After(s, before).down && !After(After(s, before), during).down
    requires Held(After(s, before), number) && Held(After(After(s, before), during), number)
    ensures Get(After(s, before), key, number) == Get(After(After(s, before), during), key, number)
  {
    hide CanRun, After, Get;
    var t := After(s, before);
    var u := After(t, during);
    Reachable(s, before);
    RunKeepsInv(t, during);
    GetIsAt(t, key, number);
    GetIsAt(u, key, number);
    RunKeepsHistory(t, during);
    AtPrefix(t.history, u.history, key, number);
  }

  // ----- crashes -----

  /** Recoveries that break off, one after the other. */
  ghost predicate AllStop(events: seq<Event>) {
    forall e :: e in events ==> e.RecoveryStops?
  }

  lemma {:induction false} StopsKeepHistory(s: State, events: seq<Event>)
    requires s.down && AllStop(events) && CanRun(s, events)
    ensures After(s, events).down && After(s, events).history == s.history
    decreases |events|
  {
    hide RecoverLogs, Replay, PartsOf;
    if events != [] {
      StopsKeepHistory(Next(s, events[0]), events[1..]);
    }
  }

  /** A crash in any reachable state, then any number of recoveries that break off, then one that finishes: it
      finds every table it expects and yields exactly the acknowledged operations, plus all or none of the
      group in flight. */
  lemma CrashLosesNothing(
    s: State, events: seq<Event>, survives: bool, stops: seq<Event>, parts: map<nat, seq<seq<Group>>>, key: UserKey)
    requires Init(s) && CanRun(s, events) && !After(s, events).down
    requires CanCrash(After(s, events), survives) && AllStop(stops)
    requires CanRun(Next(After(s, events), Crash(survives)), stops)
    requires Enabled(After(Next(After(s, events), Crash(survives)), stops), Recover(parts))
    ensures
      var t := After(s, events);
      var d := After(Next(t, Crash(survives)), stops);
      var u := Next(d, Recover(parts));
      var h := t.history + if survives then t.inflight.value.writes else [];
      && FileNumbers(d.manifest.files) <= d.disk
      && u.lastSequence == |h|
      && Get(u, key, u.lastSequence) == At(h, key, |h|)
  {
    hide CanRun, After, Get, RecoverLogs, Replay, PartsOf, DiskLogs, Inv;
    var t := After(s, events);
    var c := Next(t, Crash(survives));
    var d := After(c, stops);
    Reachable(s, events);
    CrashKeepsInv(t, survives);
    RunKeepsInv(c, stops);
    StopsKeepHistory(c, stops);
    RecoverKeepsInv(d, parts);
    var u := Next(d, Recover(parts));
    RightAtTheEnd(u, key);
  }

  lemma RightAtTheEnd(u: State, key: UserKey)
    requires Inv(u)
    ensures u.lastSequence == |u.history| && Get(u, key, u.lastSequence) == At(u.history, key, |u.history|)
  {
    hide At, Get;
    GetIsAt(u, key, u.lastSequence);
  }

  /** In every state that a crash or a broken-off recovery leaves, the numbers that the next recovery takes are
      free, though they come from the descriptor and the logs alone. */
  lemma RecoveryOverwritesNothing(s: State, events: seq<Event>, parts: map<nat, seq<seq<Group>>>)
    requires Init(s) && CanRun(s, events) && Enabled(After(s, events), Recover(parts))
    ensures
      var d := After(s, events);
      var p := Rebuilt(d, parts);
      && d.manifest.nextFile <= p.next && p.next !in d.logs
      && (forall n :: n in FileNumbers(d.manifest.files) ==> n < d.manifest.nextFile)
      && (forall f :: f in p.files ==> f in d.manifest.files || d.manifest.nextFile <= f.number)
      && (forall n :: n in FileNumbers(p.files) ==> n < p.next)
  {
    hide CanRun, After, RecoverLogs, PartsOf, FileNumbers;
    Reachable(s, events);
    NumbersAreFree(After(s, events), parts);
  }

  /** Only the logs of the two memtables are replayed, in this order; the log file cannot be switched
      while the immutable memtable is waiting. */
  lemma LogStaysWhileImmWaits(s: State, e: Event)
    requires Inv(s) && Enabled(s, e) && s.imm.Some? && !e.Crash?
    ensures Next(s, e).logfile == s.logfile
    ensures Next(s, e).imm.Some? ==> Next(s, e).imm == s.imm
  {
    hide RecoverLogs, Replay, PartsOf, TablesOk, Covers, ReadersOk;
  }
}
