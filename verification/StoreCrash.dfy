/**
 Crashes and recovery: what the descriptor and the logs hold after a crash, however often recovery itself is
 cut short, and what a recovery that finishes makes of it.
 */
module StoreCrash {
  import opened ByteStrings
  import opened Versions
  import opened Tables
  import opened Store
  import opened StoreProofs
  import opened StoreSteps

  // ----- what recovery reads -----

  lemma {:induction false} ReplaySkips(logs: map<nat, seq<Group>>, from: nat, m: nat, to: nat)
    requires from <= m && forall n :: from <= n < m ==> n !in logs
    requires m <= to + 1
    ensures Replay(logs, from, to) == Replay(logs, m, to)
    decreases m - from
  {
    if from < m {
      ReplaySkips(logs, from + 1, m, to);
    }
  }

  lemma ReplayFrom(logs: map<nat, seq<Group>>, from: nat, m: nat, to: nat)
    requires from <= m <= to && m in logs && forall n :: from <= n < m ==> n !in logs
    ensures Replay(logs, from, to) == logs[m] + Replay(logs, m + 1, to)
  {
    ReplaySkips(logs, from, m, to);
  }

  function HistoryAfter(s: State, survives: bool): seq<Write>
    requires survives ==> s.inflight.Some?
  {
    s.history + if survives then s.inflight.value.writes else []
  }

  lemma NewestLogCovers(s: State, survives: bool)
    requires LogsOk(s) && MemoryOk(s)
    requires survives ==> s.inflight.Some? && s.inflight.value.logged
    ensures Covers(DiskLogs(s, survives)[s.logfile], HistoryAfter(s, survives), s.memBase, |HistoryAfter(s, survives)|)
    ensures DiskLogs(s, survives)[s.logfile] == [] ==> Acknowledged(s) == [] && !survives
  {
    hide Covers, Slice;
    var h := HistoryAfter(s, survives);
    var groups := Acknowledged(s);
    CoversGrows(groups, s.history, h[|s.history|..], s.memBase, |s.history|);
    assert h == s.history + h[|s.history|..];
    if survives {
      var g := Group(s.lastSequence + 1, Pending(s));
      assert h[|s.history|..|s.history| + |g.writes|] == g.writes;
      CoversAppend(groups, g, h, s.memBase, |s.history|);
    } else {
      assert h == s.history;
    }
  }

  /** The records that recovery replays, in terms of the two memtables' logs. */
  lemma ReplayedLogs(s: State, survives: bool)
    requires LogsOk(s)
    ensures Replay(DiskLogs(s, survives), s.manifest.logNumber, s.logfile)
         == (if ImmIsReplayed(s) then s.logs[s.imm.value.log] else []) + DiskLogs(s, survives)[s.logfile]
  {
    hide Covers;
    var logs := DiskLogs(s, survives);
    assert Replay(logs, s.logfile + 1, s.logfile) == [];
    assert logs[s.logfile] + [] == logs[s.logfile] == [] + logs[s.logfile];
    if ImmIsReplayed(s) {
      var m := s.imm.value.log;
      ReplayFrom(logs, s.manifest.logNumber, m, s.logfile);
      ReplayFrom(logs, m + 1, s.logfile, s.logfile);
    } else {
      ReplayFrom(logs, s.manifest.logNumber, s.logfile, s.logfile);
    }
  }

  /** Recovery replays exactly the operations that are in no table of the descriptor: all
      acknowledged ones, and those of the unacknowledged group or none of them. */
  lemma ReplayCovers(s: State, survives: bool)
    requires LogsOk(s) && MemoryOk(s)
    requires survives ==> s.inflight.Some? && s.inflight.value.logged
    ensures
      var groups := Replay(DiskLogs(s, survives), s.manifest.logNumber, s.logfile);
      var h := HistoryAfter(s, survives);
      && Covers(groups, h, ManifestTop(s), |h|)
      && (groups == [] ==> s.manifest.lastSequence == |h|)
  {
    hide Covers, Slice, Replay, DiskLogs;
    var newest, h := DiskLogs(s, survives)[s.logfile], HistoryAfter(s, survives);
    NewestLogCovers(s, survives);
    ReplayedLogs(s, survives);
    if ImmIsReplayed(s) {
      var older := s.logs[s.imm.value.log];
      CoversGrows(older, s.history, h[|s.history|..], s.imm.value.base, s.memBase);
      assert h == s.history + h[|s.history|..];
      CoversConcat(older, newest, h, s.imm.value.base, s.memBase, |h|);
    } else {
      assert [] + newest == newest;
    }
  }

  /** The crash itself. */
  lemma CrashKeepsInv(s: State, survives: bool)
    requires Inv(s) && CanCrash(s, survives)
    ensures DownInv(Crashed(s, survives, ManifestTop(s)))
  {
    hide TablesOk, Covers, Slice, Replay, ReadersOk, DiskLogs, FileNumbers, JobOk;
    var h := HistoryAfter(s, survives);
    ReplayCovers(s, survives);
    var more := h[|s.history|..];
    assert h == s.history + more;
    TablesSurviveGrowth(s.manifest.files, s.history, more, ManifestTop(s), Floor(s), |h|);
  }

  // ----- what recovery builds -----

  lemma CoversNothing(history: seq<Write>, lo: nat, hi: nat)
    requires Covers([], history, lo, hi)
    ensures lo == hi
  {
  }

  lemma EmptyCovers(history: seq<Write>, lo: nat)
    ensures Covers([], history, lo, lo)
  {
  }

  /** The tables written from one log hold the operations of that log. */
  lemma {:induction false} RecoveredTables(
    files: seq<File>, parts: seq<seq<Group>>, number: nat, history: seq<Write>, lo: nat, hi: nat, floor: nat)
    requires TablesOk(files, history, lo, floor)
    requires Covers(Concat(parts), history, lo, hi) && hi <= |history|
    ensures TablesOk(RecoverFiles(files, parts, number), history, hi, floor)
    decreases |parts|
  {
    hide TablesOk, Covers, Slice, Insert, RunOf;
    if parts == [] {
      assert Concat(parts) == [];
      CoversNothing(history, lo, hi);
    } else {
      var mid := CoversSplit(parts[0], Concat(parts[1..]), history, lo, hi);
      CoversBounds(Concat(parts[1..]), history, mid, hi);
      RunOfCovers(parts[0], history, lo, mid);
      FlushKeepsTables(files, number, history, lo, mid, floor, 0);
      if RunOf(parts[0]) == map[] {
        EmptySlice(history, lo, mid);
        RecoveredTables(files, parts[1..], number + 1, history, mid, hi, floor);
      } else {
        RecoveredTables(Insert(files, 0, File(number, RunOf(parts[0]))), parts[1..], number + 1, history, mid, hi, floor);
      }
    }
  }

  lemma EmptySlice(history: seq<Write>, lo: nat, hi: nat)
    requires lo <= hi <= |history| && Slice(history, lo, hi) == map[]
    ensures lo == hi
  {
    assert hi !in Slice(history, lo, hi);
  }

  /** The tables written from all logs hold the operations of all logs. */
  lemma {:induction false} RebuiltTables(
    logs: map<nat, seq<Group>>, from: nat, to: nat, parts: map<nat, seq<seq<Group>>>, p: Progress,
    history: seq<Write>, lo: nat, hi: nat, floor: nat)
    requires PartsOf(logs, from, to, parts) && TablesOk(p.files, history, lo, floor)
    requires Covers(Replay(logs, from, to), history, lo, hi) && hi <= |history|
    ensures TablesOk(RecoverLogs(logs, from, to, parts, p).files, history, hi, floor)
    decreases 1 + to - from
  {
    hide TablesOk, Covers, RecoverFiles, Concat;
    if from > to {
      CoversNothing(history, lo, hi);
    } else if from !in logs {
      assert Replay(logs, from, to) == [] + Replay(logs, from + 1, to) == Replay(logs, from + 1, to);
      RebuiltTables(logs, from + 1, to, parts, p, history, lo, hi, floor);
    } else {
      var later := Replay(logs, from + 1, to);
      var mid := CoversSplit(logs[from], later, history, lo, hi);
      CoversBounds(later, history, mid, hi);
      RecoveredTables(p.files, parts[from], p.next, history, lo, mid, floor);
      var next := p.next + |parts[from]|;
      var p' := Progress(RecoverFiles(p.files, parts[from], p.next), if next <= from then from + 1 else next);
      RebuiltTables(logs, from + 1, to, parts, p', history, mid, hi, floor);
    }
  }

  lemma {:induction false} RecoveredNumbers(files: seq<File>, parts: seq<seq<Group>>, number: nat)
    requires forall n :: n in FileNumbers(files) ==> n < number
    ensures forall n :: n in FileNumbers(RecoverFiles(files, parts, number)) ==> n < number + |parts|
    decreases |parts|
  {
    hide RunOf, Insert, FileNumbers;
    if parts != [] {
      var f := File(number, RunOf(parts[0]));
      NumbersInserted(files, 0, f);
      RecoveredNumbers(if f.run == map[] then files else Insert(files, 0, f), parts[1..], number + 1);
    }
  }

  /** The next file number stays above all tables of the new version and above all logs replayed. */
  lemma {:induction false} RebuiltNumbers(
    logs: map<nat, seq<Group>>, from: nat, to: nat, parts: map<nat, seq<seq<Group>>>, p: Progress)
    requires PartsOf(logs, from, to, parts)
    requires forall n :: n in FileNumbers(p.files) ==> n < p.next
    ensures
      var r := RecoverLogs(logs, from, to, parts, p);
      && p.next <= r.next
      && (forall n :: n in FileNumbers(r.files) ==> n < r.next)
      && (forall n :: from <= n <= to && n in logs ==> n < r.next)
    decreases 1 + to - from
  {
    hide FileNumbers, RecoverFiles, Concat;
    if from <= to {
      if from !in logs {
        RebuiltNumbers(logs, from + 1, to, parts, p);
      } else {
        RecoveredNumbers(p.files, parts[from], p.next);
        var next := p.next + |parts[from]|;
        RebuiltNumbers(logs, from + 1, to, parts,
                       Progress(RecoverFiles(p.files, parts[from], p.next), if next <= from then from + 1 else next));
      }
    }
  }

  lemma {:induction false} RecoveredFiles(files: seq<File>, parts: seq<seq<Group>>, number: nat)
    ensures forall f :: f in RecoverFiles(files, parts, number) ==> f in files || number <= f.number
    decreases |parts|
  {
    hide RunOf, Insert;
    if parts != [] {
      var f := File(number, RunOf(parts[0]));
      InsertedMembers(files, 0, f);
      RecoveredFiles(if f.run == map[] then files else Insert(files, 0, f), parts[1..], number + 1);
    }
  }

  /** New tables are numbered from the first free number on. */
  lemma {:induction false} RebuiltFiles(
    logs: map<nat, seq<Group>>, from: nat, to: nat, parts: map<nat, seq<seq<Group>>>, p: Progress)
    requires PartsOf(logs, from, to, parts)
    ensures forall f :: f in RecoverLogs(logs, from, to, parts, p).files ==> f in p.files || p.next <= f.number
    decreases 1 + to - from
  {
    hide RecoverFiles, Concat;
    if from <= to {
      if from !in logs {
        RebuiltFiles(logs, from + 1, to, parts, p);
      } else {
        RecoveredFiles(p.files, parts[from], p.next);
        var next := p.next + |parts[from]|;
        RebuiltFiles(logs, from + 1, to, parts,
                     Progress(RecoverFiles(p.files, parts[from], p.next), if next <= from then from + 1 else next));
      }
    }
  }

  /** Recovery takes its numbers from the descriptor and the logs, and they are free: its tables overwrite no
      table that the descriptor names, and its log no log at all. */
  lemma NumbersAreFree(s: State, parts: map<nat, seq<seq<Group>>>)
    requires DownInv(s) && PartsOf(s.logs, s.manifest.logNumber, s.logfile, parts)
    ensures
      var p := Rebuilt(s, parts);
      && s.manifest.nextFile <= p.next
      && (forall n :: n in FileNumbers(s.manifest.files) ==> n < s.manifest.nextFile)
      && (forall f :: f in p.files ==> f in s.manifest.files || s.manifest.nextFile <= f.number)
      && (forall n :: n in FileNumbers(p.files) ==> n < p.next)
      && (forall n :: n in s.logs ==> n < p.next)
  {
    hide FileNumbers, RecoverLogs, Covers, TablesOk, Replay;
    RebuiltFiles(s.logs, s.manifest.logNumber, s.logfile, parts, Progress(s.manifest.files, s.manifest.nextFile));
    RebuiltNumbers(s.logs, s.manifest.logNumber, s.logfile, parts, Progress(s.manifest.files, s.manifest.nextFile));
  }

  lemma {:induction false} ReplayMore(logs: map<nat, seq<Group>>, from: nat, to: nat, m: nat)
    requires to < m && from <= to + 1 && forall n :: n in logs ==> n <= to
    ensures Replay(logs[m := []], from, m) == Replay(logs, from, to)
    decreases 1 + to - from
  {
    if from == to + 1 {
      ReplaySkips(logs[m := []], from, m, m);
    } else {
      ReplayMore(logs, from + 1, to, m);
    }
  }

  /** A recovery that stops half way changes nothing that the next one reads. */
  lemma StopKeepsInv(s: State, parts: map<nat, seq<seq<Group>>>, tables: set<nat>, logCreated: bool)
    requires DownInv(s) && CanStopRecovery(s, parts, tables)
    ensures DownInv(StoppedRecovery(s, parts, tables, logCreated))
  {
    hide FileNumbers, RecoverLogs, Covers, TablesOk, Replay;
    NumbersAreFree(s, parts);
    ReplayMore(s.logs, s.manifest.logNumber, s.logfile, Rebuilt(s, parts).next);
  }

  lemma RecoveredLogs(s: State, parts: map<nat, seq<seq<Group>>>)
    requires DownInv(s) && PartsOf(s.logs, s.manifest.logNumber, s.logfile, parts)
    requires Recovered(s, parts).lastSequence == |s.history|
    ensures LogsOk(Recovered(s, parts))
  {
    hide FileNumbers, RecoverLogs, TablesOk, Replay, MaxSequence;
    var s' := Recovered(s, parts);
    NumbersAreFree(s, parts);
    assert Acknowledged(s') == [];
    EmptyCovers(s'.history, |s'.history|);
  }

  /** A recovery that finishes restores the whole invariant, with the right last sequence number. */
  lemma RecoverKeepsInv(s: State, parts: map<nat, seq<seq<Group>>>)
    requires DownInv(s) && PartsOf(s.logs, s.manifest.logNumber, s.logfile, parts)
    ensures Inv(Recovered(s, parts))
    ensures Recovered(s, parts).lastSequence == |s.history|
  {
    hide TablesOk, Covers, Slice, RecoverLogs, Replay, ReadersOk, LogsOk, MaxSequence, FileNumbers;
    var s' := Recovered(s, parts);
    var h, from := s.history, s.manifest.logNumber;
    MaxSequenceOfCovers(Replay(s.logs, from, s.logfile), h, s.memBase, |h|, s.manifest.lastSequence);
    RebuiltTables(s.logs, from, s.logfile, parts, Progress(s.manifest.files, s.manifest.nextFile), h, s.memBase, |h|, |h|);
    NumbersAreFree(s, parts);
    assert s'.mem == Slice(s'.history + Pending(s'), |h|, |h|) by { NothingInSlice(s'.history + Pending(s'), |h|); }
    RecoveredLogs(s, parts);
    NoReaders(s');
  }

  lemma NothingInSlice(history: seq<Write>, n: nat)
    requires n <= |history|
    ensures Slice(history, n, n) == map[]
  {
  }

  lemma NoReaders(s: State)
    requires s.readers == map[]
    ensures ReadersOk(s)
  {
  }
}
