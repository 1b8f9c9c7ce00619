/**
 What every event keeps, and what follows for whole runs: snapshots are stable, reads without the
 lock return the value at their sequence number, and a crash loses no acknowledged group.
 */
module StoreProofs {
  import opened ByteStrings
  import opened Versions
  import opened Tables
  import opened Store

  // ----- the invariant -----

  function Pending(s: State): seq<Write> {
    if s.inflight.Some? then s.inflight.value.writes else []
  }

  function Applied(s: State): nat {
    if s.inflight.Some? then s.inflight.value.applied else 0
  }

  ghost predicate MemoryOk(s: State) {
    && s.lastSequence == |s.history|
    && s.memBase <= |s.history|
    && Applied(s) <= |Pending(s)|
    && (s.inflight.Some? && Applied(s) > 0 ==> s.inflight.value.logged)
    && s.mem == Slice(s.history + Pending(s), s.memBase, |s.history| + Applied(s))
    && (s.imm.Some? ==>
          && s.imm.value.base <= s.memBase
          && s.imm.value.run == Slice(s.history, s.imm.value.base, s.memBase))
    && (s.edit == FlushEdit ==> s.imm.Some?)
    && (s.edit == CompactEdit ==> s.job.Compacting?)
    && (s.edit == MoveEdit ==> s.job == Idle)
  }

  ghost predicate SnapshotsOk(s: State) {
    && (forall i :: 0 <= i < |s.snapshots| ==> s.snapshots[i].number <= s.lastSequence)
    && (forall i, j :: 0 <= i < j < |s.snapshots| ==> s.snapshots[i].number <= s.snapshots[j].number)
  }

  ghost predicate VersionsOk(s: State) {
    && TablesOk(s.files, s.history, Top(s), Floor(s))
    && TablesOk(s.manifest.files, s.history, ManifestTop(s), Floor(s))
    && (s.edit == NoEdit ==> s.manifest.files == s.files)
  }

  /** Files that joined since the compaction began are newer than all it looked at. */
  ghost predicate Since(files: seq<File>, job: Job)
    requires job.Compacting?
  {
    forall f :: f in files ==>
      f in job.version || (f.number > job.output && forall g :: g in job.version ==> Newer(f.run, g.run))
  }

  ghost predicate JobOk(s: State) {
    s.job.Compacting? ==>
      && s.job.smallest <= Floor(s)
      && s.job.output < s.nextFile
      && (forall n :: n in s.job.inputs ==> n < s.job.output)
      && (forall g :: g in s.job.version ==> FromHistory(g.run, s.history))
      && (forall g, q :: g in s.job.version && q in g.run ==> q <= Top(s))
      && Since(s.files, s.job)
      && (s.edit == FlushEdit ==> Since(s.manifest.files, s.job))
  }

  ghost predicate ReadersOk(s: State) {
    forall id :: id in s.readers ==>
      var r := s.readers[id];
      r.number <= |s.history| && Answer(s, r) == At(s.history, r.key, r.number)
  }

  /** The groups hold exactly the operations numbered above `lo` and at most `hi`. */
  ghost predicate Covers(groups: seq<Group>, history: seq<Write>, lo: nat, hi: nat) {
    if groups == [] then lo == hi
    else
      var mid := lo + |groups[0].writes|;
      && groups[0].base == lo + 1 && mid <= |history| && history[lo..mid] == groups[0].writes
      && Covers(groups[1..], history, mid, hi)
  }

  /** The newest log without the record of an unacknowledged group. */
  function Acknowledged(s: State): seq<Group>
    requires s.logfile in s.logs
  {
    var groups := s.logs[s.logfile];
    if s.inflight.Some? && s.inflight.value.logged && groups != [] then groups[..|groups| - 1] else groups
  }

  ghost predicate ImmIsReplayed(s: State) {
    s.imm.Some? && s.edit != FlushEdit
  }

  ghost predicate LogsOk(s: State) {
    && s.logfile in s.logs && s.logfile < s.nextFile
    && (forall n :: n in s.logs ==> n <= s.logfile)
    && (s.inflight.Some? && s.inflight.value.logged ==>
          s.logs[s.logfile] == Acknowledged(s) + [Group(s.lastSequence + 1, Pending(s))])
    && Covers(Acknowledged(s), s.history, s.memBase, |s.history|)
    && (s.imm.Some? ==> s.imm.value.log < s.logfile)
    && (ImmIsReplayed(s) ==>
          && s.imm.value.log in s.logs
          && s.manifest.logNumber <= s.imm.value.log
          && Covers(s.logs[s.imm.value.log], s.history, s.imm.value.base, s.memBase))
    && s.logNumber <= s.manifest.logNumber <= s.logfile
    && (s.edit != FlushEdit ==> s.logNumber == s.manifest.logNumber)
    // only the logs of the two memtables are replayed
    && (forall n :: n in s.logs && s.manifest.logNumber <= n ==>
          n == s.logfile || (ImmIsReplayed(s) && n == s.imm.value.log))
    && s.manifest.lastSequence <= |s.history|
    && (Acknowledged(s) == [] && (ImmIsReplayed(s) ==> s.logs[s.imm.value.log] == []) ==>
          s.manifest.lastSequence == |s.history|)
  }

  /** No table that a version, a read, a compaction or the descriptor needs is missing. */
  ghost predicate DiskOk(s: State) {
    && FileNumbers(s.files) <= s.disk
    && FileNumbers(s.manifest.files) <= s.disk
    && (forall n :: n in FileNumbers(s.files) ==> n < s.nextFile)
    && (forall n :: n in FileNumbers(s.manifest.files) ==> n < s.manifest.nextFile)
    && s.manifest.nextFile <= s.nextFile
    && (s.job.Compacting? ==> s.job.output in s.disk && FileNumbers(s.job.version) <= s.disk)
    && (forall id :: id in s.readers ==> FileNumbers(s.readers[id].files) <= s.disk)
  }

  ghost predicate Inv(s: State) {
    !s.down && MemoryOk(s) && SnapshotsOk(s) && VersionsOk(s) && JobOk(s) && ReadersOk(s) && LogsOk(s) && DiskOk(s)
  }

  /** After a crash, and after every recovery that did not finish: the descriptor's tables hold the history up
      to `memBase`, the logs that will be replayed the rest, and the descriptor's next file number lies above
      all of its tables. */
  ghost predicate DownInv(s: State) {
    && s.down && s.memBase <= |s.history|
    && TablesOk(s.manifest.files, s.history, s.memBase, |s.history|)
    && FileNumbers(s.manifest.files) <= s.disk
    && (forall n :: n in FileNumbers(s.manifest.files) ==> n < s.manifest.nextFile)
    && s.logfile in s.logs && s.manifest.logNumber <= s.logfile
    && (forall n :: n in s.logs ==> n <= s.logfile)
    && var groups := Replay(s.logs, s.manifest.logNumber, s.logfile);
    && Covers(groups, s.history, s.memBase, |s.history|)
    && s.manifest.lastSequence <= |s.history|
    && (groups == [] ==> s.manifest.lastSequence == |s.history|)
  }

  // ----- reads -----

  /** Reading through memtable, immutable memtable and tables gives the history's answer. */
  lemma GetIsAt(s: State, key: UserKey, number: nat)
    requires MemoryOk(s) && VersionsOk(s)
    requires Floor(s) <= number <= s.lastSequence
    ensures Get(s, key, number) == At(s.history, key, number)
  {
    var all := s.history + Pending(s);
    var runs := CurrentRuns(s);
    SliceLookup(all, s.memBase, |s.history| + Applied(s), key, number);
    PastIsFixed(s.history, Pending(s), key, number);
    PastIsFixed(s.history, Pending(s), key, Min(number, s.memBase));
    if Lookup(s.mem, key, number).None? {
      var below := runs[1..];
      if s.imm.Some? {
        var n := Min(number, s.memBase);
        var imm := s.imm.value;
        SliceLookup(s.history, imm.base, s.memBase, key, n);
        if n < number {
          LookupCapped(imm.run, key, s.memBase, number);
        }
        assert below[0] == imm.run && below[1..] == Runs(s.files);
        assert Lookup(imm.run, key, number) == Lookup(imm.run, key, n);
        assert Layered(below, key, number) ==
               if Lookup(imm.run, key, n).Some? then Lookup(imm.run, key, n) else Layered(Runs(s.files), key, number);
      } else {
        assert below == Runs(s.files);
      }
    }
  }

  // ----- groups -----

  lemma {:induction false} CoversAppend(groups: seq<Group>, g: Group, history: seq<Write>, lo: nat, mid: nat)
    requires Covers(groups, history, lo, mid)
    requires g.base == mid + 1 && mid + |g.writes| <= |history| && history[mid..mid + |g.writes|] == g.writes
    ensures Covers(groups + [g], history, lo, mid + |g.writes|)
    decreases |groups|
  {
    if groups == [] {
      assert [] + [g] == [g];
    } else {
      assert (groups + [g])[1..] == groups[1..] + [g];
      CoversAppend(groups[1..], g, history, lo + |groups[0].writes|, mid);
    }
  }

  lemma {:induction false} CoversConcat(a: seq<Group>, b: seq<Group>, history: seq<Write>, lo: nat, mid: nat, hi: nat)
    requires Covers(a, history, lo, mid) && Covers(b, history, mid, hi)
    ensures Covers(a + b, history, lo, hi)
    decreases |a|
  {
    if a == [] {
      assert [] + b == b;
    } else {
      assert (a + b)[1..] == a[1..] + b;
      CoversConcat(a[1..], b, history, lo + |a[0].writes|, mid, hi);
    }
  }

  lemma {:induction false} CoversSplit(a: seq<Group>, b: seq<Group>, history: seq<Write>, lo: nat, hi: nat) returns (mid: nat)
    requires Covers(a + b, history, lo, hi)
    ensures Covers(a, history, lo, mid) && Covers(b, history, mid, hi)
    decreases |a|
  {
    if a == [] {
      assert [] + b == b;
      mid := lo;
    } else {
      assert (a + b)[1..] == a[1..] + b;
      mid := CoversSplit(a[1..], b, history, lo + |a[0].writes|, hi);
    }
  }

  lemma {:induction false} CoversBounds(groups: seq<Group>, history: seq<Write>, lo: nat, hi: nat)
    requires Covers(groups, history, lo, hi)
    ensures lo <= hi && (groups != [] ==> hi <= |history|)
    decreases |groups|
  {
    if groups != [] {
      CoversBounds(groups[1..], history, lo + |groups[0].writes|, hi);
    }
  }

  lemma {:induction false} CoversGrows(groups: seq<Group>, history: seq<Write>, more: seq<Write>, lo: nat, hi: nat)
    requires Covers(groups, history, lo, hi)
    ensures Covers(groups, history + more, lo, hi)
    decreases |groups|
  {
    if groups != [] {
      var mid := lo + |groups[0].writes|;
      assert (history + more)[lo..mid] == history[lo..mid];
      CoversGrows(groups[1..], history, more, mid, hi);
    }
  }

  lemma RunOfOneGroup(g: Group, history: seq<Write>, lo: nat)
    requires g.base == lo + 1 && lo + |g.writes| <= |history| && history[lo..lo + |g.writes|] == g.writes
    ensures RunOfGroup(g) == Slice(history, lo, lo + |g.writes|)
  {
    var run := Slice(history, lo, lo + |g.writes|);
    forall q | q in run
      ensures run[q] == GroupWrite(g, q)
    {
      assert g.writes[q - g.base] == history[lo..lo + |g.writes|][q - 1 - lo];
    }
  }

  /** A memtable rebuilt from the records is the slice of the history they cover. */
  lemma {:induction false} RunOfCovers(groups: seq<Group>, history: seq<Write>, lo: nat, hi: nat)
    requires Covers(groups, history, lo, hi) && hi <= |history|
    ensures lo <= hi && RunOf(groups) == Slice(history, lo, hi)
    decreases |groups|
  {
    hide RunOfGroup, Slice;
    CoversBounds(groups, history, lo, hi);
    if groups == [] {
      assert Slice(history, lo, hi) == map[];
    } else {
      var mid := lo + |groups[0].writes|;
      CoversBounds(groups[1..], history, mid, hi);
      RunOfCovers(groups[1..], history, mid, hi);
      RunOfOneGroup(groups[0], history, lo);
      assert Slice(history, lo, mid) + Slice(history, mid, hi) == Slice(history, lo, hi);
    }
  }

  lemma {:induction false} MaxSequenceOfCovers(groups: seq<Group>, history: seq<Write>, lo: nat, hi: nat, m: nat)
    requires Covers(groups, history, lo, hi)
    requires m <= hi && (groups == [] ==> m == hi)
    ensures MaxSequence(groups, m) == hi
    decreases |groups|
  {
    if groups != [] {
      var mid := lo + |groups[0].writes|;
      CoversBounds(groups[1..], history, mid, hi);
      var last := groups[0].base + |groups[0].writes| - 1;
      assert last == mid;
      MaxSequenceOfCovers(groups[1..], history, mid, hi, if last > m then last else m);
    }
  }
}
