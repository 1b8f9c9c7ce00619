/**
 A failed sync leaves the log in doubt: the record may or may not be there after a restart.  From then on every
 write is refused, and nothing else refuses one for an earlier error.
 */
module GroupPoison {
  import opened ByteStrings
  import opened Batches
  import opened GroupCommit
  import opened GroupCommitProofs

  /** The group went into the log, but its leader failed: its sync did not succeed. */
  predicate Doubtful(c: Commit) {
    c.logged && !c.ok
  }

  predicate Refused(c: Commit) {
    !c.made && !c.ok && !c.logged && !c.applied
  }

  ghost predicate PoisonOk(s: State) {
    && (s.bgError <==> exists i :: 0 <= i < |s.commits| && Doubtful(s.commits[i]))
    && (forall i, j :: 0 <= i < j < |s.commits| && Doubtful(s.commits[i]) ==> Refused(s.commits[j]))
    && (s.bgError && s.lead.Some? ==> s.lead.value.phase == MakingRoom)
  }

  lemma CommitKeepsPoison(s: State, u: State, c: Commit)
    requires PoisonOk(s) && u.commits == s.commits + [c] && u.lead.None?
    requires u.bgError == (s.bgError || Doubtful(c))
    requires s.bgError ==> Refused(c)
    ensures PoisonOk(u)
  {
    if i :| 0 <= i < |s.commits| && Doubtful(s.commits[i]) {
      assert u.commits[i] == s.commits[i];
    }
    assert u.commits[|s.commits|] == c;
    forall i, j | 0 <= i < j < |u.commits| && Doubtful(u.commits[i])
      ensures Refused(u.commits[j])
    {
      assert Doubtful(s.commits[i]);
    }
  }

  lemma SamePoison(s: State, t: State)
    requires PoisonOk(s) && t.commits == s.commits && t.bgError == s.bgError
    requires s.bgError && t.lead.Some? ==> t.lead.value.phase == MakingRoom
    ensures PoisonOk(t)
  {
  }

  lemma StepKeepsPoison(s: State, e: Event)
    requires Enabled(s, e) && PoisonOk(s)
    ensures PoisonOk(Next(s, e))
  {
    hide PoisonOk, PopGroup, Group, Merged, Queued;
    PhaseWhenPoisoned(s);
    var t := Next(s, e);
    match e
    case RoomMade(ok) =>
      if ok && s.arrivals[s.lead.value.id].batch.Some? {
        SamePoison(s, t);
      } else {
        CommitKeepsPoison(s, t, Commit(s.lead.value.id, s.lead.value.id + 1, false, 0, [], ok, false, false, false));
      }
    case Finish =>
      var l := s.lead.value;
      CommitKeepsPoison(s, t, Commit(l.id, l.id + l.end, true, l.base, l.ops, l.ok, l.logged, l.synced, l.applied));
    case _ => SamePoison(s, t);
  }

  lemma PhaseWhenPoisoned(s: State)
    requires PoisonOk(s)
    ensures s.bgError && s.lead.Some? ==> s.lead.value.phase == MakingRoom
  {
  }

  lemma {:induction false} RunKeepsPoison(s: State, events: seq<Event>)
    requires CanRun(s, events) && PoisonOk(s)
    ensures PoisonOk(After(s, events))
    decreases |events|
  {
    hide Enabled, Next, PoisonOk;
    if events != [] {
      StepKeepsPoison(s, events[0]);
      RunKeepsPoison(Next(s, events[0]), events[1..]);
    }
  }

  lemma InitPoison(s: State)
    requires Init(s)
    ensures PoisonOk(s)
  {
  }

  /** In every run, no leader behind a doubtful group makes a group or is told OK; and a leader finds an earlier
      error exactly when there was a doubtful group. */
  lemma NothingBehindADoubtfulGroup(s: State, events: seq<Event>)
    requires Init(s) && CanRun(s, events)
    ensures
      var t := After(s, events);
      && (forall i, j :: 0 <= i < j < |t.commits| && t.commits[i].logged && !t.commits[i].ok ==>
            !t.commits[j].made && !t.commits[j].ok)
      && (t.bgError <==> exists i :: 0 <= i < |t.commits| && Doubtful(t.commits[i]))
  {
    hide CanRun, After;
    InitPoison(s);
    RunKeepsPoison(s, events);
    var t := After(s, events);
    forall i, j | 0 <= i < j < |t.commits| && t.commits[i].logged && !t.commits[i].ok
      ensures !t.commits[j].made && !t.commits[j].ok
    {
      assert Doubtful(t.commits[i]) && Refused(t.commits[j]);
    }
  }

  lemma PoisonedStep(s: State, e: Event)
    requires Enabled(s, e) && PoisonOk(s) && s.bgError
    ensures
      var t := Next(s, e);
      && t.bgError && t.log == s.log && t.mem == s.mem && t.lastSequence == s.lastSequence
      && s.commits <= t.commits
      && forall id :: id in t.returned && t.returned[id] ==> (id in s.returned && s.returned[id]) || (id in s.done && s.done[id])
  {
    hide PopGroup, Group, Merged, Queued;
    PhaseWhenPoisoned(s);
    hide PoisonOk;
  }

  /** Behind a failed sync the log, the memtable and the last sequence number stay as they are, whatever
      arrives. */
  lemma {:induction false} NothingIsWrittenAnyMore(s: State, events: seq<Event>)
    requires CanRun(s, events) && PoisonOk(s) && s.bgError
    ensures
      var t := After(s, events);
      t.bgError && t.log == s.log && t.mem == s.mem && t.lastSequence == s.lastSequence && s.commits <= t.commits
    decreases |events|
  {
    hide Enabled, Next, PoisonOk;
    if events != [] {
      PoisonedStep(s, events[0]);
      StepKeepsPoison(s, events[0]);
      NothingIsWrittenAnyMore(Next(s, events[0]), events[1..]);
    }
  }

  /** The same over runs: once some group is doubtful, nothing is appended to log or memtable any more. */
  lemma DoubtfulGroupIsTheLast(s: State, before: seq<Event>, after: seq<Event>, i: nat)
    requires Init(s) && CanRun(s, before) && CanRun(After(s, before), after)
    requires i < |After(s, before).commits| && Doubtful(After(s, before).commits[i])
    ensures
      var t, u := After(s, before), After(After(s, before), after);
      && u.log == t.log && u.mem == t.mem && u.lastSequence == t.lastSequence
      && forall j :: |t.commits| <= j < |u.commits| ==> Refused(u.commits[j])
  {
    hide CanRun, After;
    var t := After(s, before);
    InitPoison(s);
    RunKeepsPoison(s, before);
    assert t.bgError;
    RunKeepsPoison(t, after);
    NothingIsWrittenAnyMore(t, after);
    var u := After(t, after);
    assert u.commits[i] == t.commits[i];
  }

  /** A leader whose sync fails has logged its group and is not OK: finishing makes the group doubtful. */
  lemma FailedSyncMakesDoubt(s: State, events: seq<Event>)
    requires Init(s) && CanRun(s, events) && Enabled(After(s, events), Sync(false))
    ensures
      var t := Next(After(s, events), Sync(false));
      && Enabled(t, Finish)
      && var u := Next(t, Finish);
      u.bgError && |u.commits| == |t.commits| + 1 && Doubtful(u.commits[|t.commits|])
  {
    hide CanRun, After, Chain, Merged, Taken, LogOf, MemOf, Based, CommitOk, StatusesOk, PopGroup;
    GroupCommitProofs.InitInv(s);
    GroupCommitProofs.RunKeepsInv(s, events);
  }

  /** A sync that fails dooms every write that arrives later: none of them is told OK. */
  lemma LaterWritesAreRefused(s: State, before: seq<Event>, after: seq<Event>, i: nat, id: nat)
    requires Init(s) && CanRun(s, before) && CanRun(After(s, before), after)
    requires i < |After(s, before).commits| && Doubtful(After(s, before).commits[i])
    requires id >= |After(s, before).arrivals|
    ensures
      var u := After(After(s, before), after);
      id in u.returned ==> !u.returned[id]
  {
    hide CanRun, After, Chain, Merged, Taken, LogOf, MemOf, Based, CommitOk, LeadOk, FrontOk;
    var t := After(s, before);
    GroupCommitProofs.InitInv(s);
    GroupCommitProofs.RunKeepsInv(s, before);
    GroupCommitProofs.RunKeepsInv(t, after);
    DoubtfulGroupIsTheLast(s, before, after, i);
    InitPoison(s);
    RunKeepsPoison(s, before);
    NothingIsWrittenAnyMore(t, after);
    var u := After(t, after);
    if id in u.returned {
      assert id < Popped(u);
      var k := CommitOf(u.commits, Popped(u), id);
      assert Told(u, u.commits[k], id);
      ChainBounds(t.commits, Popped(t));
      assert forall j :: 0 <= j < |t.commits| ==> u.commits[j] == t.commits[j];
    }
  }
}
