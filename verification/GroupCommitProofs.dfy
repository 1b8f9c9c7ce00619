/**
 What group commit promises over every run: each batch goes in at most once, in queue order and over
 its own stretch of sequence numbers, exactly once when its writer is told so; and nobody is stranded.
 */
module GroupCommitProofs {
  import opened ByteStrings
  import opened Batches
  import opened GroupCommit

  // ----- the invariant -----

  /** How many writers have left the queue. */
  function Popped(s: State): int {
    |s.arrivals| - |s.queue|
  }

  ghost predicate QueueOk(s: State) {
    Popped(s) >= 0 && forall i :: 0 <= i < |s.queue| ==> s.queue[i] == Popped(s) + i
  }

  /** The commits follow one another without gap, up to writer `n`. */
  ghost predicate Chain(commits: seq<Commit>, n: int) {
    if commits == [] then n == 0
    else
      var c := commits[|commits| - 1];
      c.start < c.end == n && Chain(commits[..|commits| - 1], c.start)
  }

  /** How many sequence numbers the commits took up. */
  function Taken(commits: seq<Commit>): nat {
    if commits == [] then 0
    else
      var c := commits[|commits| - 1];
      Taken(commits[..|commits| - 1]) + |c.ops|
  }

  ghost predicate Based(commits: seq<Commit>) {
    forall i :: 0 <= i < |commits| && commits[i].made ==> commits[i].base == Taken(commits[..i]) + 1
  }

  function LogOf(commits: seq<Commit>): seq<Record> {
    if commits == [] then []
    else
      var c := commits[|commits| - 1];
      LogOf(commits[..|commits| - 1]) + if c.logged then [Record(c.base, c.ops)] else []
  }

  function MemOf(commits: seq<Commit>): seq<Record> {
    if commits == [] then []
    else
      var c := commits[|commits| - 1];
      MemOf(commits[..|commits| - 1]) + if c.applied then [Record(c.base, c.ops)] else []
  }

  /** A group that may be written together: no sync writer behind a leader that does not sync, and no more
      bytes than the larger of the first batch and the limit. */
  ghost predicate GoodGroup(ws: seq<Writer>) {
    && ws != [] && ws[0].batch.Some?
    && NoSyncUnderNonSync(ws, |ws|)
    && var first := ByteSize(ws[0].batch.value);
       TotalSize(ws) <= if first > MaxSize(first) then first else MaxSize(first)
  }

  /** What one leader may have done. */
  ghost predicate CommitOk(arrivals: seq<Writer>, c: Commit) {
    && c.start < c.end <= |arrivals|
    && (c.made ==>
          && arrivals[c.start].batch.Some?
          && c.ops == Merged(arrivals[c.start..c.end])
          && GoodGroup(arrivals[c.start..c.end])
          && (c.applied <==> c.ok) && (c.ok ==> c.logged)
          && (c.ok && arrivals[c.start].sync ==> c.synced))
    && (c.synced ==> arrivals[c.start].sync)
    && (!c.made ==>
          && c.end == c.start + 1 && c.ops == [] && !c.logged && !c.applied
          && (c.ok ==> arrivals[c.start].batch.None?))
  }

  ghost predicate CommitsOk(s: State) {
    && Chain(s.commits, Popped(s)) && Based(s.commits) && s.lastSequence == Taken(s.commits)
    && (forall i :: 0 <= i < |s.commits| ==> CommitOk(s.arrivals, s.commits[i]))
    && s.log == LogOf(s.commits) + (if s.lead.Some? && s.lead.value.logged then [Record(s.lead.value.base, s.lead.value.ops)] else [])
    && s.mem == MemOf(s.commits) + (if s.lead.Some? && s.lead.value.applied then [Record(s.lead.value.base, s.lead.value.ops)] else [])
  }

  /** Writer `id` has been, or will be, told the status of its commit. */
  ghost predicate Told(s: State, c: Commit, id: nat) {
    if id == c.start then id in s.returned && s.returned[id] == c.ok && id !in s.done
    else
      && id in s.done && s.done[id] == c.ok
      && (if id in s.returned then s.returned[id] == c.ok else id in s.runnable)
  }

  ghost predicate StatusesOk(s: State) {
    && (forall i, id: nat :: 0 <= i < |s.commits| && s.commits[i].start <= id < s.commits[i].end ==>
          Told(s, s.commits[i], id))
    && (forall id: nat :: id >= Popped(s) ==> id !in s.done && id !in s.returned)
  }

  /** The writer in front is leading, or has been signalled and will look again. */
  ghost predicate FrontOk(s: State) {
    && (s.lead.Some? ==> s.queue != [] && s.lead.value.id == s.queue[0])
    && (s.queue != [] && s.lead.None? ==> s.queue[0] in s.runnable)
  }

  ghost predicate LeadOk(s: State) {
    s.lead.Some? ==>
      var l := s.lead.value;
      if l.phase == MakingRoom then !l.logged && !l.applied
      else
        && l.id < |s.arrivals| && s.arrivals[l.id].batch.Some?
        && l.base == s.lastSequence + 1
        && 0 < l.end <= |s.queue| && l.id + l.end <= |s.arrivals|
        && l.ops == Merged(s.arrivals[l.id..l.id + l.end])
        && GoodGroup(s.arrivals[l.id..l.id + l.end])
        && (l.phase == Appending ==> l.ok && !l.logged && !l.applied)
        && (l.phase == Syncing ==> l.ok && l.logged && !l.applied)
        && (l.phase == Applying ==> l.ok && l.logged && !l.applied && (s.arrivals[l.id].sync ==> l.synced))
        && (l.synced ==> s.arrivals[l.id].sync) && (l.phase == Appending ==> !l.synced) && (l.phase == Syncing ==> s.arrivals[l.id].sync)
        && (l.phase == Finishing ==>
              (l.applied <==> l.ok) && (l.ok ==> l.logged && (s.arrivals[l.id].sync ==> l.synced)))
  }

  ghost predicate Inv(s: State) {
    QueueOk(s) && CommitsOk(s) && StatusesOk(s) && FrontOk(s) && LeadOk(s)
  }

  // ----- steps -----

  lemma InitInv(s: State)
    requires Init(s)
    ensures Inv(s)
  {
  }

  lemma {:induction false} ChainBounds(commits: seq<Commit>, n: int)
    requires Chain(commits, n)
    ensures n >= 0 && forall i :: 0 <= i < |commits| ==> commits[i].start < commits[i].end <= n
    ensures forall i, j :: 0 <= i < j < |commits| ==> commits[i].end <= commits[j].start
    decreases |commits|
  {
    if commits != [] {
      var front := commits[..|commits| - 1];
      ChainBounds(front, commits[|commits| - 1].start);
      assert forall i :: 0 <= i < |front| ==> front[i] == commits[i];
    }
  }

  lemma SliceStays(arrivals: seq<Writer>, w: Writer, lo: nat, hi: nat)
    requires lo <= hi <= |arrivals|
    ensures (arrivals + [w])[lo..hi] == arrivals[lo..hi]
  {
  }

  lemma ArriveKeepsInv(s: State, w: Writer)
    requires Inv(s)
    ensures Inv(Arrived(s, w))
  {
    hide CommitsOk, LeadOk, StatusesOk;
    ArriveKeepsCommits(s, w);
    ArriveKeepsLead(s, w);
    SameStatuses(s, Arrived(s, w));
  }

  lemma ArriveKeepsLead(s: State, w: Writer)
    requires QueueOk(s) && FrontOk(s) && LeadOk(s)
    ensures QueueOk(Arrived(s, w)) && FrontOk(Arrived(s, w)) && LeadOk(Arrived(s, w))
  {
    hide Merged, GoodGroup;
    if s.lead.Some? && s.lead.value.phase != MakingRoom {
      SliceStays(s.arrivals, w, s.lead.value.id, s.lead.value.id + s.lead.value.end);
    }
  }

  lemma ArriveKeepsCommits(s: State, w: Writer)
    requires CommitsOk(s) && FrontOk(s)
    ensures CommitsOk(Arrived(s, w))
  {
    hide Chain, Merged, GoodGroup, Taken, LogOf, MemOf, Based, StatusesOk, CommitOk;
    var t := Arrived(s, w);
    forall i | 0 <= i < |t.commits|
      ensures CommitOk(t.arrivals, t.commits[i])
    {
      CommitStays(s.arrivals, w, s.commits[i]);
    }
  }

  lemma CommitStays(arrivals: seq<Writer>, w: Writer, c: Commit)
    requires CommitOk(arrivals, c)
    ensures CommitOk(arrivals + [w], c)
  {
    SliceStays(arrivals, w, c.start, c.end);
  }

  lemma SameStatuses(s: State, t: State)
    requires StatusesOk(s) && Popped(t) == Popped(s)
    requires t.commits == s.commits && t.done == s.done && t.returned == s.returned && t.runnable == s.runnable
    ensures StatusesOk(t)
  {
    forall i, id: nat | 0 <= i < |t.commits| && t.commits[i].start <= id < t.commits[i].end
      ensures Told(t, t.commits[i], id)
    {
      assert Told(s, s.commits[i], id);
    }
  }

  lemma WakeKeepsInv(s: State, id: nat)
    requires Inv(s) && Enabled(s, Wake(id))
    ensures Inv(Woken(s, id))
  {
    hide Chain, Merged, GoodGroup, Taken, LogOf, MemOf, Based, CommitOk, StatusesOk;
    WakeStatuses(s, id);
    if id in s.done {
    } else if s.queue != [] && s.queue[0] == id {
      assert LeadOk(Woken(s, id));
    }
  }

  lemma WakeStatuses(s: State, id: nat)
    requires StatusesOk(s) && Chain(s.commits, Popped(s)) && QueueOk(s) && Enabled(s, Wake(id))
    ensures StatusesOk(Woken(s, id))
    ensures id in s.done ==> id < Popped(s)
  {
    hide Chain;
    var t := Woken(s, id);
    ChainBounds(s.commits, Popped(s));
    forall i, k: nat | 0 <= i < |t.commits| && t.commits[i].start <= k < t.commits[i].end
      ensures Told(t, t.commits[i], k)
    {
      assert Told(s, s.commits[i], k);
    }
  }

  /** What the completion loop does to a queue of consecutive writers. */
  function Tell(lo: nat, hi: nat, leader: nat, ok: bool): map<nat, bool> {
    map id: nat | lo <= id < hi && Follower(leader, id) :: ok
  }

  predicate Follower(leader: nat, id: nat) {
    id != leader
  }

  lemma TellStep(lo: nat, hi: nat, leader: nat, ok: bool, m: map<nat, bool>, r: set<nat>)
    requires lo < hi
    ensures
      var m' := if lo == leader then m else m[lo := ok];
      var r' := if lo == leader then r else r + {lo};
      && m' + Tell(lo + 1, hi, leader, ok) == m + Tell(lo, hi, leader, ok)
      && r' + Tell(lo + 1, hi, leader, ok).Keys == r + Tell(lo, hi, leader, ok).Keys
  {
    var tell, tell' := Tell(lo, hi, leader, ok), Tell(lo + 1, hi, leader, ok);
    assert forall id: nat :: id in tell <==> (lo <= id < hi && Follower(leader, id));
    assert forall id: nat :: id in tell' <==> (lo + 1 <= id < hi && Follower(leader, id));
  }

  lemma {:induction false} PopGroupEffect(b: Board, lo: nat, leader: nat, last: nat, ok: bool)
    requires forall i :: 0 <= i < |b.queue| ==> b.queue[i] == lo + i
    requires leader <= lo <= last < lo + |b.queue|
    ensures PopGroup(b, leader, last, ok) ==
            Board(b.queue[last + 1 - lo..],
                  b.done + Tell(lo, last + 1, leader, ok),
                  b.runnable + Tell(lo, last + 1, leader, ok).Keys)
    decreases |b.queue|
  {
    hide Tell, PopGroup;
    PopStep(b, leader, last, ok);
    TellStep(lo, last + 1, leader, ok, b.done, b.runnable);
    var b' := Popping(b, leader, ok);
    if lo == last {
      TellNothing(lo + 1, leader, ok);
      assert b'.done + map[] == b'.done && b'.runnable + {} == b'.runnable;
    } else {
      PopGroupEffect(b', lo + 1, leader, last, ok);
      assert b'.queue[last + 1 - (lo + 1)..] == b.queue[last + 1 - lo..];
    }
  }

  function Popping(b: Board, leader: nat, ok: bool): Board
    requires b.queue != []
  {
    var ready := b.queue[0];
    if ready == leader then Board(b.queue[1..], b.done, b.runnable)
    else Board(b.queue[1..], b.done[ready := ok], b.runnable + {ready})
  }

  lemma PopStep(b: Board, leader: nat, last: nat, ok: bool)
    requires b.queue != []
    ensures PopGroup(b, leader, last, ok) ==
            if b.queue[0] == last then Popping(b, leader, ok) else PopGroup(Popping(b, leader, ok), leader, last, ok)
  {
  }

  lemma TellNothing(lo: nat, leader: nat, ok: bool)
    ensures Tell(lo, lo, leader, ok) == map[]
  {
  }

  lemma ChainGrows(commits: seq<Commit>, c: Commit)
    requires Chain(commits, c.start) && c.start < c.end
    ensures Chain(commits + [c], c.end)
    ensures Taken(commits + [c]) == Taken(commits) + |c.ops|
    ensures LogOf(commits + [c]) == LogOf(commits) + if c.logged then [Record(c.base, c.ops)] else []
    ensures MemOf(commits + [c]) == MemOf(commits) + if c.applied then [Record(c.base, c.ops)] else []
  {
    assert (commits + [c])[..|commits|] == commits;
  }

  lemma BasedGrows(commits: seq<Commit>, c: Commit)
    requires Based(commits) && (c.made ==> c.base == Taken(commits) + 1)
    ensures Based(commits + [c])
  {
    hide Taken;
    var more := commits + [c];
    forall i | 0 <= i < |more| && more[i].made
      ensures more[i].base == Taken(more[..i]) + 1
    {
      if i < |commits| {
        assert more[..i] == commits[..i];
      } else {
        assert more[..i] == commits;
      }
    }
  }

  /** Completing a group keeps everything, whoever led it. */
  lemma CompletedKeepsInv(s: State, t: State, c: Commit)
    requires Inv(s) && s.lead.Some? && c.start == s.lead.value.id && 0 < c.end <= |s.arrivals|
    requires CommitOk(s.arrivals, c)
    requires c.made ==> c.base == Taken(s.commits) + 1
    requires c.logged == s.lead.value.logged && c.applied == s.lead.value.applied
    requires c.logged ==> c.base == s.lead.value.base && c.ops == s.lead.value.ops
    requires c.applied ==> c.base == s.lead.value.base && c.ops == s.lead.value.ops
    requires t.lastSequence == s.lastSequence + |c.ops|
    requires t == s.(bgError := t.bgError, lastSequence := t.lastSequence)
    ensures Inv(Completed(t, c.end - 1, c))
  {
    hide Chain, Merged, GoodGroup, Taken, LogOf, MemOf, Based, CommitOk, StatusesOk, PopGroup, Tell;
    CommitRange(s.arrivals, c);
    var u := Completed(t, c.end - 1, c);
    PopGroupEffect(Board(t.queue, t.done, t.runnable), c.start, c.start, c.end - 1, c.ok);
    ChainGrows(s.commits, c);
    BasedGrows(s.commits, c);
    assert u.queue == s.queue[c.end - Popped(s)..];
    assert QueueOk(u) && FrontOk(u) && LeadOk(u);
    assert CommitsOk(u);
    CompletedStatuses(s, u, c);
  }

  lemma CommitRange(arrivals: seq<Writer>, c: Commit)
    requires CommitOk(arrivals, c)
    ensures c.start < c.end <= |arrivals|
  {
  }

  lemma CompletedStatuses(s: State, u: State, c: Commit)
    requires StatusesOk(s) && Chain(s.commits, c.start) && Popped(s) == c.start < c.end == Popped(u)
    requires u.commits == s.commits + [c]
    requires u.done == s.done + Tell(c.start, c.end, c.start, c.ok) && u.returned == s.returned[c.start := c.ok]
    requires s.runnable + Tell(c.start, c.end, c.start, c.ok).Keys <= u.runnable
    ensures StatusesOk(u)
  {
    hide Chain;
    ChainBounds(s.commits, c.start);
    var told := Tell(c.start, c.end, c.start, c.ok);
    assert forall id: nat :: id in told <==> (c.start <= id < c.end && Follower(c.start, id));
    forall i, id: nat | 0 <= i < |u.commits| && u.commits[i].start <= id < u.commits[i].end
      ensures Told(u, u.commits[i], id)
    {
      if i < |s.commits| {
        assert u.commits[i] == s.commits[i];
        assert Told(s, s.commits[i], id);
        assert id < c.start;
      } else {
        assert u.commits[i] == c;
        assert id != c.start ==> Follower(c.start, id) && id in told.Keys;
      }
    }
  }

  lemma QueuedIsSlice(s: State, end: nat)
    requires QueueOk(s) && end <= |s.queue|
    ensures Queued(s)[..end] == s.arrivals[Popped(s)..Popped(s) + end]
  {
  }

  lemma RoomMadeKeepsInv(s: State, ok: bool)
    requires Inv(s) && Enabled(s, RoomMade(ok))
    ensures Inv(MadeRoom(s, ok))
  {
    hide Chain, Merged, Taken, LogOf, MemOf, Based, GoodGroup, StatusesOk, Completed, Group;
    var id := s.lead.value.id;
    assert id == Popped(s);
    if ok && s.arrivals[id].batch.Some? {
      GroupMadeKeepsInv(s);
    } else {
      var c := Commit(id, id + 1, false, 0, [], ok, false, false, false);
      CompletedKeepsInv(s, s, c);
    }
  }

  lemma GroupMadeKeepsInv(s: State)
    requires Inv(s) && Enabled(s, RoomMade(true)) && s.arrivals[s.lead.value.id].batch.Some?
    ensures Inv(MadeRoom(s, true))
  {
    hide Chain, Merged, Taken, LogOf, MemOf, Based, GoodGroup, StatusesOk, Completed, Group, CommitOk;
    var t := MadeRoom(s, true);
    GroupMadeLead(s);
    assert CommitsOk(t);
    SameStatuses(s, t);
  }

  lemma GroupMadeLead(s: State)
    requires QueueOk(s) && FrontOk(s) && Enabled(s, RoomMade(true)) && s.arrivals[s.lead.value.id].batch.Some?
    ensures LeadOk(MadeRoom(s, true)) && FrontOk(MadeRoom(s, true))
  {
    hide Merged, GoodGroup, Group;
    var ws := Queued(s);
    var end := Group(ws);
    assert GroupLed(ws, end) by { GroupIsLed(ws); }
    QueuedIsSlice(s, end);
  }

  ghost predicate GroupLed(ws: seq<Writer>, end: nat) {
    0 < end <= |ws| && GoodGroup(ws[..end])
  }

  lemma GroupIsLed(ws: seq<Writer>)
    requires ws != [] && ws[0].batch.Some?
    ensures GroupLed(ws, Group(ws))
  {
    hide Group;
    GroupIsGood(ws);
    assert ws[..Group(ws)][0] == ws[0];
  }

  lemma WorkKeepsInv(s: State, e: Event)
    requires Inv(s) && Enabled(s, e) && (e.Append? || e.Sync? || e.Apply?)
    ensures Inv(Next(s, e))
  {
    hide Chain, Merged, GoodGroup, Taken, LogOf, MemOf, Based, CommitOk, StatusesOk;
    SameStatuses(s, Next(s, e));
  }

  lemma FinishKeepsInv(s: State)
    requires Inv(s) && Enabled(s, Finish)
    ensures Inv(Next(s, Finish))
  {
    hide Chain, Merged, GoodGroup, Taken, LogOf, MemOf, Based;
    var l := s.lead.value;
    var c := Commit(l.id, l.id + l.end, true, l.base, l.ops, l.ok, l.logged, l.synced, l.applied);
    var t := s.(bgError := s.bgError || (l.logged && !l.ok), lastSequence := l.base + |l.ops| - 1);
    assert s.queue[l.end - 1] == c.end - 1;
    CompletedKeepsInv(s, t, c);
  }

  lemma StepKeepsInv(s: State, e: Event)
    requires Inv(s) && Enabled(s, e)
    ensures Inv(Next(s, e))
  {
    hide Inv;
    match e
    case Arrive(w) => ArriveKeepsInv(s, w);
    case Wake(id) => WakeKeepsInv(s, id);
    case RoomMade(ok) => RoomMadeKeepsInv(s, ok);
    case Append(ok) => WorkKeepsInv(s, e);
    case Sync(ok) => WorkKeepsInv(s, e);
    case Apply => WorkKeepsInv(s, e);
    case Finish => FinishKeepsInv(s);
  }

  lemma {:induction false} RunKeepsInv(s: State, events: seq<Event>)
    requires Inv(s) && CanRun(s, events)
    ensures Inv(After(s, events))
    decreases |events|
  {
    hide Inv, Enabled, Next;
    if events != [] {
      StepKeepsInv(s, events[0]);
      RunKeepsInv(Next(s, events[0]), events[1..]);
    }
  }

  // ----- what follows for every run -----

  /** In every reachable state with a queue, the front writer is leading or has been signalled; nobody
      in the queue is already done; and whoever is done but still waiting has been signalled. */
  lemma NobodyIsStranded(s: State, events: seq<Event>)
    requires Init(s) && CanRun(s, events)
    ensures
      var t := After(s, events);
      && (t.queue != [] ==> (t.lead.Some? && t.lead.value.id == t.queue[0]) || t.queue[0] in t.runnable)
      && (forall id :: id in t.queue ==> id !in t.done && id !in t.returned)
      && (forall id: nat :: id < |t.arrivals| && id !in t.queue ==> id in t.returned || (id in t.done && id in t.runnable))
  {
    hide CanRun, After;
    InitInv(s);
    RunKeepsInv(s, events);
    var t := After(s, events);
    forall id: nat | id < |t.arrivals| && id !in t.queue
      ensures id in t.returned || (id in t.done && id in t.runnable)
    {
      if id >= Popped(t) {
        QueueHas(t, id);
      }
      var i := CommitOf(t.commits, Popped(t), id);
      assert Told(t, t.commits[i], id);
    }
  }

  lemma QueueHas(s: State, id: nat)
    requires QueueOk(s) && Popped(s) <= id < |s.arrivals|
    ensures id in s.queue
  {
    assert s.queue[id - Popped(s)] == id;
  }

  lemma {:induction false} CommitOf(commits: seq<Commit>, n: int, id: nat) returns (i: nat)
    requires Chain(commits, n) && id < n
    ensures i < |commits| && commits[i].start <= id < commits[i].end
    decreases |commits|
  {
    var last := |commits| - 1;
    if commits[last].start <= id {
      i := last;
    } else {
      i := CommitOf(commits[..last], commits[last].start, id);
    }
  }

  // ----- everybody can finish -----

  lemma {:induction false} RunOn(s: State, a: seq<Event>, b: seq<Event>)
    requires CanRun(s, a) && CanRun(After(s, a), b)
    ensures CanRun(s, a + b) && After(s, a + b) == After(After(s, a), b)
    decreases |a|
  {
    hide Enabled, Next;
    if a == [] {
      assert a + b == b;
    } else {
      assert (a + b)[1..] == a[1..] + b;
      RunOn(Next(s, a[0]), a[1..], b);
    }
  }

  lemma OneEvent(s: State, e: Event, rest: seq<Event>)
    requires Enabled(s, e) && CanRun(Next(s, e), rest)
    ensures CanRun(s, [e] + rest) && After(s, [e] + rest) == After(Next(s, e), rest)
  {
    hide Enabled, Next;
    assert ([e] + rest)[1..] == rest;
  }

  function StepsLeft(phase: Phase): nat {
    match phase
    case MakingRoom => 4
    case Appending => 3
    case Syncing => 2
    case Applying => 1
    case Finishing => 0
  }

  /** The next step of a leader that meets no error. */
  function Advance(s: State): Event
    requires s.lead.Some?
  {
    match s.lead.value.phase
    case MakingRoom => RoomMade(!s.bgError)
    case Appending => Append(true)
    case Syncing => Sync(true)
    case Applying => Apply
    case Finishing => Finish
  }

  lemma AdvanceGoesOn(s: State)
    requires Inv(s) && s.lead.Some?
    ensures Enabled(s, Advance(s))
    ensures
      var t := Next(s, Advance(s));
      var l := s.lead.value;
      && t.arrivals == s.arrivals
      && (if t.lead.Some? then
            && t.lead.value.id == l.id && StepsLeft(t.lead.value.phase) < StepsLeft(l.phase)
            && t.lead.value.ok
          else
            && l.id in t.returned
            && t.returned[l.id] == if l.phase == MakingRoom then !s.bgError else l.ok)
  {
    hide Merged, Chain, Taken, LogOf, MemOf, Based, CommitOk, StatusesOk, PopGroup, Group, GoodGroup;
  }

  /** From every reachable state a leader can run to the end of `Write` on its own; with room in the memtable,
      a log that takes the record and no earlier error, it is told OK. */
  lemma {:induction false} LeaderCanProceed(s: State) returns (events: seq<Event>)
    requires Inv(s) && s.lead.Some?
    ensures CanRun(s, events)
    ensures
      var t := After(s, events);
      var l := s.lead.value;
      && t.arrivals == s.arrivals && l.id in t.returned
      && ((if l.phase == MakingRoom then !s.bgError else l.ok) ==> t.returned[l.id])
    decreases StepsLeft(s.lead.value.phase)
  {
    hide Inv, Enabled, Next;
    AdvanceGoesOn(s);
    StepKeepsInv(s, Advance(s));
    var t := Next(s, Advance(s));
    if t.lead.Some? {
      events := LeaderCanProceed(t);
    } else {
      events := [];
    }
    OneEvent(s, Advance(s), events);
    events := [Advance(s)] + events;
  }

  /** From every reachable state, whoever is queued or waiting, there is a run after which every call of
      `Write` so far has returned: no interleaving leads into a dead end. */
  lemma NoDeadEnd(s: State, events: seq<Event>) returns (more: seq<Event>)
    requires Init(s) && CanRun(s, events)
    ensures CanRun(After(s, events), more)
    ensures
      var t, u := After(s, events), After(After(s, events), more);
      u.arrivals == t.arrivals && forall id: nat :: id < |t.arrivals| ==> id in u.returned
  {
    hide CanRun, After, Inv;
    InitInv(s);
    RunKeepsInv(s, events);
    more := EveryoneCanReturn(After(s, events));
  }

  lemma {:induction false} EveryoneCanReturn(s: State) returns (events: seq<Event>)
    requires Inv(s)
    ensures CanRun(s, events)
    ensures After(s, events).arrivals == s.arrivals
    ensures forall id: nat :: id < |s.arrivals| ==> id in After(s, events).returned
    decreases |s.queue|, if s.lead.Some? then 0 else 1
  {
    hide Inv, Enabled, Next;
    if s.queue == [] {
      events := WakeAll(s, 0);
    } else if s.lead.Some? {
      var first := LeaderCanProceed(s);
      RunKeepsInv(s, first);
      QueueShrinks(s, After(s, first));
      var later := EveryoneCanReturn(After(s, first));
      RunOn(s, first, later);
      events := first + later;
    } else {
      var e := Wake(s.queue[0]);
      FrontWakes(s);
      StepKeepsInv(s, e);
      var later := EveryoneCanReturn(Next(s, e));
      OneEvent(s, e, later);
      events := [e] + later;
    }
  }

  /** A leader that has returned has left the queue. */
  lemma QueueShrinks(s: State, t: State)
    requires Inv(s) && Inv(t) && s.lead.Some?
    requires t.arrivals == s.arrivals && s.lead.value.id in t.returned
    ensures |t.queue| < |s.queue|
  {
    hide CommitsOk, LeadOk, Told;
    var id := s.lead.value.id;
    assert id == Popped(s);
    assert id < Popped(t);
  }

  lemma FrontWakes(s: State)
    requires Inv(s) && s.queue != [] && s.lead.None?
    ensures Enabled(s, Wake(s.queue[0]))
    ensures
      var t := Next(s, Wake(s.queue[0]));
      t.lead.Some? && t.queue == s.queue && t.arrivals == s.arrivals
  {
    hide CommitsOk, LeadOk, Told;
  }

  lemma {:induction false} WakeAll(s: State, n: nat) returns (events: seq<Event>)
    requires Inv(s) && s.queue == [] && n <= |s.arrivals|
    requires forall id: nat :: id < n ==> id in s.returned
    ensures CanRun(s, events)
    ensures After(s, events).arrivals == s.arrivals
    ensures forall id: nat :: id < |s.arrivals| ==> id in After(s, events).returned
    decreases |s.arrivals| - n
  {
    hide Inv, Enabled, Next;
    if n == |s.arrivals| {
      events := [];
    } else if n in s.returned {
      events := WakeAll(s, n + 1);
    } else {
      DoneWakes(s, n);
      StepKeepsInv(s, Wake(n));
      var later := WakeAll(Next(s, Wake(n)), n + 1);
      OneEvent(s, Wake(n), later);
      events := [Wake(n)] + later;
    }
  }

  lemma DoneWakes(s: State, id: nat)
    requires Inv(s) && s.queue == [] && id < |s.arrivals| && id !in s.returned
    ensures Enabled(s, Wake(id))
    ensures
      var t := Next(s, Wake(id));
      && t.arrivals == s.arrivals && t.queue == [] && id in t.returned
      && forall i :: i in s.returned ==> i in t.returned
  {
    hide LeadOk, CommitOk;
    var i := CommitOf(s.commits, Popped(s), id);
    assert Told(s, s.commits[i], id);
  }

  /** Where the batch of writer `id` lies in the operations of its group. */
  function Offset(arrivals: seq<Writer>, start: nat, id: nat): nat
    requires start <= id <= |arrivals|
  {
    |Merged(arrivals[start..id])|
  }

  lemma {:induction false} MergedContains(writers: seq<Writer>, k: nat)
    requires k < |writers| && writers[k].batch.Some?
    ensures
      var off, batch := |Merged(writers[..k])|, writers[k].batch.value;
      off + |batch| <= |Merged(writers)| && Merged(writers)[off..off + |batch|] == batch
    decreases |writers|
  {
    hide Merged;
    var n := |writers| - 1;
    MergedStep(writers, n);
    assert writers[..n + 1] == writers;
    if k < n {
      MergedContains(writers[..n], k);
      assert writers[..n][..k] == writers[..k];
    }
  }

  /** A writer with a batch that was told OK: its operations are in the log and in the memtable, as the
      stretch of its group's record that starts at its own offset; a sync writer's group was synced. */
  lemma AcknowledgedIsCommitted(s: State, events: seq<Event>, id: nat) returns (i: nat)
    requires Init(s) && CanRun(s, events)
    requires
      var t := After(s, events);
      id in t.returned && t.returned[id] && id < |t.arrivals| && t.arrivals[id].batch.Some?
    ensures
      var t := After(s, events);
      && i < |t.commits| && t.commits[i].start <= id < t.commits[i].end
      && var c := t.commits[i];
      && var off, batch := Offset(t.arrivals, c.start, id), t.arrivals[id].batch.value;
      && c.logged && c.applied && Record(c.base, c.ops) in t.log && Record(c.base, c.ops) in t.mem
      && (t.arrivals[id].sync ==> t.arrivals[c.start].sync && c.synced)
      && off + |batch| <= |c.ops| && c.ops[off..off + |batch|] == batch
  {
    hide CanRun, After;
    InitInv(s);
    RunKeepsInv(s, events);
    var t := After(s, events);
    i := CommittedWriter(t, id);
  }

  lemma CommittedWriter(t: State, id: nat) returns (i: nat)
    requires Inv(t) && id in t.returned && t.returned[id] && id < |t.arrivals| && t.arrivals[id].batch.Some?
    ensures
      && i < |t.commits| && t.commits[i].start <= id < t.commits[i].end
      && var c := t.commits[i];
      && var off, batch := Offset(t.arrivals, c.start, id), t.arrivals[id].batch.value;
      && c.logged && c.applied && Record(c.base, c.ops) in t.log && Record(c.base, c.ops) in t.mem
      && (t.arrivals[id].sync ==> t.arrivals[c.start].sync && c.synced)
      && off + |batch| <= |c.ops| && c.ops[off..off + |batch|] == batch
  {
    hide Merged, Chain, LogOf, MemOf, Taken, Based, CommitOk, LeadOk, FrontOk;
    i := CommitOf(t.commits, Popped(t), id);
    var c := t.commits[i];
    assert Told(t, c, id);
    InLog(t.commits, i);
    MemberOfCommit(t.arrivals, c, id);
  }

  /** What a commit says about one of its members. */
  lemma MemberOfCommit(arrivals: seq<Writer>, c: Commit, id: nat)
    requires CommitOk(arrivals, c) && c.start <= id < c.end
    ensures c.end <= |arrivals|
    ensures arrivals[id].sync ==> arrivals[c.start].sync
    ensures c.synced ==> arrivals[c.start].sync
    ensures c.made ==> c.ops == Merged(arrivals[c.start..c.end]) && GoodGroup(arrivals[c.start..c.end])
    ensures !c.made ==> c.end == c.start + 1
    ensures
      c.ok && arrivals[id].batch.Some? ==>
        var off, batch := Offset(arrivals, c.start, id), arrivals[id].batch.value;
        && c.logged && c.applied && (arrivals[id].sync ==> c.synced)
        && off + |batch| <= |c.ops| && c.ops[off..off + |batch|] == batch
  {
    hide Merged, TotalSize, ByteSize;
    var members := arrivals[c.start..c.end];
    assert members[id - c.start] == arrivals[id] && members[0] == arrivals[c.start];
    if c.made && arrivals[id].batch.Some? {
      MergedContains(members, id - c.start);
      assert members[..id - c.start] == arrivals[c.start..id];
    }
  }

  /** Every member of a group is told the group's status, and nothing else.  Whatever that status is, and
      whether or not it has a batch, a sync member follows a sync leader, only sync leaders sync, and the group
      keeps its size limit. */
  lemma MembersGetTheGroupsStatus(s: State, events: seq<Event>, i: nat, id: nat)
    requires Init(s) && CanRun(s, events) && i < |After(s, events).commits|
    requires After(s, events).commits[i].start <= id < After(s, events).commits[i].end
    ensures
      var t := After(s, events);
      var c := t.commits[i];
      && c.end <= |t.arrivals|
      && (if id in t.returned then t.returned[id] == c.ok else id in t.done && t.done[id] == c.ok && id in t.runnable)
      && (t.arrivals[id].sync ==> t.arrivals[c.start].sync) && (c.synced ==> t.arrivals[c.start].sync)
      && (if c.made then GoodGroup(t.arrivals[c.start..c.end]) else c.end == c.start + 1)
  {
    hide CanRun, After, CommitOk, GoodGroup, Merged, Chain, LogOf, MemOf, Taken, Based, LeadOk, FrontOk;
    InitInv(s);
    RunKeepsInv(s, events);
    var t := After(s, events);
    assert Told(t, t.commits[i], id);
    MemberOfCommit(t.arrivals, t.commits[i], id);
  }

  lemma {:induction false} InLog(commits: seq<Commit>, i: nat)
    requires i < |commits|
    ensures commits[i].logged ==> Record(commits[i].base, commits[i].ops) in LogOf(commits)
    ensures commits[i].applied ==> Record(commits[i].base, commits[i].ops) in MemOf(commits)
    decreases |commits|
  {
    var n := |commits| - 1;
    if i < n {
      InLog(commits[..n], i);
    }
  }

  lemma {:induction false} TakenGrows(commits: seq<Commit>, i: nat)
    requires i < |commits|
    ensures Taken(commits[..i]) + |commits[i].ops| <= Taken(commits)
    decreases |commits|
  {
    var n := |commits| - 1;
    if i < n {
      TakenGrows(commits[..n], i);
      assert commits[..n][..i] == commits[..i];
    }
  }

  /** At most once, in queue order: the groups of different leaders hold disjoint stretches of writers and
      of sequence numbers, both in the order of arrival, and every group merges exactly its own stretch. */
  lemma GroupsAreDisjointAndInOrder(s: State, events: seq<Event>, i: nat, j: nat)
    requires Init(s) && CanRun(s, events) && i < j < |After(s, events).commits|
    ensures
      var t := After(s, events);
      var c, d := t.commits[i], t.commits[j];
      && c.start < c.end <= d.start < d.end <= |t.arrivals|
      && (c.made && d.made ==> c.base + |c.ops| <= d.base)
      && (d.made ==> d.ops == Merged(t.arrivals[d.start..d.end]) && d.base + |d.ops| - 1 <= t.lastSequence)
  {
    hide CanRun, After;
    InitInv(s);
    RunKeepsInv(s, events);
    var t := After(s, events);
    OrderedCommits(t, i, j);
  }

  /** The log and the memtable hold exactly one record for each group that got that far, in order, and
      the last sequence number is before or behind every group, never inside: at the end of those that
      are finished, right before the one in hand. */
  lemma EveryRecordIsOneGroup(s: State, events: seq<Event>)
    requires Init(s) && CanRun(s, events)
    ensures
      var t := After(s, events);
      var inHand := if t.lead.Some? && t.lead.value.phase != MakingRoom then [t.lead.value] else [];
      && t.log == LogOf(t.commits) + (if inHand != [] && inHand[0].logged then [Record(inHand[0].base, inHand[0].ops)] else [])
      && t.mem == MemOf(t.commits) + (if inHand != [] && inHand[0].applied then [Record(inHand[0].base, inHand[0].ops)] else [])
      && (forall i :: 0 <= i < |t.commits| && t.commits[i].made ==>
            && t.commits[i].start < t.commits[i].end <= |t.arrivals|
            && t.commits[i].ops == Merged(t.arrivals[t.commits[i].start..t.commits[i].end])
            && t.commits[i].base + |t.commits[i].ops| - 1 <= t.lastSequence)
      && (inHand != [] ==>
            && inHand[0].base == t.lastSequence + 1
            && inHand[0].id + inHand[0].end <= |t.arrivals|
            && inHand[0].ops == Merged(t.arrivals[inHand[0].id..inHand[0].id + inHand[0].end])
            && forall i :: 0 <= i < |t.commits| ==> t.commits[i].end <= inHand[0].id)
  {
    hide CanRun, After, Merged, LogOf, MemOf, Taken, Chain, CommitOk, GoodGroup, StatusesOk;
    InitInv(s);
    RunKeepsInv(s, events);
    var t := After(s, events);
    ChainBounds(t.commits, Popped(t));
    forall i | 0 <= i < |t.commits| && t.commits[i].made
      ensures && t.commits[i].start < t.commits[i].end <= |t.arrivals|
              && t.commits[i].ops == Merged(t.arrivals[t.commits[i].start..t.commits[i].end])
              && t.commits[i].base + |t.commits[i].ops| - 1 <= t.lastSequence
    {
      MemberOfCommit(t.arrivals, t.commits[i], t.commits[i].start);
      TakenGrows(t.commits, i);
    }
  }

  lemma OrderedCommits(t: State, i: nat, j: nat)
    requires Inv(t) && i < j < |t.commits|
    ensures
      var c, d := t.commits[i], t.commits[j];
      && c.start < c.end <= d.start < d.end <= |t.arrivals|
      && (c.made && d.made ==> c.base + |c.ops| <= d.base)
      && (d.made ==> d.ops == Merged(t.arrivals[d.start..d.end]) && d.base + |d.ops| - 1 <= t.lastSequence)
  {
    hide Merged, Chain, LogOf, MemOf, Taken, CommitOk, GoodGroup, StatusesOk, LeadOk, FrontOk;
    ChainBounds(t.commits, Popped(t));
    TakenGrows(t.commits[..j], i);
    assert t.commits[..j][..i] == t.commits[..i];
    TakenGrows(t.commits, j);
    MemberOfCommit(t.arrivals, t.commits[j], t.commits[j].start);
  }
}
