/**
 Group commit: writers queue up, the one in front leads, merges the batches behind it into one group,
 logs and applies the group without the lock, and completes all its members.

 Each event below is a stretch of `DBImpl::Write` executed with the mutex held, or one step of the
 work done without it.  `arrivals` and `commits` record what happened, for the specification.
 */
module GroupCommit {
  import opened ByteStrings
  import opened Batches

  datatype Writer = Writer(batch: Option<seq<Op>>, sync: bool)

  function ByteSize(ops: seq<Op>): nat {
    HEADER + |Payload(ops)|
  }

  // ----- building a group -----

  /** How large a group may grow: a small first batch is not to wait for a large group. */
  function MaxSize(first: nat): nat {
    if first <= 131072 then first + 131072 else 1048576
  }

  /** `BuildBatchGroup` from member `k` on, with `size` bytes so far: where the group ends. */
  function GroupEnd(queue: seq<Writer>, k: nat, size: nat, max: nat): (end: nat)
    requires 0 < k <= |queue|
    ensures k <= end <= |queue|
    decreases |queue| - k
  {
    if k == |queue| || (queue[k].sync && !queue[0].sync) then k
    else if queue[k].batch.None? then GroupEnd(queue, k + 1, size, max)
    else
      var size' := size + ByteSize(queue[k].batch.value);
      if size' > max then k else GroupEnd(queue, k + 1, size', max)
  }

  function Group(queue: seq<Writer>): (end: nat)
    requires queue != [] && queue[0].batch.Some?
    ensures 0 < end <= |queue|
  {
    var size := ByteSize(queue[0].batch.value);
    GroupEnd(queue, 1, size, MaxSize(size))
  }

  /** The operations of the members' batches, in order. */
  function Merged(writers: seq<Writer>): seq<Op> {
    if writers == [] then []
    else
      var n := |writers| - 1;
      Merged(writers[..n]) + if writers[n].batch.Some? then writers[n].batch.value else []
  }

  function TotalSize(writers: seq<Writer>): nat {
    if writers == [] then 0
    else
      var n := |writers| - 1;
      TotalSize(writers[..n]) + if writers[n].batch.Some? then ByteSize(writers[n].batch.value) else 0
  }

  method BuildBatchGroup(queue: seq<Writer>) returns (end: nat, result: seq<Op>)
    requires queue != [] && queue[0].batch.Some?
    ensures end == Group(queue) && result == Merged(queue[..end])
  {
    hide GroupEnd, Merged, ByteSize;
    var first := queue[0];
    result := first.batch.value;
    var size: nat := ByteSize(first.batch.value);
    var maxSize: nat := 1048576;
    if size <= 131072 {
      maxSize := size + 131072;
    }
    end := 1;
    MergedOne(queue);
    while end < |queue|
      invariant 0 < end <= |queue|
      invariant Group(queue) == GroupEnd(queue, end, size, maxSize)
      invariant result == Merged(queue[..end])
    {
      GroupEndStep(queue, end, size, maxSize);
      var w := queue[end];
      if w.sync && !first.sync {
        break;
      }
      if w.batch.Some? {
        size := size + ByteSize(w.batch.value);
        if size > maxSize {
          break;
        }
        result := result + w.batch.value;
      }
      MergedStep(queue, end);
      end := end + 1;
    }
    if end == |queue| {
      GroupEndStop(queue, end, size, maxSize);
    }
  }

  lemma GroupEndStep(queue: seq<Writer>, k: nat, size: nat, max: nat)
    requires 0 < k < |queue|
    ensures GroupEnd(queue, k, size, max) ==
      if queue[k].sync && !queue[0].sync then k
      else if queue[k].batch.None? then GroupEnd(queue, k + 1, size, max)
      else
        var size' := size + ByteSize(queue[k].batch.value);
        if size' > max then k else GroupEnd(queue, k + 1, size', max)
  {
  }

  lemma GroupEndStop(queue: seq<Writer>, k: nat, size: nat, max: nat)
    requires k == |queue| && k > 0
    ensures GroupEnd(queue, k, size, max) == k
  {
  }

  lemma MergedStep(writers: seq<Writer>, k: nat)
    requires k < |writers|
    ensures Merged(writers[..k + 1])
         == Merged(writers[..k]) + (if writers[k].batch.Some? then writers[k].batch.value else [])
    ensures TotalSize(writers[..k + 1])
         == TotalSize(writers[..k]) + (if writers[k].batch.Some? then ByteSize(writers[k].batch.value) else 0)
  {
    assert writers[..k + 1][..k] == writers[..k];
  }

  lemma MergedOne(writers: seq<Writer>)
    requires writers != [] && writers[0].batch.Some?
    ensures Merged(writers[..1]) == writers[0].batch.value
    ensures TotalSize(writers[..1]) == ByteSize(writers[0].batch.value)
  {
    MergedStep(writers, 0);
    assert writers[..0] == [];
  }

  ghost predicate NoSyncUnderNonSync(queue: seq<Writer>, end: nat)
    requires end <= |queue|
  {
    forall i :: 0 <= i < end && queue[i].sync ==> queue[0].sync
  }

  lemma {:induction false} GroupEndIsGood(queue: seq<Writer>, k: nat, size: nat, max: nat)
    requires 0 < k <= |queue| && NoSyncUnderNonSync(queue, k)
    requires size == TotalSize(queue[..k])
    ensures NoSyncUnderNonSync(queue, GroupEnd(queue, k, size, max))
    ensures
      var end := GroupEnd(queue, k, size, max);
      var total := TotalSize(queue[..end]);
      && total <= (if size > max then size else max)
      && (end < |queue| ==>
            || (queue[end].sync && !queue[0].sync)
            || (queue[end].batch.Some? && total + ByteSize(queue[end].batch.value) > max))
    decreases |queue| - k
  {
    hide ByteSize, TotalSize;
    if k < |queue| && !(queue[k].sync && !queue[0].sync) {
      MergedStep(queue, k);
      if queue[k].batch.None? {
        GroupEndIsGood(queue, k + 1, size, max);
      } else if size + ByteSize(queue[k].batch.value) <= max {
        GroupEndIsGood(queue, k + 1, size + ByteSize(queue[k].batch.value), max);
      }
    }
  }

  /** A group is a non-empty prefix of the queue that holds no sync writer behind a non-sync leader; its
      batches stay within the larger of the first one and the limit; and it is as long as that allows. */
  lemma GroupIsGood(queue: seq<Writer>)
    requires queue != [] && queue[0].batch.Some?
    ensures
      var end := Group(queue);
      var first := ByteSize(queue[0].batch.value);
      var total := TotalSize(queue[..end]);
      && NoSyncUnderNonSync(queue, end)
      && total <= (if first > MaxSize(first) then first else MaxSize(first))
      && (end < |queue| ==>
            || (queue[end].sync && !queue[0].sync)
            || (queue[end].batch.Some? && total + ByteSize(queue[end].batch.value) > MaxSize(first)))
  {
    hide ByteSize, TotalSize, GroupEnd;
    MergedOne(queue);
    var size := ByteSize(queue[0].batch.value);
    GroupEndIsGood(queue, 1, size, MaxSize(size));
  }

  /** The limit in bytes: a first batch of up to 128 KiB lets at most 128 KiB join it, a larger one lets the
      group grow to 1 MiB; only a sync writer behind a non-sync one or a batch that no longer fits ends it. */
  lemma GroupLimit(queue: seq<Writer>)
    requires queue != [] && queue[0].batch.Some?
    ensures
      var first := |Payload(queue[0].batch.value)| + 12;
      var limit := if first <= 128 * 1024 then first + 128 * 1024 else 1024 * 1024;
      var end := Group(queue);
      var total := TotalSize(queue[..end]);
      && (total <= limit || total == first)
      && (end < |queue| ==>
            || (queue[end].sync && !queue[0].sync)
            || (queue[end].batch.Some? && total + |Payload(queue[end].batch.value)| + 12 > limit))
  {
    hide TotalSize, GroupEnd;
    GroupIsGood(queue);
    if ByteSize(queue[0].batch.value) > 1048576 {
      OversizedStaysAlone(queue);
    }
  }

  lemma OversizedStaysAlone(queue: seq<Writer>)
    requires queue != [] && queue[0].batch.Some? && ByteSize(queue[0].batch.value) > 1048576
    ensures TotalSize(queue[..Group(queue)]) == ByteSize(queue[0].batch.value)
  {
    hide TotalSize, ByteSize;
    MergedOne(queue);
    FirstIsMost(queue, 1, ByteSize(queue[0].batch.value));
  }

  /** Nothing with a batch joins a group that is over its limit already. */
  lemma {:induction false} FirstIsMost(queue: seq<Writer>, k: nat, size: nat)
    requires 0 < k <= |queue| && size > 1048576 && TotalSize(queue[..k]) == size
    ensures TotalSize(queue[..GroupEnd(queue, k, size, 1048576)]) == size
    decreases |queue| - k
  {
    hide TotalSize, ByteSize;
    if k < |queue| && !(queue[k].sync && !queue[0].sync) && queue[k].batch.None? {
      MergedStep(queue, k);
      FirstIsMost(queue, k + 1, size);
    }
  }

  // ----- the state machine -----

  /** What the leader is doing; from `Appending` to `Applied` it has let go of the mutex. */
  datatype Phase = MakingRoom | Appending | Syncing | Applying | Finishing

  datatype Lead = Lead(
    id: nat, phase: Phase,
    end: nat,             // how many writers at the front of the queue are in the group
    base: nat, ops: seq<Op>,
    ok: bool,             // status so far
    logged: bool, synced: bool, applied: bool)

  /** What a leader did with the writers numbered `start` up to `end`; `made` when it wrote a group. */
  datatype Commit = Commit(
    start: nat, end: nat, made: bool, base: nat, ops: seq<Op>,
    ok: bool, logged: bool, synced: bool, applied: bool)

  datatype Record = Record(base: nat, ops: seq<Op>)

  datatype State = State(
    queue: seq<nat>,               // writers_
    done: map<nat, bool>,          // w.done, with w.status
    runnable: set<nat>,            // signalled, not yet back from Wait
    returned: map<nat, bool>,      // statuses handed back by Write
    lead: Option<Lead>,
    lastSequence: nat,
    bgError: bool,
    log: seq<Record>,              // records added to the log
    mem: seq<Record>,              // groups inserted into the memtable
    arrivals: seq<Writer>,         // every writer, in the order of taking the mutex
    commits: seq<Commit>)

  datatype Event =
    | Arrive(writer: Writer)
    | Wake(id: nat)                // Wait returns, signalled or not
    | RoomMade(ok: bool)
    | Append(ok: bool)
    | Sync(ok: bool)
    | Apply
    | Finish

  ghost predicate Init(s: State) {
    && s.queue == [] && s.done == map[] && s.runnable == {} && s.returned == map[] && s.lead.None?
    && s.lastSequence == 0 && !s.bgError && s.log == [] && s.mem == [] && s.arrivals == [] && s.commits == []
  }

  function Queued(s: State): (ws: seq<Writer>)
    requires forall i :: 0 <= i < |s.queue| ==> s.queue[i] < |s.arrivals|
    ensures |ws| == |s.queue|
    ensures forall i :: 0 <= i < |s.queue| ==> ws[i] == s.arrivals[s.queue[i]]
  {
    seq(|s.queue|, i requires 0 <= i < |s.queue| => s.arrivals[s.queue[i]])
  }

  function NewLead(id: nat): Lead {
    Lead(id, MakingRoom, 1, 0, [], true, false, false, false)
  }

  /** What the completion loop touches. */
  datatype Board = Board(queue: seq<nat>, done: map<nat, bool>, runnable: set<nat>)

  /** The completion loop: pops the queue up to and including `last`. */
  function PopGroup(b: Board, leader: nat, last: nat, ok: bool): Board
    decreases |b.queue|
  {
    if b.queue == [] then b
    else
      var ready := b.queue[0];
      var b' := if ready == leader then Board(b.queue[1..], b.done, b.runnable)
                else Board(b.queue[1..], b.done[ready := ok], b.runnable + {ready});
      if ready == last then b' else PopGroup(b', leader, last, ok)
  }

  /** The end of `Write`: completes the group, signals the new front, and returns. */
  function Completed(s: State, last: nat, c: Commit): State
    requires s.lead.Some?
  {
    var l := s.lead.value;
    var b := PopGroup(Board(s.queue, s.done, s.runnable), l.id, last, c.ok);
    s.(queue := b.queue, done := b.done,
       runnable := if b.queue == [] then b.runnable else b.runnable + {b.queue[0]},
       returned := s.returned[l.id := c.ok], lead := None, commits := s.commits + [c])
  }

  /** The leader is the writer in front of the queue. */
  ghost predicate LeadFits(s: State) {
    && s.lead.Some? && s.lead.value.id < |s.arrivals|
    && s.queue != [] && s.queue[0] == s.lead.value.id
    && (forall i :: 0 <= i < |s.queue| ==> s.queue[i] < |s.arrivals|)
    && (s.lead.value.phase != MakingRoom ==> 0 < s.lead.value.end <= |s.queue| && s.lead.value.base > 0)
  }

  ghost predicate Enabled(s: State, e: Event) {
    match e
    case Arrive(_) => true
    case Wake(id) => id < |s.arrivals| && id !in s.returned && (s.lead.Some? ==> s.lead.value.id != id)
    case RoomMade(ok) => LeadFits(s) && s.lead.value.phase == MakingRoom && (ok ==> !s.bgError)
    case Append(_) => LeadFits(s) && s.lead.value.phase == Appending
    case Sync(_) => LeadFits(s) && s.lead.value.phase == Syncing
    case Apply => LeadFits(s) && s.lead.value.phase == Applying
    case Finish => LeadFits(s) && s.lead.value.phase == Finishing
  }

  function Arrived(s: State, w: Writer): State {
    var id := |s.arrivals|;
    var t := s.(arrivals := s.arrivals + [w], queue := s.queue + [id]);
    if s.queue == [] then t.(lead := Some(NewLead(id))) else t
  }

  function Woken(s: State, id: nat): State {
    var t := s.(runnable := s.runnable - {id});
    if id in s.done then t.(returned := t.returned[id := s.done[id]])
    else if s.queue != [] && s.queue[0] == id then t.(lead := Some(NewLead(id)))
    else t
  }

  function MadeRoom(s: State, ok: bool): State
    requires s.lead.Some? && s.lead.value.id < |s.arrivals|
    requires forall i :: 0 <= i < |s.queue| ==> s.queue[i] < |s.arrivals|
    requires s.queue != [] && s.queue[0] == s.lead.value.id
  {
    var id := s.lead.value.id;
    if ok && s.arrivals[id].batch.Some? then
      var end := Group(Queued(s));
      s.(lead := Some(Lead(id, Appending, end, s.lastSequence + 1, Merged(Queued(s)[..end]), true, false, false, false)))
    else
      Completed(s, id, Commit(id, id + 1, false, 0, [], ok, false, false, false))
  }

  function Appended(s: State, ok: bool): State
    requires s.lead.Some? && s.lead.value.id < |s.arrivals|
  {
    var l := s.lead.value;
    var next := if !ok then Finishing else if s.arrivals[l.id].sync then Syncing else Applying;
    s.(lead := Some(l.(phase := next, ok := ok, logged := ok)),
       log := if ok then s.log + [Record(l.base, l.ops)] else s.log)
  }

  function Synced(s: State, ok: bool): State
    requires s.lead.Some?
  {
    var l := s.lead.value;
    s.(lead := Some(l.(phase := if ok then Applying else Finishing, ok := ok, synced := ok)))
  }

  function Inserted(s: State): State
    requires s.lead.Some?
  {
    var l := s.lead.value;
    s.(lead := Some(l.(phase := Finishing, applied := true)), mem := s.mem + [Record(l.base, l.ops)])
  }

  /** Back under the mutex: a failed sync poisons the database; the sequence moves on either way. */
  function Finished(s: State): State
    requires s.lead.Some? && 0 < s.lead.value.end <= |s.queue| && s.lead.value.base > 0
  {
    var l := s.lead.value;
    var syncError := l.logged && !l.ok;
    var t := s.(bgError := s.bgError || syncError, lastSequence := l.base + |l.ops| - 1);
    Completed(t, s.queue[l.end - 1],
              Commit(l.id, l.id + l.end, true, l.base, l.ops, l.ok, l.logged, l.synced, l.applied))
  }

  ghost function Next(s: State, e: Event): State
    requires Enabled(s, e)
  {
    match e
    case Arrive(w) => Arrived(s, w)
    case Wake(id) => Woken(s, id)
    case RoomMade(ok) => MadeRoom(s, ok)
    case Append(ok) => Appended(s, ok)
    case Sync(ok) => Synced(s, ok)
    case Apply => Inserted(s)
    case Finish => Finished(s)
  }

  ghost predicate CanRun(s: State, events: seq<Event>)
    decreases |events|
  {
    events == [] || (Enabled(s, events[0]) && CanRun(Next(s, events[0]), events[1..]))
  }

  ghost function After(s: State, events: seq<Event>): State
    requires CanRun(s, events)
    decreases |events|
  {
    if events == [] then s else After(Next(s, events[0]), events[1..])
  }
}
