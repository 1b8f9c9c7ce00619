/**
 Lock-free reads: one writer inserts, store by store, while any number of searches run, load by load,
 in any interleaving (loads and stores are sequentially consistent).
 */
module SkipListRuns {
  import opened SkipLists

  /** How far the writer is: about to raise the height, to allocate, to fill the new node's link on a
      level, or to publish the node there. */
  datatype Phase = Raising | Allocating | Linking(level: nat) | Publishing(level: nat)

  datatype Writer = Writer(x: Address, key: Key, height: nat, prev: seq<Address>, places: seq<nat>, phase: Phase)

  datatype Progress = At(x: Address, level: nat) | Done(result: Address)

  /** `start` is the bottom level when the search began, for the specification. */
  datatype Reader = Reader(search: Search, progress: Progress, start: seq<Address>)

  datatype State = State(
    mem: Memory,
    maxHeight: nat,
    lists: seq<seq<Address>>,      // what the links of each level run through
    writer: seq<Writer>,           // the insertion in progress, if any
    readers: map<nat, Reader>)

  datatype Event =
    | BeginInsert(writer: Writer)
    | Store(garbage: seq<Address>)       // the writer's next store; `garbage` fills a fresh node's links
    | BeginSearch(id: nat, search: Search)
    | Load(id: nat)

  ghost predicate Init(s: State) {
    && s.mem == map[HEAD := Node(0.0, seq(MAX_HEIGHT, _ => NULL))] && s.maxHeight == 1
    && s.lists == seq(MAX_HEIGHT, _ => []) && s.writer == [] && s.readers == map[]
  }

  // ----- transitions -----

  /** What the writer's own search has found: `prev` holds, on every level of the new node, the place
      where its key belongs, as `SkipList.Find` computes it. */
  ghost predicate CanBeginInsert(s: State, w: Writer) {
    && s.writer == [] && w.phase == Raising
    && w.x !in s.mem && w.x != NULL && w.x != HEAD
    && 1 <= w.height <= MAX_HEIGHT && |w.prev| == |w.places| == w.height && |s.lists| == MAX_HEIGHT
    && forall l :: 0 <= l < w.height ==> FoundPlace(s.mem, s.lists[l], w.prev[l], w.places[l], w.key)
  }

  ghost predicate FoundPlace(mem: Memory, list: seq<Address>, p: Address, a: nat, key: Key) {
    Fits(mem, list, a, key) && a <= |list| && p == Place(list, a)
  }

  ghost predicate CanStore(s: State, garbage: seq<Address>) {
    && |s.writer| == 1 && |s.lists| == MAX_HEIGHT
    && var w := s.writer[0];
    match w.phase
    case Raising => true
    case Allocating => |garbage| == w.height
    case Linking(l) => l < |w.prev| && HasLink(s.mem, w.prev[l], l) && HasLink(s.mem, w.x, l)
    case Publishing(l) =>
      && l < |w.prev| && l < |w.places| && l < |s.lists| && w.places[l] <= |s.lists[l]|
      && HasLink(s.mem, w.prev[l], l)
  }

  ghost function Stored(s: State, garbage: seq<Address>): State
    requires CanStore(s, garbage)
  {
    var w := s.writer[0];
    match w.phase
    case Raising =>
      s.(maxHeight := if w.height > s.maxHeight then w.height else s.maxHeight, writer := [w.(phase := Allocating)])
    case Allocating =>
      s.(mem := s.mem[w.x := Node(w.key, garbage)], writer := [w.(phase := Linking(0))])
    case Linking(l) =>
      s.(mem := SetNext(s.mem, w.x, l, s.mem[w.prev[l]].next[l]), writer := [w.(phase := Publishing(l))])
    case Publishing(l) =>
      s.(mem := SetNext(s.mem, w.prev[l], l, w.x),
         lists := s.lists[l := InsertAt(s.lists[l], w.places[l], w.x)],
         writer := if l + 1 < w.height then [w.(phase := Linking(l + 1))] else [])
  }

  ghost predicate CanLoad(s: State, id: nat) {
    && id in s.readers && s.readers[id].progress.At?
    && HasLink(s.mem, s.readers[id].progress.x, s.readers[id].progress.level)
  }

  /** One turn of a search loop: a load, then a move, a drop to the level below, or the return. */
  function Loaded(mem: Memory, r: Reader): Reader
    requires r.progress.At? && HasLink(mem, r.progress.x, r.progress.level)
  {
    var At(x, level) := r.progress;
    var next := mem[x].next[level];
    if MovesOn(r.search, mem, next) then r.(progress := At(next, level))
    else if level > 0 then r.(progress := At(x, level - 1))
    else r.(progress := Done(if r.search.GreaterOrEqual? then next else x))
  }

  ghost predicate Enabled(s: State, e: Event) {
    match e
    case BeginInsert(w) => CanBeginInsert(s, w)
    case Store(garbage) => CanStore(s, garbage)
    case BeginSearch(id, _) => id !in s.readers && 1 <= s.maxHeight && |s.lists| == MAX_HEIGHT
    case Load(id) => CanLoad(s, id)
  }

  ghost function Next(s: State, e: Event): State
    requires Enabled(s, e)
  {
    match e
    case BeginInsert(w) => s.(writer := [w])
    case Store(garbage) => Stored(s, garbage)
    case BeginSearch(id, search) => s.(readers := s.readers[id := Reader(search, At(HEAD, s.maxHeight - 1), s.lists[0])])
    case Load(id) => s.(readers := s.readers[id := Loaded(s.mem, s.readers[id])])
  }

  ghost predicate CanRun(s: State, events: seq<Event>)
    decreases |events|
  {
    events == [] || (Enabled(s, events[0]) && CanRun(Next(s, events[0]), events[1..]))
  }

  ghost function After(s: State, events: seq<Event>): State
    requires CanRun(s, events)
    decreases |events|
  {
    if events == [] then s else After(Next(s, events[0]), events[1..])
  }

  // ----- the invariant -----

  ghost predicate WriterOk(s: State, w: Writer) {
    && w.x != NULL && w.x != HEAD
    && 1 <= w.height <= MAX_HEIGHT && |w.prev| == |w.places| == w.height && |s.lists| == MAX_HEIGHT
    && match w.phase
       case Raising => w.x !in s.mem && forall l :: 0 <= l < w.height ==> FoundPlace(s.mem, s.lists[l], w.prev[l], w.places[l], w.key)
       case Allocating =>
         w.x !in s.mem && w.height <= s.maxHeight && forall l :: 0 <= l < w.height ==> FoundPlace(s.mem, s.lists[l], w.prev[l], w.places[l], w.key)
       case Linking(i) => InsertedBelow(s, w, i)
       case Publishing(i) => InsertedBelow(s, w, i) && s.mem[w.x].next[i] == Successor(s.lists[i], w.places[i])
  }

  ghost predicate InsertedBelow(s: State, w: Writer, i: nat)
    requires |w.prev| == |w.places| == w.height <= MAX_HEIGHT && |s.lists| == MAX_HEIGHT
  {
    && i < w.height <= s.maxHeight
    && w.x in s.mem && s.mem[w.x].key == w.key && |s.mem[w.x].next| == w.height
    && (forall l :: 0 <= l < i ==> w.x in s.lists[l])
    && (forall l :: i <= l < w.height ==> w.x !in s.lists[l] && FoundPlace(s.mem, s.lists[l], w.prev[l], w.places[l], w.key))
  }

  /** What a finished search may say, for the nodes that were there when it began. */
  ghost predicate RightAnswer(mem: Memory, bottom: seq<Address>, r: Reader, result: Address) {
    if r.search.GreaterOrEqual? then
      && (result == NULL || (result in bottom && result in mem && r.search.target <= mem[result].key))
      && (forall n :: n in r.start && n in mem && r.search.target <= mem[n].key ==>
            result != NULL && result in mem && mem[result].key <= mem[n].key)
    else
      && (result == HEAD || (result in bottom && result in mem && Before(r.search, mem[result].key)))
      && (forall n :: n in r.start && n in mem && Before(r.search, mem[n].key) ==>
            result != HEAD && result in mem && mem[n].key <= mem[result].key)
  }

  ghost predicate ReaderOk(mem: Memory, lists: seq<seq<Address>>, r: Reader)
    requires |lists| == MAX_HEIGHT
  {
    && Within(r.start, lists[0]) && (forall n :: n in r.start ==> n in mem)
    && match r.progress
       case At(x, level) => level < MAX_HEIGHT && StandsAt(r.search, mem, lists[level], x)
       case Done(result) => RightAnswer(mem, lists[0], r, result)
  }

  ghost predicate Inv(s: State) {
    && ListOk(s.mem, s.maxHeight, s.lists)
    && |s.writer| <= 1 && (s.writer != [] ==> WriterOk(s, s.writer[0]))
    && (forall id :: id in s.readers ==> ReaderOk(s.mem, s.lists, s.readers[id]))
  }

  // ----- steps -----

  lemma InitInv(s: State)
    requires Init(s)
    ensures Inv(s)
  {
    forall l | 0 <= l < MAX_HEIGHT
      ensures LevelOk(s.mem, s.lists[l], l)
    {
      assert s.lists[l] == [];
    }
  }

  /** What is in memory keeps its key, and what a level holds it keeps. */
  ghost predicate Grows(mem: Memory, lists: seq<seq<Address>>, mem': Memory, lists': seq<seq<Address>>) {
    && |lists| == |lists'|
    && (forall n :: n in mem ==> n in mem' && mem'[n].key == mem[n].key)
    && (forall l :: 0 <= l < |lists| ==> Within(lists[l], lists'[l]))
  }

  lemma GrowthKeepsReader(mem: Memory, lists: seq<seq<Address>>, mem': Memory, lists': seq<seq<Address>>, r: Reader)
    requires |lists| == MAX_HEIGHT && Grows(mem, lists, mem', lists') && ReaderOk(mem, lists, r)
    ensures ReaderOk(mem', lists', r)
  {
    if r.progress.At? {
      assert Within(lists[r.progress.level], lists'[r.progress.level]);
    } else {
      assert Within(lists[0], lists'[0]);
    }
  }

  lemma StoreKeepsList(s: State, garbage: seq<Address>)
    requires Inv(s) && CanStore(s, garbage)
    ensures ListOk(Stored(s, garbage).mem, Stored(s, garbage).maxHeight, Stored(s, garbage).lists)
    ensures Grows(s.mem, s.lists, Stored(s, garbage).mem, Stored(s, garbage).lists)
  {
    hide ListOk, Fits, ReaderOk;
    var w := s.writer[0];
    match w.phase
    case Raising =>
      if w.height > s.maxHeight {
        RaiseKeepsList(s.mem, s.maxHeight, s.lists, w.height, w.key);
      }
    case Allocating =>
      AllocateKeepsList(s.mem, s.maxHeight, s.lists, w.x, Node(w.key, garbage));
    case Linking(l) =>
      LinkKeepsList(s.mem, s.maxHeight, s.lists, w.x, l, s.mem[w.prev[l]].next[l]);
    case Publishing(l) =>
      assert FoundPlace(s.mem, s.lists[l], w.prev[l], w.places[l], w.key);
      PublishKeepsList(s.mem, s.maxHeight, s.lists, l, w.places[l], w.x);
      InsertedMembers(s.lists[l], w.places[l], w.x);
  }

  lemma StoreKeepsWriter(s: State, garbage: seq<Address>)
    requires Inv(s) && CanStore(s, garbage)
    ensures
      var t := Stored(s, garbage);
      t.writer != [] ==> WriterOk(t, t.writer[0])
  {
    hide ListOk, Fits, ReaderOk, LevelOk;
    var w := s.writer[0];
    var t := Stored(s, garbage);
    match w.phase
    case Raising =>
      assert forall l :: 0 <= l < w.height ==> FoundPlace(s.mem, s.lists[l], w.prev[l], w.places[l], w.key);
      assert forall l :: 0 <= l < w.height ==> FoundPlace(t.mem, t.lists[l], w.prev[l], w.places[l], w.key);
    case Allocating =>
      AllocateKeepsList(s.mem, s.maxHeight, s.lists, w.x, Node(w.key, garbage));
      assert forall l :: 0 <= l < w.height ==> FoundPlace(s.mem, s.lists[l], w.prev[l], w.places[l], w.key);
      AllocateKeepsFits(s.mem, s.maxHeight, s.lists, w.x, Node(w.key, garbage), w.places, w.key);
      assert forall l :: 0 <= l < w.height ==> FoundPlace(t.mem, t.lists[l], w.prev[l], w.places[l], w.key);
    case Linking(i) =>
      assert forall l :: i <= l < w.height ==> FoundPlace(s.mem, s.lists[l], w.prev[l], w.places[l], w.key);
      PlaceHasLink(s.mem, s.maxHeight, s.lists, i, w.places[i]) by {
        assert FoundPlace(s.mem, s.lists[i], w.prev[i], w.places[i], w.key);
      }
      StoreKeepsFits(s.mem, s.lists, w.places, w.key, w.x, i, s.mem[w.prev[i]].next[i], i, w.height);
      assert forall l :: i <= l < w.height ==> FoundPlace(t.mem, t.lists[l], w.prev[l], w.places[l], w.key);
    case Publishing(i) => PublishKeepsWriter(s, i, garbage);
  }

  lemma PublishKeepsWriter(s: State, i: nat, garbage: seq<Address>)
    requires Inv(s) && CanStore(s, garbage) && s.writer[0].phase == Publishing(i)
    ensures
      var t := Stored(s, garbage);
      t.writer != [] ==> WriterOk(t, t.writer[0])
  {
    hide ListOk, Fits, ReaderOk, LevelOk;
    var w := s.writer[0];
    var t := Stored(s, garbage);
    assert forall l :: i <= l < w.height ==> FoundPlace(s.mem, s.lists[l], w.prev[l], w.places[l], w.key);
    StoreKeepsFits(s.mem, s.lists, w.places, w.key, w.prev[i], i, w.x, i, w.height);
    InsertedMembers(s.lists[i], w.places[i], w.x);
    if i + 1 < w.height {
      assert forall l :: i + 1 <= l < w.height ==> FoundPlace(t.mem, t.lists[l], w.prev[l], w.places[l], w.key);
    }
  }

  lemma StoreKeepsInv(s: State, garbage: seq<Address>)
    requires Inv(s) && CanStore(s, garbage)
    ensures Inv(Stored(s, garbage))
  {
    hide ListOk, ReaderOk, WriterOk, Grows;
    var t := Stored(s, garbage);
    StoreKeepsList(s, garbage);
    StoreKeepsWriter(s, garbage);
    forall id | id in t.readers
      ensures ReaderOk(t.mem, t.lists, t.readers[id])
    {
      GrowthKeepsReader(s.mem, s.lists, t.mem, t.lists, s.readers[id]);
    }
  }

  /** A search that returns gives, at that moment, exactly the first node not before its target (or the
      last one before it) of the whole list. */
  lemma ReturnIsExact(mem: Memory, maxHeight: nat, lists: seq<seq<Address>>, r: Reader)
    requires ListOk(mem, maxHeight, lists) && ReaderOk(mem, lists, r) && r.progress.At?
    ensures HasLink(mem, r.progress.x, r.progress.level)
    ensures Loaded(mem, r).progress.Done? ==>
              RightAnswer(mem, lists[0], r.(start := lists[0]), Loaded(mem, r).progress.result)
    ensures ReaderOk(mem, lists, Loaded(mem, r))
  {
    var At(x, level) := r.progress;
    var list := lists[level];
    assert LevelOk(mem, list, level);
    hide LevelOk;
    var a := PlaceOf(list, x);
    LoadIsExact(r.search, mem, list, level, x, a);
    var next := mem[x].next[level];
    if MovesOn(r.search, mem, next) {
    } else if level > 0 {
      assert Within(lists[level], lists[level - 1]);
    } else {
      SplitAnswers(r.search, mem, list, level, a);
    }
  }

  lemma StepKeepsInv(s: State, e: Event)
    requires Inv(s) && Enabled(s, e)
    ensures Inv(Next(s, e))
  {
    match e
    case BeginInsert(w) =>
    case Store(garbage) => StoreKeepsInv(s, garbage);
    case BeginSearch(id, search) => BeginSearchKeepsInv(s, id, search);
    case Load(id) =>
      hide ListOk, WriterOk, ReaderOk;
      ReturnIsExact(s.mem, s.maxHeight, s.lists, s.readers[id]);
      SameWriter(s, Next(s, e));
  }

  lemma SameWriter(s: State, t: State)
    requires Inv(s) && t.mem == s.mem && t.maxHeight == s.maxHeight && t.lists == s.lists && t.writer == s.writer
    ensures t.writer != [] ==> WriterOk(t, t.writer[0])
  {
    hide ListOk, ReaderOk, FoundPlace;
  }

  lemma BeginSearchKeepsInv(s: State, id: nat, search: Search)
    requires Inv(s) && Enabled(s, BeginSearch(id, search))
    ensures Inv(Next(s, BeginSearch(id, search)))
  {
    hide WriterOk;
    var t := Next(s, BeginSearch(id, search));
    assert LevelOk(s.mem, s.lists[0], 0);
    SameWriter(s, t);
    forall k | k in t.readers
      ensures ReaderOk(t.mem, t.lists, t.readers[k])
    {
      if k != id {
        assert ReaderOk(s.mem, s.lists, s.readers[k]);
      }
    }
  }

  lemma {:induction false} RunKeepsInv(s: State, events: seq<Event>)
    requires Inv(s) && CanRun(s, events)
    ensures Inv(After(s, events))
    decreases |events|
  {
    hide Inv, Enabled, Next;
    if events != [] {
      StepKeepsInv(s, events[0]);
      RunKeepsInv(Next(s, events[0]), events[1..]);
    }
  }

  // ----- what follows for every run -----

  /** After every single store, each level is sorted and holds only nodes of the levels below. */
  lemma LevelsStaySortedAndNested(s: State, events: seq<Event>)
    requires Init(s) && CanRun(s, events)
    ensures ListOk(After(s, events).mem, After(s, events).maxHeight, After(s, events).lists)
  {
    hide CanRun, After;
    InitInv(s);
    RunKeepsInv(s, events);
  }

  /** No finished search skipped a node that was there when it began: a forward search never ends past
      one at or behind its target, a backward search never before one ahead of it. */
  lemma SearchesSkipNothing(s: State, events: seq<Event>, id: nat)
    requires Init(s) && CanRun(s, events)
    requires id in After(s, events).readers && After(s, events).readers[id].progress.Done?
    ensures
      var t := After(s, events);
      var r := t.readers[id];
      && |t.lists| == MAX_HEIGHT && Within(r.start, t.lists[0])
      && RightAnswer(t.mem, t.lists[0], r, r.progress.result)
  {
    hide CanRun, After;
    InitInv(s);
    RunKeepsInv(s, events);
    assert ReaderOk(After(s, events).mem, After(s, events).lists, After(s, events).readers[id]);
  }

  /** A search in progress can always take its next load: it never meets a missing link. */
  lemma SearchesNeverGetStuck(s: State, events: seq<Event>, id: nat)
    requires Init(s) && CanRun(s, events)
    requires id in After(s, events).readers && After(s, events).readers[id].progress.At?
    ensures Enabled(After(s, events), Load(id))
  {
    hide CanRun, After;
    InitInv(s);
    RunKeepsInv(s, events);
    var t := After(s, events);
    ReturnIsExact(t.mem, t.maxHeight, t.lists, t.readers[id]);
  }
}
