/**
 What searches and insertions achieve: a search sees every node that was there when it was begun and comes to an
 end by its own loads, and an insertion, carried out by its own stores, adds exactly its node.
 */
module SkipListProgress {
  import opened SkipLists
  import opened SkipListRuns

  lemma Then(s: State, e: Event, rest: seq<Event>)
    requires Enabled(s, e) && CanRun(Next(s, e), rest)
    ensures CanRun(s, [e] + rest) && After(s, [e] + rest) == After(Next(s, e), rest)
  {
    hide Enabled, Next;
    assert ([e] + rest)[1..] == rest;
  }

  // ----- what a search sees -----

  /** A search begun somewhere in a run and finished somewhere later answers for every node that was on the
      bottom level at its beginning, however many nodes joined meanwhile. */
  lemma SearchSeesWhatWasThere(s: State, before: seq<Event>, id: nat, search: Search, later: seq<Event>)
    requires Init(s) && CanRun(s, before)
    requires
      var u := After(s, before);
      Enabled(u, BeginSearch(id, search)) && CanRun(Next(u, BeginSearch(id, search)), later)
    ensures
      var u := After(s, before);
      var t := After(Next(u, BeginSearch(id, search)), later);
      && id in t.readers && |u.lists| == |t.lists| == MAX_HEIGHT
      && (forall n :: n in u.lists[0] ==> n in u.mem && n in t.mem && t.mem[n].key == u.mem[n].key)
      && var p := t.readers[id].progress;
      p.Done? ==> RightAnswer(t.mem, t.lists[0], Reader(search, p, u.lists[0]), p.result)
  {
    hide CanRun, After, Enabled;
    InitInv(s);
    RunKeepsInv(s, before);
    var u := After(s, before);
    var v := Next(u, BeginSearch(id, search));
    BeginSearchKeepsInv(u, id, search);
    StaysBegun(v, id, later);
    RunKeepsInv(v, later);
    assert ReaderOk(v.mem, v.lists, v.readers[id]);
    var t := After(v, later);
    assert ReaderOk(t.mem, t.lists, t.readers[id]);
  }

  lemma {:induction false} StaysBegun(s: State, id: nat, events: seq<Event>)
    requires Inv(s) && CanRun(s, events) && id in s.readers
    ensures
      var t := After(s, events);
      && id in t.readers && t.readers[id].search == s.readers[id].search && t.readers[id].start == s.readers[id].start
      && forall n :: n in s.mem ==> n in t.mem && t.mem[n].key == s.mem[n].key
    decreases |events|
  {
    hide Inv, Enabled, Next;
    if events != [] {
      var t := Next(s, events[0]);
      StepKeepsInv(s, events[0]);
      StepKeepsReader(s, events[0], id);
      StaysBegun(t, id, events[1..]);
    }
  }

  lemma StepKeepsReader(s: State, e: Event, id: nat)
    requires Inv(s) && Enabled(s, e) && id in s.readers
    ensures
      var t := Next(s, e);
      && id in t.readers && t.readers[id].search == s.readers[id].search && t.readers[id].start == s.readers[id].start
      && forall n :: n in s.mem ==> n in t.mem && t.mem[n].key == s.mem[n].key
  {
    hide Inv, ReaderOk, WriterOk, ListOk;
    if e.Store? {
      StoreKeepsList(s, e.garbage);
      assert Next(s, e).readers == s.readers;
    }
  }

  // ----- searches end -----

  /** A search comes to its end by its own loads alone. */
  lemma SearchFinishes(s: State, id: nat) returns (events: seq<Event>)
    requires Inv(s) && id in s.readers
    ensures CanRun(s, events) && (forall i :: 0 <= i < |events| ==> events[i] == Load(id))
    ensures
      var t := After(s, events);
      id in t.readers && t.readers[id].progress.Done? && t.readers[id].search == s.readers[id].search && t.lists == s.lists
  {
    var r := s.readers[id];
    if r.progress.Done? {
      events := [];
    } else {
      assert ReaderOk(s.mem, s.lists, r);
      var a := PlaceOf(s.lists[r.progress.level], r.progress.x);
      events := SearchGoesOn(s, id, a);
    }
  }

  lemma {:induction false} SearchGoesOn(s: State, id: nat, a: nat) returns (events: seq<Event>)
    requires Inv(s) && id in s.readers && s.readers[id].progress.At? && s.readers[id].progress.level < MAX_HEIGHT
    requires
      var At(x, level) := s.readers[id].progress;
      a <= |s.lists[level]| && Place(s.lists[level], a) == x
    ensures CanRun(s, events) && (forall i :: 0 <= i < |events| ==> events[i] == Load(id))
    ensures
      var t := After(s, events);
      id in t.readers && t.readers[id].progress.Done? && t.readers[id].search == s.readers[id].search && t.lists == s.lists
    decreases s.readers[id].progress.level, |s.lists[s.readers[id].progress.level]| - a
  {
    var r := s.readers[id];
    var At(x, level) := r.progress;
    assert ReaderOk(s.mem, s.lists, r);
    assert LevelOk(s.mem, s.lists[level], level);
    hide ReaderOk, ListOk, LevelOk, WriterOk;
    LoadIsExact(r.search, s.mem, s.lists[level], level, x, a);
    var t := Next(s, Load(id));
    StepKeepsInv(s, Load(id));
    assert t.lists == s.lists && t.readers[id] == Loaded(s.mem, r);
    var rest: seq<Event> := [];
    if MovesOn(r.search, s.mem, Successor(s.lists[level], a)) {
      rest := SearchGoesOn(t, id, a + 1);
    } else if level > 0 {
      assert Within(s.lists[level], s.lists[level - 1]) by { LevelsNest(s, level); }
      var b := PlaceOf(s.lists[level - 1], x);
      rest := SearchGoesOn(t, id, b);
    }
    Then(s, Load(id), rest);
    events := [Load(id)] + rest;
  }

  lemma LevelsNest(s: State, level: nat)
    requires Inv(s) && 0 < level < MAX_HEIGHT
    ensures Within(s.lists[level], s.lists[level - 1])
  {
    hide LevelOk, Within;
  }

  // ----- insertions take effect -----

  /** The lowest level that the insertion has not published its node on. */
  function Low(w: Writer): nat {
    match w.phase
    case Raising => 0
    case Allocating => 0
    case Linking(l) => l
    case Publishing(l) => l
  }

  function StoresLeft(w: Writer): int {
    match w.phase
    case Raising => 2 * w.height + 2
    case Allocating => 2 * w.height + 1
    case Linking(l) => 2 * (w.height - l)
    case Publishing(l) => 2 * (w.height - l) - 1
  }

  /** Levels `from` up to the node's height gain exactly the node, and no other level or key changes. */
  ghost predicate Gains(s: State, t: State, w: Writer, from: nat) {
    && |s.lists| == |t.lists| == MAX_HEIGHT
    && (forall l, n :: 0 <= l < MAX_HEIGHT ==>
          (n in t.lists[l] <==> n in s.lists[l] || (n == w.x && from <= l < w.height)))
    && w.x in t.mem && t.mem[w.x].key == w.key && t.mem.Keys == s.mem.Keys + {w.x}
    && (forall n :: n in s.mem ==> t.mem[n].key == s.mem[n].key)
  }

  /** An insertion that finds its place is carried out by its own stores: the levels up to its height gain its
      node, and nothing else changes. */
  lemma InsertTakesEffect(s: State, w: Writer) returns (events: seq<Event>)
    requires Inv(s) && Enabled(s, BeginInsert(w))
    ensures CanRun(s, events)
    ensures
      var t := After(s, events);
      Inv(t) && t.writer == [] && t.readers == s.readers && Gains(s, t, w, 0)
  {
    var t := Next(s, BeginInsert(w));
    StepKeepsInv(s, BeginInsert(w));
    hide Inv, Enabled;
    var rest := InsertGoesOn(t);
    Then(s, BeginInsert(w), rest);
    events := [BeginInsert(w)] + rest;
  }

  lemma {:induction false} InsertGoesOn(s: State) returns (events: seq<Event>)
    requires Inv(s) && |s.writer| == 1
    ensures CanRun(s, events)
    ensures
      var t := After(s, events);
      Inv(t) && t.writer == [] && t.readers == s.readers && Gains(s, t, s.writer[0], Low(s.writer[0]))
    decreases StoresLeft(s.writer[0])
  {
    var w := s.writer[0];
    var e := Store(seq(w.height, _ => NULL));
    StoreIsEnabled(s, e.garbage);
    var t := Next(s, e);
    StepKeepsInv(s, e);
    StoreGains(s, e.garbage);
    hide Inv, Enabled, Next, Stored, CanStore, Gains;
    var rest: seq<Event> := [];
    assert OneStore(s, t, w);
    if t.writer != [] {
      rest := InsertGoesOn(t);
      StepThenGains(s, t, After(t, rest), w);
    } else {
      LastStepGains(s, t, w);
    }
    Then(s, e, rest);
    events := [e] + rest;
  }

  lemma StoreIsEnabled(s: State, garbage: seq<Address>)
    requires Inv(s) && |s.writer| == 1 && |garbage| == s.writer[0].height
    ensures CanStore(s, garbage) && Low(s.writer[0]) < s.writer[0].height && StoresLeft(s.writer[0]) > 0
  {
    hide ListOk, ReaderOk, LevelOk;
    var w := s.writer[0];
    if w.phase.Linking? || w.phase.Publishing? {
      var l := Low(w);
      assert FoundPlace(s.mem, s.lists[l], w.prev[l], w.places[l], w.key);
      PlaceHasLink(s.mem, s.maxHeight, s.lists, l, w.places[l]);
    }
  }

  /** What one store gains. */
  ghost predicate OneStore(s: State, t: State, w: Writer) {
    && t.readers == s.readers && |t.writer| <= 1 && |s.lists| == |t.lists| == MAX_HEIGHT
    && (if w.phase.Publishing? then
          && t.writer == (if w.phase.level + 1 < w.height then [w.(phase := Linking(w.phase.level + 1))] else [])
          && (forall l, n :: 0 <= l < MAX_HEIGHT ==>
                (n in t.lists[l] <==> n in s.lists[l] || (n == w.x && l == w.phase.level)))
        else
          && t.lists == s.lists && |t.writer| == 1 && t.writer[0] == w.(phase := t.writer[0].phase)
          && Low(t.writer[0]) == Low(w) && StoresLeft(t.writer[0]) == StoresLeft(w) - 1)
    && (w.phase.Raising? ==> t.mem == s.mem)
    && (!w.phase.Raising? ==> w.x in t.mem && t.mem[w.x].key == w.key && t.mem.Keys == s.mem.Keys + {w.x})
    && (forall n :: n in s.mem ==> n in t.mem && t.mem[n].key == s.mem[n].key)
  }

  lemma StepThenGains(s: State, t: State, u: State, w: Writer)
    requires OneStore(s, t, w) && t.writer != [] && Low(w) < w.height
    requires Gains(t, u, t.writer[0], Low(t.writer[0]))
    ensures Gains(s, u, w, Low(w))
  {
  }

  lemma LastStepGains(s: State, t: State, w: Writer)
    requires OneStore(s, t, w) && t.writer == [] && Low(w) < w.height
    ensures Gains(s, t, w, Low(w))
  {
  }

  lemma StoreGains(s: State, garbage: seq<Address>)
    requires Inv(s) && CanStore(s, garbage)
    ensures OneStore(s, Stored(s, garbage), s.writer[0])
  {
    hide ListOk, ReaderOk, LevelOk, FoundPlace;
    var w := s.writer[0];
    if w.phase.Publishing? {
      InsertedMembers(s.lists[w.phase.level], w.places[w.phase.level], w.x);
    }
  }
}
