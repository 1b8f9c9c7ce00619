/**
 The iterator as a whole: any sequence of moves, with direction reversals anywhere, agrees with a
 cursor over the map of visible keys, and that map is what reads at the same sequence number see.
 */
module DbCursor {
  import opened ByteStrings
  import opened Versions
  import opened DbIter

  datatype Move = ToFirst | ToLast | To(target: UserKey) | Forth | Back

  /** What the user sees: a key and its value, or that the iterator is not valid. */
  datatype View = Nowhere | At(key: UserKey, value: Bytes)

  /** Which keys a move may end on, seen from the current key; `Forth` and `Back` need one. */
  predicate Candidate(view: View, move: Move, k: UserKey) {
    match move
    case ToFirst => true
    case ToLast => true
    case To(target) => target <= k
    case Forth => view.At? && view.key < k
    case Back => view.At? && k < view.key
  }

  predicate Prefers(move: Move, a: UserKey, b: UserKey) {
    if move.ToLast? || move.Back? then b <= a else a <= b
  }

  /** One move of the cursor: to the nearest candidate of the map, or nowhere when there is none. */
  ghost predicate Moves(items: seq<Item>, sequence: nat, view: View, move: Move, view': View) {
    match view'
    case Nowhere => forall k :: HasVisible(items, sequence, k) ==> !Candidate(view, move, k)
    case At(key, value) =>
      && Maps(items, sequence, key, value) && Candidate(view, move, key)
      && forall k :: HasVisible(items, sequence, k) && Candidate(view, move, k) ==> Prefers(move, key, k)
  }

  function Last(view: View, views: seq<View>): View {
    if views == [] then view else views[|views| - 1]
  }

  ghost predicate Follows(items: seq<Item>, sequence: nat, view: View, moves: seq<Move>, views: seq<View>)
    decreases |moves|
  {
    && |views| == |moves|
    && (moves != [] ==>
          var n := |moves| - 1;
          && Follows(items, sequence, view, moves[..n], views[..n])
          && Moves(items, sequence, Last(view, views[..n]), moves[n], views[n]))
  }

  /** `Follows` opened once, at the last move. */
  lemma FollowsOpen(items: seq<Item>, sequence: nat, view: View, moves: seq<Move>, views: seq<View>)
    ensures Follows(items, sequence, view, moves, views) <==>
            && |views| == |moves|
            && (moves != [] ==>
                  var n := |moves| - 1;
                  && Follows(items, sequence, view, moves[..n], views[..n])
                  && Moves(items, sequence, Last(view, views[..n]), moves[n], views[n]))
  {
    hide Moves, Last;
  }

  /** The cursor is deterministic, so `Follows` says exactly what is seen after every move. */
  lemma {:induction false} FollowsIsUnique(
    items: seq<Item>, sequence: nat, view: View, moves: seq<Move>, a: seq<View>, b: seq<View>)
    requires Follows(items, sequence, view, moves, a) && Follows(items, sequence, view, moves, b)
    ensures a == b
    decreases |moves|
  {
    hide Moves, Follows, Last;
    FollowsOpen(items, sequence, view, moves, a);
    FollowsOpen(items, sequence, view, moves, b);
    if moves == [] {
      assert a == [] == b;
    } else {
      var n := |moves| - 1;
      FollowsIsUnique(items, sequence, view, moves[..n], a[..n], b[..n]);
      MoveIsUnique(items, sequence, Last(view, a[..n]), moves[n], a[n], b[n]);
      assert a == a[..n] + [a[n]] && b == b[..n] + [b[n]];
    }
  }

  lemma MoveIsUnique(items: seq<Item>, sequence: nat, view: View, move: Move, a: View, b: View)
    requires Moves(items, sequence, view, move, a) && Moves(items, sequence, view, move, b)
    ensures a == b
  {
    if a.At? {
      assert HasVisible(items, sequence, a.key);
    }
    if b.At? {
      assert HasVisible(items, sequence, b.key);
    }
    if a.At? && b.At? {
      assert a.key == b.key;
      MapIsFunctional(items, sequence, a.key, a.value, b.value);
    }
  }

  /** Drives the iterator through any sequence of moves.  `Next` and `Prev` must not be called on an
      iterator that is not valid; such moves are left out and the view stays empty. */
  method Drive(items: seq<Item>, sequence: nat, moves: seq<Move>) returns (views: seq<View>)
    requires Sorted(items)
    ensures Follows(items, sequence, Nowhere, moves, views)
  {
    hide Moves, Follows;
    FollowsOpen(items, sequence, Nowhere, [], []);
    assert moves[..0] == [];
    var iter := new Iterator(items, sequence);
    views := [];
    var view := Nowhere;
    for i := 0 to |moves|
      invariant iter.Inv() && fresh(iter) && iter.items == items && iter.sequence == sequence
      invariant |views| == i && Follows(items, sequence, Nowhere, moves[..i], views)
      invariant view == Last(Nowhere, views)
      invariant view == if iter.valid then At(iter.Key(), iter.Value()) else Nowhere
    {
      var view' := Step(iter, moves[i], view);
      assert moves[..i + 1][..i] == moves[..i] && (views + [view'])[..i] == views;
      FollowsOpen(items, sequence, Nowhere, moves[..i + 1], views + [view']);
      views := views + [view'];
      view := view';
    }
    assert moves[..|moves|] == moves;
  }

  method Step(iter: Iterator, move: Move, ghost view: View) returns (view': View)
    requires iter.Inv() && view == if iter.valid then At(iter.Key(), iter.Value()) else Nowhere
    modifies iter
    ensures iter.Inv() && view' == if iter.valid then At(iter.Key(), iter.Value()) else Nowhere
    ensures Moves(iter.items, iter.sequence, view, move, view')
  {
    match move {
      case ToFirst => iter.SeekToFirst();
      case ToLast => iter.SeekToLast();
      case To(target) => iter.Seek(target);
      case Forth => if iter.valid { iter.Next(); }
      case Back => if iter.valid { iter.Prev(); }
    }
    view' := if iter.valid then At(iter.Key(), iter.Value()) else Nowhere;
  }

  /** A scan of everything: the status at its end is Corruption exactly when some entry does not parse, whatever
      became of the keys around it. */
  method ScanAll(items: seq<Item>, sequence: nat) returns (keys: seq<UserKey>, corrupt: bool)
    requires Sorted(items)
    ensures corrupt <==> exists i :: 0 <= i < |items| && items[i].tag > TYPE_VALUE
    ensures forall i, j :: 0 <= i < j < |keys| ==> keys[i] < keys[j]
    ensures forall k :: k in keys <==> HasVisible(items, sequence, k)
  {
    hide CorruptIn, Maps;
    var iter := new Iterator(items, sequence);
    keys := [];
    iter.SeekToFirst();
    while iter.valid
      invariant iter.Inv() && fresh(iter) && iter.items == items && iter.sequence == sequence && iter.direction == Forward
      invariant !iter.valid ==> iter.pos == |items|
      invariant iter.corrupt <==> CorruptIn(items, 0, iter.pos)
      invariant iter.valid ==> Maps(items, sequence, iter.Key(), iter.Value())
      invariant forall i, j :: 0 <= i < j < |keys| ==> keys[i] < keys[j]
      invariant forall k :: k in keys ==> HasVisible(items, sequence, k) && (iter.valid ==> k < iter.Key())
      invariant forall k :: HasVisible(items, sequence, k) && k !in keys ==> iter.valid && iter.Key() <= k
      decreases |items| - iter.pos
    {
      ghost var at := iter.pos;
      VisibleKey(items, sequence, iter.Key(), iter.Value());
      assert forall i :: 0 <= i < |keys| ==> keys[i] in keys;
      keys := keys + [iter.Key()];
      iter.Next();
      CorruptBetween(items, 0, at, iter.pos);
    }
    corrupt := iter.corrupt;
    CorruptMeans(items);
  }

  lemma VisibleKey(items: seq<Item>, sequence: nat, key: UserKey, value: Bytes)
    requires Maps(items, sequence, key, value)
    ensures HasVisible(items, sequence, key)
  {
  }

  lemma CorruptMeans(items: seq<Item>)
    ensures CorruptIn(items, 0, |items|) <==> exists i :: 0 <= i < |items| && items[i].tag > TYPE_VALUE
  {
  }

  // ----- what is visible is what reads see -----

  /** The internal entries are those of a run, in internal key order. */
  ghost predicate ListsRun(items: seq<Item>, run: Run) {
    && Sorted(items)
    && (forall i :: 0 <= i < |items| ==>
          items[i].tag <= TYPE_VALUE && items[i].seqno in run && items[i] == ItemOf(items[i].seqno, run[items[i].seqno]))
    && (forall q :: q in run ==> ItemOf(q, run[q]) in items)
  }

  function ItemOf(q: nat, w: Write): Item {
    if w.value.Some? then Item(w.key, q, TYPE_VALUE, w.value.value) else Item(w.key, q, TYPE_DELETION, [])
  }

  lemma ShownIsLookup(items: seq<Item>, run: Run, sequence: nat, i: nat)
    requires ListsRun(items, run) && Shown(items, sequence, i)
    ensures Lookup(run, items[i].key, sequence) == Some(Write(items[i].key, Some(items[i].value)))
  {
    var q := items[i].seqno;
    forall p | p in run && p <= sequence && run[p].key == items[i].key
      ensures p <= q
    {
      assert ItemOf(p, run[p]) in items;
      var j :| 0 <= j < |items| && items[j] == ItemOf(p, run[p]);
      assert Admissible(items[j], sequence);
      if i < j {
        assert Before(items[i], items[j]);
      }
    }
    LookupGives(run, items[i].key, sequence, q);
  }

  /** Iterating at a sequence number shows exactly the keys and values that reading there returns. */
  lemma IterationAgreesWithReads(items: seq<Item>, run: Run, sequence: nat, key: UserKey, value: Bytes)
    requires ListsRun(items, run)
    ensures Maps(items, sequence, key, value) <==> ValueOf(Lookup(run, key, sequence)) == Some(value)
  {
    hide Lookup;
    if Maps(items, sequence, key, value) {
      var i :| Shown(items, sequence, i) && items[i].key == key && items[i].value == value;
      ShownIsLookup(items, run, sequence, i);
    }
    if ValueOf(Lookup(run, key, sequence)) == Some(value) {
      LookupIsNewest(run, key, sequence);
      var q :| q in run && q <= sequence && run[q].key == key && Lookup(run, key, sequence) == Some(run[q]) &&
               forall p :: p in run && p <= sequence && run[p].key == key ==> p <= q;
      var i := LookupIsShown(items, run, sequence, q);
    }
  }

  lemma LookupIsShown(items: seq<Item>, run: Run, sequence: nat, q: nat) returns (i: nat)
    requires ListsRun(items, run)
    requires q in run && q <= sequence && run[q].value.Some?
    requires forall p :: p in run && p <= sequence && run[p].key == run[q].key ==> p <= q
    ensures Shown(items, sequence, i) && items[i] == ItemOf(q, run[q])
  {
    assert ItemOf(q, run[q]) in items;
    i :| 0 <= i < |items| && items[i] == ItemOf(q, run[q]);
    forall j | 0 <= j < i && Admissible(items[j], sequence)
      ensures items[j].key != run[q].key
    {
      assert Before(items[j], items[i]);
      assert items[j] == ItemOf(items[j].seqno, run[items[j].seqno]);
    }
  }
}
