/**
 The skip list behind the memtable.  Nodes live in a memory that maps addresses to a key and an array
 of links; every update of the list is a single store into that memory.
 */
module SkipLists {

  type Key = real              // a key's place in the comparator's order
  type Address = nat
  const NULL: Address := 0
  const HEAD: Address := 1
  const MAX_HEIGHT := 12

  datatype Node = Node(key: Key, next: seq<Address>)
  type Memory = map<Address, Node>

  // ----- one level -----

  /** Place 0 is the head, place `a` the `a`-th node. */
  function Place(list: seq<Address>, a: nat): Address
    requires a <= |list|
  {
    if a == 0 then HEAD else list[a - 1]
  }

  function Successor(list: seq<Address>, a: nat): Address
    requires a <= |list|
  {
    if a < |list| then list[a] else NULL
  }

  predicate HasLink(mem: Memory, n: Address, level: nat) {
    n in mem && level < |mem[n].next|
  }

  predicate IsNode(mem: Memory, n: Address, level: nat) {
    n != NULL && n != HEAD && HasLink(mem, n, level)
  }

  ghost predicate Sorted(mem: Memory, list: seq<Address>)
    requires forall a :: 0 <= a < |list| ==> list[a] in mem
  {
    forall a, b :: 0 <= a < b < |list| ==> mem[list[a]].key < mem[list[b]].key
  }

  /** The links of `level`, followed from the head, run through exactly `list`, which is sorted. */
  ghost predicate LevelOk(mem: Memory, list: seq<Address>, level: nat) {
    && HasLink(mem, HEAD, level)
    && (forall a :: 0 <= a < |list| ==> IsNode(mem, list[a], level))
    && Sorted(mem, list)
    && (forall a: nat {:trigger Place(list, a)} :: a <= |list| ==>
          mem[Place(list, a)].next[level] == Successor(list, a))
  }

  /** All levels, each holding only nodes of the level below. */
  ghost predicate ListOk(mem: Memory, maxHeight: nat, lists: seq<seq<Address>>) {
    && |lists| == MAX_HEIGHT && 1 <= maxHeight <= MAX_HEIGHT
    && (forall l :: 0 <= l < MAX_HEIGHT ==> LevelOk(mem, lists[l], l))
    && (forall l :: maxHeight <= l < MAX_HEIGHT ==> lists[l] == [])
    && (forall l, m :: 0 <= l < m < MAX_HEIGHT ==> Within(lists[m], lists[l]))
  }

  ghost predicate Within(upper: seq<Address>, lower: seq<Address>) {
    forall n :: n in upper ==> n in lower
  }

  /** `a` is where `key` belongs in the level: the nodes before are smaller, those behind larger. */
  ghost predicate Fits(mem: Memory, list: seq<Address>, a: nat, key: Key) {
    && a <= |list| && (forall i :: 0 <= i < |list| ==> list[i] in mem)
    && (forall i :: 0 <= i < a ==> mem[list[i]].key < key)
    && (forall i :: a <= i < |list| ==> key < mem[list[i]].key)
  }

  function InsertAt(list: seq<Address>, a: nat, x: Address): seq<Address>
    requires a <= |list|
  {
    list[..a] + [x] + list[a..]
  }

  // ----- the single stores -----

  function SetNext(mem: Memory, n: Address, level: nat, v: Address): Memory
    requires HasLink(mem, n, level)
  {
    mem[n := mem[n].(next := mem[n].next[level := v])]
  }

  lemma StoreElsewhere(mem: Memory, n: Address, level: nat, v: Address, list: seq<Address>, m: nat)
    requires HasLink(mem, n, level) && LevelOk(mem, list, m)
    requires level != m || (n != HEAD && n !in list)
    ensures LevelOk(SetNext(mem, n, level, v), list, m)
  {
    var mem' := SetNext(mem, n, level, v);
    forall a: nat | a <= |list|
      ensures mem'[Place(list, a)].next[m] == Successor(list, a)
    {
      assert mem[Place(list, a)].next[m] == Successor(list, a);
    }
  }

  /** Publishing a node: one store into its predecessor's link. */
  lemma StoreIntoPredecessor(mem: Memory, list: seq<Address>, level: nat, a: nat, x: Address)
    requires LevelOk(mem, list, level) && IsNode(mem, x, level) && x !in list
    requires Fits(mem, list, a, mem[x].key) && mem[x].next[level] == Successor(list, a)
    ensures HasLink(mem, Place(list, a), level)
    ensures LevelOk(SetNext(mem, Place(list, a), level, x), InsertAt(list, a, x), level)
  {
    hide InsertAt, SetNext, Sorted, Successor;
    PublishedLink(mem, list, level, a, x, 0);
    var mem' := SetNext(mem, Place(list, a), level, x);
    var list' := InsertAt(list, a, x);
    InsertedNodes(mem, list, a, x, Place(list, a), level);
    forall b: nat | b <= |list'|
      ensures mem'[Place(list', b)].next[level] == Successor(list', b)
    {
      InsertedLength(list, a, x);
      PublishedLink(mem, list, level, a, x, b);
    }
    InsertedSorted(mem, list, a, x);
    SortedByKeys(mem, mem', list');
  }

  lemma InsertedLength(list: seq<Address>, a: nat, x: Address)
    requires a <= |list|
    ensures |InsertAt(list, a, x)| == |list| + 1
  {
  }

  /** A store of a link leaves all nodes in place. */
  lemma InsertedNodes(mem: Memory, list: seq<Address>, a: nat, x: Address, p: Address, level: nat)
    requires a <= |list| && HasLink(mem, p, level) && HasLink(mem, HEAD, level) && IsNode(mem, x, level)
    requires forall i :: 0 <= i < |list| ==> IsNode(mem, list[i], level)
    ensures
      var mem', list' := SetNext(mem, p, level, x), InsertAt(list, a, x);
      && HasLink(mem', HEAD, level)
      && (forall i :: 0 <= i < |list'| ==> IsNode(mem', list'[i], level))
      && (forall n :: n in mem ==> n in mem' && mem'[n].key == mem[n].key)
  {
  }

  lemma SortedByKeys(mem: Memory, mem': Memory, list: seq<Address>)
    requires forall i :: 0 <= i < |list| ==> list[i] in mem
    requires forall n :: n in mem ==> n in mem' && mem'[n].key == mem[n].key
    requires Sorted(mem, list)
    ensures Sorted(mem', list)
  {
  }

  lemma InsertedSorted(mem: Memory, list: seq<Address>, a: nat, x: Address)
    requires forall i :: 0 <= i < |list| ==> list[i] in mem
    requires Sorted(mem, list) && x in mem && Fits(mem, list, a, mem[x].key)
    ensures forall i :: 0 <= i < |InsertAt(list, a, x)| ==> InsertAt(list, a, x)[i] in mem
    ensures Sorted(mem, InsertAt(list, a, x))
  {
    var list' := InsertAt(list, a, x);
    assert forall i :: 0 <= i < |list'| ==> list'[i] in mem by { hide Sorted; }
    forall b, c | 0 <= b < c < |list'|
      ensures mem[list'[b]].key < mem[list'[c]].key
    {
      InsertedPair(mem, list, a, x, b, c);
    }
  }

  lemma InsertedPair(mem: Memory, list: seq<Address>, a: nat, x: Address, b: nat, c: nat)
    requires forall i :: 0 <= i < |list| ==> list[i] in mem
    requires Sorted(mem, list) && x in mem && Fits(mem, list, a, mem[x].key)
    requires b < c < |InsertAt(list, a, x)|
    ensures
      var list' := InsertAt(list, a, x);
      && list'[b] in mem && list'[c] in mem && mem[list'[b]].key < mem[list'[c]].key
  {
    if c < a {
      assert mem[list[b]].key < mem[list[c]].key;
    } else if c == a {
      assert mem[list[b]].key < mem[x].key;
    } else if b == a {
      assert mem[x].key < mem[list[c - 1]].key;
    } else if b < a {
      assert mem[list[b]].key < mem[list[c - 1]].key;
    } else {
      assert mem[list[b - 1]].key < mem[list[c - 1]].key;
    }
  }

  lemma PublishedLink(mem: Memory, list: seq<Address>, level: nat, a: nat, x: Address, b: nat)
    requires LevelOk(mem, list, level) && IsNode(mem, x, level) && x !in list
    requires a <= |list| && mem[x].next[level] == Successor(list, a)
    requires b <= |list| + 1
    ensures HasLink(mem, Place(list, a), level)
    ensures SetNext(mem, Place(list, a), level, x)[Place(InsertAt(list, a, x), b)].next[level] == Successor(InsertAt(list, a, x), b)
  {
    var list' := InsertAt(list, a, x);
    assert mem[Place(list, a)].next[level] == Successor(list, a);
    if b <= a {
      assert Place(list', b) == Place(list, b);
      assert mem[Place(list, b)].next[level] == Successor(list, b);
      if b < a {
        PlacesDiffer(mem, list, level, b, a);
        assert Successor(list', b) == Successor(list, b);
      }
    } else if b == a + 1 {
      assert Place(list', b) == x && Successor(list', b) == Successor(list, a);
    } else {
      assert Place(list', b) == Place(list, b - 1) && Successor(list', b) == Successor(list, b - 1);
      assert mem[Place(list, b - 1)].next[level] == Successor(list, b - 1);
      PlacesDiffer(mem, list, level, a, b - 1);
    }
  }

  lemma PlacesDiffer(mem: Memory, list: seq<Address>, level: nat, a: nat, b: nat)
    requires LevelOk(mem, list, level) && a < b <= |list|
    ensures Place(list, a) != Place(list, b)
  {
    if a > 0 {
      assert mem[list[a - 1]].key < mem[list[b - 1]].key;
    }
  }

  /** Initialising a link of a node that the level does not hold yet. */
  lemma LinkKeepsList(mem: Memory, maxHeight: nat, lists: seq<seq<Address>>, x: Address, level: nat, v: Address)
    requires ListOk(mem, maxHeight, lists) && HasLink(mem, x, level) && level < MAX_HEIGHT
    requires x != HEAD && x !in lists[level]
    ensures ListOk(SetNext(mem, x, level, v), maxHeight, lists)
  {
    hide LevelOk, Within;
    forall l | 0 <= l < MAX_HEIGHT
      ensures LevelOk(SetNext(mem, x, level, v), lists[l], l)
    {
      StoreElsewhere(mem, x, level, v, lists[l], l);
    }
  }

  /** Publishing a node on a level, the levels below already holding it. */
  lemma PublishKeepsList(mem: Memory, maxHeight: nat, lists: seq<seq<Address>>, level: nat, a: nat, x: Address)
    requires ListOk(mem, maxHeight, lists) && level < maxHeight
    requires IsNode(mem, x, level) && x !in lists[level] && forall l :: 0 <= l < level ==> x in lists[l]
    requires Fits(mem, lists[level], a, mem[x].key) && mem[x].next[level] == Successor(lists[level], a)
    ensures HasLink(mem, Place(lists[level], a), level)
    ensures ListOk(SetNext(mem, Place(lists[level], a), level, x), maxHeight,
                   lists[level := InsertAt(lists[level], a, x)])
  {
    hide LevelOk;
    StoreIntoPredecessor(mem, lists[level], level, a, x);
    var lists' := lists[level := InsertAt(lists[level], a, x)];
    forall l | 0 <= l < MAX_HEIGHT
      ensures LevelOk(SetNext(mem, Place(lists[level], a), level, x), lists'[l], l)
    {
      if l != level {
        StoreElsewhere(mem, Place(lists[level], a), level, x, lists[l], l);
      }
    }
    InsertedMembers(lists[level], a, x);
    forall l, m | 0 <= l < m < MAX_HEIGHT
      ensures Within(lists'[m], lists'[l])
    {
      assert Within(lists[m], lists[l]);
    }
  }

  lemma InsertedMembers(list: seq<Address>, a: nat, x: Address)
    requires a <= |list|
    ensures forall n :: n in InsertAt(list, a, x) <==> n in list || n == x
  {
    assert list == list[..a] + list[a..];
  }

  /** Allocating a node touches no level. */
  lemma AllocateKeepsList(mem: Memory, maxHeight: nat, lists: seq<seq<Address>>, x: Address, node: Node)
    requires ListOk(mem, maxHeight, lists) && x !in mem
    ensures ListOk(mem[x := node], maxHeight, lists)
    ensures forall l :: 0 <= l < MAX_HEIGHT ==> x !in lists[l]
  {
    forall l | 0 <= l < MAX_HEIGHT
      ensures LevelOk(mem[x := node], lists[l], l) && x !in lists[l]
    {
      var list := lists[l];
      assert LevelOk(mem, list, l);
      forall a: nat | a <= |list|
        ensures mem[x := node][Place(list, a)].next[l] == Successor(list, a)
      {
        assert mem[Place(list, a)].next[l] == Successor(list, a);
      }
    }
  }

  lemma FitsStays(mem: Memory, list: seq<Address>, a: nat, key: Key, n: Address, level: nat, v: Address)
    requires Fits(mem, list, a, key) && HasLink(mem, n, level)
    ensures Fits(SetNext(mem, n, level, v), list, a, key)
  {
  }

  // ----- searches -----

  /** The three searches differ in when they move on and in what they return. */
  datatype Search = GreaterOrEqual(target: Key) | LessThan(target: Key) | Last

  predicate Before(search: Search, key: Key) {
    search.Last? || key < search.target
  }

  predicate MovesOn(search: Search, mem: Memory, next: Address) {
    next != NULL && next in mem && Before(search, mem[next].key)
  }

  /** A search stands on the head or on a node of the level that lies before what it looks for. */
  ghost predicate StandsAt(search: Search, mem: Memory, list: seq<Address>, x: Address) {
    x == HEAD || (x in list && x in mem && Before(search, mem[x].key))
  }

  lemma PlaceOf(list: seq<Address>, x: Address) returns (a: nat)
    requires x == HEAD || x in list
    ensures a <= |list| && Place(list, a) == x
  {
    if x == HEAD {
      a := 0;
    } else {
      var i :| 0 <= i < |list| && list[i] == x;
      a := i + 1;
    }
  }

  /** Place `a` is the last one before what the search looks for. */
  ghost predicate Splits(search: Search, mem: Memory, list: seq<Address>, a: nat) {
    && a <= |list| && (forall i :: 0 <= i < |list| ==> list[i] in mem)
    && (forall i :: 0 <= i < a ==> Before(search, mem[list[i]].key))
    && (forall i :: a <= i < |list| ==> !Before(search, mem[list[i]].key))
  }

  /** What one load tells a search standing at place `a`: the next place of the level, and that the
      level splits here when the search does not move on. */
  lemma LoadIsExact(search: Search, mem: Memory, list: seq<Address>, level: nat, x: Address, a: nat)
    requires LevelOk(mem, list, level) && StandsAt(search, mem, list, x)
    requires a <= |list| && Place(list, a) == x
    ensures HasLink(mem, x, level) && mem[x].next[level] == Successor(list, a)
    ensures
      var next := Successor(list, a);
      if MovesOn(search, mem, next) then a < |list| && StandsAt(search, mem, list, next)
      else Splits(search, mem, list, a)
  {
    var next := Successor(list, a);
    if !MovesOn(search, mem, next) {
      forall i | 0 <= i < a
        ensures Before(search, mem[list[i]].key)
      {
        if i + 1 < a {
          assert mem[list[i]].key < mem[list[a - 1]].key;
        }
      }
      forall i | a <= i < |list|
        ensures !Before(search, mem[list[i]].key)
      {
        if a < i {
          assert mem[list[a]].key < mem[list[i]].key;
        }
      }
    }
  }

  /** What the places around the split are: the last node before and the first node not before. */
  ghost predicate Answers(search: Search, mem: Memory, list: seq<Address>, x: Address, next: Address) {
    && (x == HEAD || (x in list && x in mem && Before(search, mem[x].key)))
    && (next == NULL || (next in list && next in mem && !Before(search, mem[next].key)))
    && (forall n :: n in list && n in mem ==>
          if Before(search, mem[n].key) then x != HEAD && x in mem && mem[n].key <= mem[x].key
          else next != NULL && next in mem && mem[next].key <= mem[n].key)
  }

  lemma SplitAnswers(search: Search, mem: Memory, list: seq<Address>, level: nat, a: nat)
    requires LevelOk(mem, list, level) && Splits(search, mem, list, a)
    ensures Answers(search, mem, list, Place(list, a), Successor(list, a))
  {
    forall n | n in list
      ensures if Before(search, mem[n].key) then Place(list, a) != HEAD && mem[n].key <= mem[Place(list, a)].key
              else Successor(list, a) != NULL && mem[Successor(list, a)].key <= mem[n].key
    {
      var i :| 0 <= i < |list| && list[i] == n;
      if i + 1 < a {
        assert mem[list[i]].key < mem[list[a - 1]].key;
      } else if i > a {
        assert mem[list[a]].key < mem[list[i]].key;
      }
    }
  }

  // ----- the object -----

  class SkipList {
    var mem: Memory
    var maxHeight: nat
    ghost var lists: seq<seq<Address>>     // the nodes of each level, in order

    ghost predicate Valid()
      reads this
    {
      ListOk(mem, maxHeight, lists)
    }

    constructor ()
      ensures Valid() && lists[0] == []
    {
      mem := map[HEAD := Node(0.0, seq(MAX_HEIGHT, _ => NULL))];
      maxHeight := 1;
      lists := seq(MAX_HEIGHT, _ => []);
    }

    /** The search loop that `FindGreaterOrEqual`, `FindLessThan` and `FindLast` share.  The first
        returns `next`, the others `x`; `prev` holds the last node before the target on each level. */
    method Find(search: Search) returns (x: Address, next: Address, prev: seq<Address>, ghost places: seq<nat>)
      requires Valid()
      ensures Answers(search, mem, lists[0], x, next)
      ensures |prev| == |places| == maxHeight
      ensures forall l :: 0 <= l < maxHeight ==> places[l] <= |lists[l]| && prev[l] == Place(lists[l], places[l])
      ensures forall l :: 0 <= l < maxHeight ==> Splits(search, mem, lists[l], places[l])
    {
      hide LevelOk, Splits, Answers;
      x := HEAD;
      var level := maxHeight - 1;
      prev := seq(maxHeight, _ => HEAD);
      places := seq(maxHeight, _ => 0);
      ghost var a: nat := 0;
      while true
        invariant 0 <= level < maxHeight && |prev| == |places| == maxHeight
        invariant a <= |lists[level]| && Place(lists[level], a) == x
        invariant StandsAt(search, mem, lists[level], x)
        invariant forall l :: level < l < maxHeight ==>
                    && places[l] <= |lists[l]| && prev[l] == Place(lists[l], places[l])
                    && Splits(search, mem, lists[l], places[l])
        decreases level, |lists[level]| - a
      {
        LoadIsExact(search, mem, lists[level], level, x, a);
        next := mem[x].next[level];
        if MovesOn(search, mem, next) {
          x := next;
          a := a + 1;
        } else {
          prev := prev[level := x];
          places := places[level := a];
          if level == 0 {
            SplitAnswers(search, mem, lists[0], 0, a);
            return;
          }
          assert Within(lists[level], lists[level - 1]);
          level := level - 1;
          a := PlaceOf(lists[level], x);
        }
      }
    }

    method Contains(key: Key) returns (found: bool)
      requires Valid()
      ensures found <==> exists n :: n in lists[0] && n in mem && mem[n].key == key
    {
      var x, next, prev, places := Find(GreaterOrEqual(key));
      found := next != NULL && mem[next].key == key;
      if found {
        assert next in lists[0] && mem[next].key == key;
      }
    }

    /** Inserts a key that the list does not hold, as a node of the given height. */
    method Insert(key: Key, height: nat, x: Address)
      requires Valid() && 1 <= height <= MAX_HEIGHT && x !in mem && x != NULL && x != HEAD
      requires forall n :: n in lists[0] && n in mem ==> mem[n].key != key
      modifies this
      ensures Valid() && x in mem && mem[x].key == key
      ensures forall n :: n in old(mem) ==> n in mem && mem[n].key == old(mem)[n].key
      ensures exists a :: 0 <= a <= |old(lists)[0]| && lists[0] == InsertAt(old(lists)[0], a, x)
    {
      hide ListOk, Splits, Answers, Fits;
      var _, _, prev, places := Find(GreaterOrEqual(key));
      SplitsFit(mem, maxHeight, lists, places, key);
      if height > maxHeight {
        prev := prev + seq(height - maxHeight, _ => HEAD);
        places := places + seq(height - maxHeight, _ => 0);
        RaiseKeepsList(mem, maxHeight, lists, height, key);
        maxHeight := height;
      }
      AllocateKeepsList(mem, maxHeight, lists, x, Node(key, seq(height, _ => NULL)));
      AllocateKeepsFits(mem, maxHeight, lists, x, Node(key, seq(height, _ => NULL)), places, key);
      mem := mem[x := Node(key, seq(height, _ => NULL))];
      assert Inserted(mem, maxHeight, lists, prev, places, key, x, height, 0);
      hide Inserted;
      for i := 0 to height
        invariant |lists| == MAX_HEIGHT && Inserted(mem, maxHeight, lists, prev, places, key, x, height, i)
        invariant forall n :: n in old(mem) ==> n in mem && mem[n].key == old(mem)[n].key
        invariant i == 0 ==> lists[0] == old(lists)[0]
        invariant i > 0 ==> exists a :: 0 <= a <= |old(lists)[0]| && lists[0] == InsertAt(old(lists)[0], a, x)
      {
        LevelInserted(mem, maxHeight, lists, prev, places, key, x, height, i);
        mem := SetNext(mem, x, i, mem[prev[i]].next[i]);
        mem := SetNext(mem, prev[i], i, x);
        lists := lists[i := InsertAt(lists[i], places[i], x)];
      }
      AllInserted(mem, maxHeight, lists, prev, places, key, x, height);
    }
  }

  /** The node is in the levels below `i`, and its place is known in those from `i` on. */
  ghost predicate Inserted(
    mem: Memory, maxHeight: nat, lists: seq<seq<Address>>, prev: seq<Address>, places: seq<nat>, key: Key,
    x: Address, height: nat, i: nat)
  {
    && i <= height <= maxHeight && |lists| == MAX_HEIGHT && |prev| == |places| && height <= |places| && height <= MAX_HEIGHT
    && ListOk(mem, maxHeight, lists)
    && x != NULL && x != HEAD && x in mem && mem[x].key == key && |mem[x].next| == height
    && (forall l :: 0 <= l < i ==> x in lists[l])
    && (forall l :: i <= l < height ==>
          && x !in lists[l] && Fits(mem, lists[l], places[l], key)
          && places[l] <= |lists[l]| && prev[l] == Place(lists[l], places[l]))
  }

  /** The two stores that insert the node into level `i`. */
  lemma LevelInserted(
    mem: Memory, maxHeight: nat, lists: seq<seq<Address>>, prev: seq<Address>, places: seq<nat>, key: Key,
    x: Address, height: nat, i: nat)
    requires Inserted(mem, maxHeight, lists, prev, places, key, x, height, i) && i < height
    ensures |lists| == MAX_HEIGHT && i < |prev| && i < |places| && places[i] <= |lists[i]| && i < MAX_HEIGHT
    ensures HasLink(mem, prev[i], i) && HasLink(mem, x, i)
    ensures
      var linked := SetNext(mem, x, i, mem[prev[i]].next[i]);
      && HasLink(linked, prev[i], i)
      && var published := SetNext(linked, prev[i], i, x);
      && (forall n :: n in mem ==> n in published && published[n].key == mem[n].key)
      && Inserted(published, maxHeight, lists[i := InsertAt(lists[i], places[i], x)], prev, places, key, x, height, i + 1)
  {
    hide ListOk, Fits, InsertAt, Place;
    PlaceHasLink(mem, maxHeight, lists, i, places[i]);
    var next := mem[prev[i]].next[i];
    LinkKeepsList(mem, maxHeight, lists, x, i, next);
    StoreKeepsFits(mem, lists, places, key, x, i, next, i, height);
    var linked := SetNext(mem, x, i, next);
    PlaceIsOther(lists[i], places[i], x);
    PublishKeepsList(linked, maxHeight, lists, i, places[i], x);
    StoreKeepsFits(linked, lists, places, key, prev[i], i, x, i + 1, height);
    InsertedMembers(lists[i], places[i], x);
  }

  lemma PlaceIsOther(list: seq<Address>, a: nat, x: Address)
    requires a <= |list| && x !in list && x != HEAD
    ensures Place(list, a) != x
  {
  }

  lemma AllInserted(
    mem: Memory, maxHeight: nat, lists: seq<seq<Address>>, prev: seq<Address>, places: seq<nat>, key: Key,
    x: Address, height: nat)
    requires Inserted(mem, maxHeight, lists, prev, places, key, x, height, height)
    ensures ListOk(mem, maxHeight, lists) && x in mem && mem[x].key == key
  {
    hide ListOk;
  }

  lemma SplitsFit(mem: Memory, maxHeight: nat, lists: seq<seq<Address>>, places: seq<nat>, key: Key)
    requires ListOk(mem, maxHeight, lists) && |places| == maxHeight
    requires forall l :: 0 <= l < maxHeight ==> Splits(GreaterOrEqual(key), mem, lists[l], places[l])
    requires forall n :: n in lists[0] && n in mem ==> mem[n].key != key
    ensures |lists| == MAX_HEIGHT && 1 <= maxHeight <= MAX_HEIGHT
    ensures forall l :: 0 <= l < maxHeight ==> Fits(mem, lists[l], places[l], key)
    ensures forall l :: maxHeight <= l < MAX_HEIGHT ==> lists[l] == []
  {
    forall l | 0 <= l < maxHeight
      ensures Fits(mem, lists[l], places[l], key)
    {
      if l > 0 {
        assert Within(lists[l], lists[0]);
      }
      forall i | 0 <= i < |lists[l]|
        ensures mem[lists[l][i]].key != key
      {
        assert lists[l][i] in lists[0];
      }
    }
  }

  /** Raising the height brings in only empty levels. */
  lemma RaiseKeepsList(mem: Memory, maxHeight: nat, lists: seq<seq<Address>>, height: nat, key: Key)
    requires ListOk(mem, maxHeight, lists) && maxHeight < height <= MAX_HEIGHT
    ensures ListOk(mem, height, lists)
    ensures forall l :: maxHeight <= l < height ==> Fits(mem, lists[l], 0, key) && HEAD == Place(lists[l], 0)
  {
    hide LevelOk, Within;
  }

  lemma AllocateKeepsFits(
    mem: Memory, maxHeight: nat, lists: seq<seq<Address>>, x: Address, node: Node, places: seq<nat>, key: Key)
    requires |lists| == MAX_HEIGHT && x !in mem
    requires |places| <= MAX_HEIGHT && forall l :: 0 <= l < |places| ==> Fits(mem, lists[l], places[l], key)
    ensures forall l :: 0 <= l < |places| ==> Fits(mem[x := node], lists[l], places[l], key)
  {
  }

  lemma PlaceHasLink(mem: Memory, maxHeight: nat, lists: seq<seq<Address>>, level: nat, a: nat)
    requires ListOk(mem, maxHeight, lists) && level < MAX_HEIGHT && a <= |lists[level]|
    ensures HasLink(mem, Place(lists[level], a), level)
    ensures mem[Place(lists[level], a)].next[level] == Successor(lists[level], a)
  {
    assert LevelOk(mem, lists[level], level);
  }

  lemma StoreKeepsFits(
    mem: Memory, lists: seq<seq<Address>>, places: seq<nat>, key: Key, n: Address, level: nat, v: Address, lo: nat, hi: nat)
    requires HasLink(mem, n, level) && hi <= |lists| && hi <= |places|
    requires forall l :: lo <= l < hi ==> Fits(mem, lists[l], places[l], key)
    ensures forall l :: lo <= l < hi ==> Fits(SetNext(mem, n, level, v), lists[l], places[l], key)
  {
    hide Fits;
    forall l | lo <= l < hi
      ensures Fits(SetNext(mem, n, level, v), lists[l], places[l], key)
    {
      FitsStays(mem, lists[l], places[l], key, n, level, v);
    }
  }
}
