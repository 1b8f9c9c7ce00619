/**
 The circular doubly-linked list of live snapshots.
 */
module Snapshots {

  class SnapshotImpl {
    const number: nat
    var prev: SnapshotImpl
    var next: SnapshotImpl

    /** A node linked to itself. */
    constructor (number: nat)
      ensures this.number == number && prev == this && next == this
    {
      this.number := number;
      prev := this;
      next := this;
    }
  }

  function Numbers(nodes: seq<SnapshotImpl>): (numbers: seq<nat>)
    ensures |numbers| == |nodes|
    ensures forall i :: 0 <= i < |nodes| ==> numbers[i] == nodes[i].number
  {
    seq(|nodes|, i requires 0 <= i < |nodes| => nodes[i].number)
  }

  ghost predicate Ascending(numbers: seq<nat>) {
    forall i, j :: 0 <= i < j < |numbers| ==> numbers[i] <= numbers[j]
  }

  /** Releasing any snapshot keeps the order of the others. */
  lemma AscendingWithout(nodes: seq<SnapshotImpl>, k: nat)
    requires k < |nodes| && Ascending(Numbers(nodes))
    ensures Ascending(Numbers(nodes[..k] + nodes[k + 1..]))
  {
    var rest := nodes[..k] + nodes[k + 1..];
    forall i, j | 0 <= i < j < |rest|
      ensures Numbers(rest)[i] <= Numbers(rest)[j]
    {
      var i', j' := if i < k then i else i + 1, if j < k then j else j + 1;
      assert Numbers(nodes)[i'] <= Numbers(nodes)[j'];
    }
  }

  /** Once around a circular list: from some node back to it. */
  ghost predicate Round(ring: seq<SnapshotImpl>)
    reads ring
  {
    && Closed(ring)
    && (forall i {:trigger ring[i].next} :: 0 <= i < |ring| - 1 ==> ring[i].next == ring[i + 1])
    && (forall i {:trigger ring[i].prev} :: 0 < i < |ring| ==> ring[i].prev == ring[i - 1])
  }

  ghost predicate Closed<T>(ring: seq<T>) {
    && |ring| >= 2 && ring[|ring| - 1] == ring[0]
    && forall i, j :: 0 <= i < j < |ring| - 1 ==> ring[i] != ring[j]
  }

  function Skip<T>(ring: seq<T>, k: nat): (rest: seq<T>)
    requires k + 2 < |ring|
    ensures |rest| == |ring| - 1
    ensures forall i :: 0 <= i < |rest| ==> rest[i] == ring[if i <= k then i else i + 1]
    ensures rest[1..|rest| - 1] == ring[1..|ring| - 1][..k] + ring[1..|ring| - 1][k + 1..]
  {
    var rest := ring[..k + 1] + ring[k + 2..];
    assert rest[1..|rest| - 1] == ring[1..|ring| - 1][..k] + ring[1..|ring| - 1][k + 1..];
    rest
  }

  lemma SkipIsClosed<T>(ring: seq<T>, k: nat)
    requires k + 2 < |ring| && Closed(ring)
    ensures Closed(Skip(ring, k))
  {
  }

  /** When only the links across place `k + 1` have changed, skipping that place goes around. */
  lemma SkipIsRound(ring: seq<SnapshotImpl>, k: nat)
    requires k + 2 < |ring| && Closed(ring)
    requires forall i {:trigger ring[i].next} :: 0 <= i < |ring| - 1 ==>
               ring[i].next == if i == k then ring[k + 2] else ring[i + 1]
    requires forall i {:trigger ring[i].prev} :: 0 < i < |ring| ==>
               ring[i].prev == if i == k + 2 then ring[k] else ring[i - 1]
    ensures Round(Skip(ring, k))
  {
    hide Closed;
    SkipIsClosed(ring, k);
    var rest := Skip(ring, k);
    assert |rest| >= 2 by { assert Closed(rest); CloseIsLong(rest); }
    forall i | 0 <= i < |rest| - 1
      ensures rest[i].next == rest[i + 1]
    {
      var i' := if i <= k then i else i + 1;
      assert rest[i] == ring[i'] && ring[i'].next == if i' == k then ring[k + 2] else ring[i' + 1];
    }
    forall i | 0 < i < |rest|
      ensures rest[i].prev == rest[i - 1]
    {
      var i' := if i <= k then i else i + 1;
      assert rest[i] == ring[i'] && ring[i'].prev == if i' == k + 2 then ring[k] else ring[i' - 1];
    }
  }

  /** Nodes at different places of the ring differ, seen from its beginning and from its end. */
  lemma PlacesDiffer<T>(ring: seq<T>, i: nat, j: nat)
    requires Closed(ring) && i != j
    ensures i < |ring| - 1 && j < |ring| - 1 ==> ring[i] != ring[j]
    ensures 0 < i < |ring| && 0 < j < |ring| ==> ring[i] != ring[j]
  {
  }

  /** A node linked in before the dummy head. */
  function Added<T>(ring: seq<T>, x: T): (more: seq<T>)
    requires |ring| >= 2
    ensures |more| == |ring| + 1 && more[0] == ring[0]
    ensures more[1..|more| - 1] == ring[1..|ring| - 1] + [x]
  {
    var more := ring[..|ring| - 1] + [x, ring[0]];
    assert more[1..|more| - 1] == ring[1..|ring| - 1] + [x];
    more
  }

  lemma AddedIsRound(ring: seq<SnapshotImpl>, s: SnapshotImpl)
    requires Closed(ring) && |ring| >= 2 && s !in ring
    requires s.next == ring[0] && s.prev == ring[|ring| - 2]
    requires forall i {:trigger ring[i].next} :: 0 <= i < |ring| - 1 ==>
               ring[i].next == if i == |ring| - 2 then s else ring[i + 1]
    requires forall i {:trigger ring[i].prev} :: 0 < i < |ring| ==>
               ring[i].prev == if i == |ring| - 1 then s else ring[i - 1]
    ensures Round(Added(ring, s))
  {
    var more, m := Added(ring, s), |ring| - 1;
    assert forall i :: 0 <= i < m ==> more[i] == ring[i];
    assert more[m] == s && more[m + 1] == ring[0] == ring[m];
    forall i | 0 <= i < |more| - 1
      ensures more[i].next == more[i + 1]
    {
      if i < m { assert more[i].next == ring[i].next; }
    }
    forall i | 0 < i < |more|
      ensures more[i].prev == more[i - 1]
    {
      if i < m { assert more[i].prev == ring[i].prev; }
      if i == m + 1 { assert more[i].prev == ring[m].prev; }
    }
  }

  lemma AscendingAppended(nodes: seq<SnapshotImpl>, s: SnapshotImpl)
    ensures Ascending(Numbers(nodes)) && (forall n :: n in nodes ==> n.number <= s.number) ==>
              Ascending(Numbers(nodes + [s]))
  {
  }

  lemma RoundLinks(ring: seq<SnapshotImpl>)
    requires Round(ring)
    ensures Closed(ring)
    ensures forall i {:trigger ring[i].next} :: 0 <= i < |ring| - 1 ==> ring[i].next == ring[i + 1]
    ensures forall i {:trigger ring[i].prev} :: 0 < i < |ring| ==> ring[i].prev == ring[i - 1]
  {
  }

  lemma CloseIsLong<T>(ring: seq<T>)
    requires Closed(ring)
    ensures |ring| >= 2
  {
  }

  class SnapshotList {
    const head: SnapshotImpl               // dummy head
    ghost var ring: seq<SnapshotImpl>      // once around the list, from the dummy head back to it

    ghost predicate Valid()
      reads this, ring
    {
      Round(ring) && ring[0] == head
    }

    /** The live snapshots, oldest first. */
    ghost function Live(): seq<SnapshotImpl>
      requires |ring| >= 2
      reads this
    {
      ring[1..|ring| - 1]
    }

    constructor ()
      ensures Valid() && Live() == [] && fresh(head)
    {
      head := new SnapshotImpl(0);
      ring := [head, head];
    }

    method Empty() returns (r: bool)
      requires Valid()
      ensures r <==> Live() == []
    {
      assert head == ring[0];
      r := head.next == head;
    }

    /** The front of the list; when numbers were taken in order it is the smallest of all live ones. */
    method Oldest() returns (s: SnapshotImpl)
      requires Valid() && Live() != []
      ensures s == Live()[0]
      ensures Ascending(Numbers(Live())) ==> forall n :: n in Live() ==> s.number <= n.number
    {
      assert head == ring[0];
      s := head.next;
      assert Numbers(Live())[0] == s.number;
    }

    method Newest() returns (s: SnapshotImpl)
      requires Valid() && Live() != []
      ensures s == Live()[|Live()| - 1]
      ensures Ascending(Numbers(Live())) ==> forall n :: n in Live() ==> n.number <= s.number
    {
      assert head == ring[0] == ring[|ring| - 1];
      s := head.prev;
      assert Numbers(Live())[|Live()| - 1] == s.number;
    }

    /** Links a snapshot in at the new end; numbers taken in order stay in order. */
    method New(number: nat) returns (s: SnapshotImpl)
      requires Valid()
      modifies this, ring
      ensures Valid() && fresh(s) && s.number == number
      ensures Live() == old(Live()) + [s]
      ensures Ascending(Numbers(old(Live()))) && (forall n :: n in old(Live()) ==> n.number <= number) ==>
                Ascending(Numbers(Live()))
    {
      hide Ascending, Numbers, Round, Closed, Added;
      RoundLinks(ring);
      CloseIsLong(ring);
      ghost var m := |ring| - 1;
      s := new SnapshotImpl(number);
      s.next := head;
      s.prev := head.prev;
      s.prev.next := s;
      s.next.prev := s;
      forall i {:trigger ring[i].next} | 0 <= i < m
        ensures ring[i].next == if i == m - 1 then s else ring[i + 1]
      {
        assert old(ring[i].next) == ring[i + 1];
        if i != m - 1 { PlacesDiffer(ring, i, m - 1); }
      }
      forall i {:trigger ring[i].prev} | 0 < i <= m
        ensures ring[i].prev == if i == m then s else ring[i - 1]
      {
        assert old(ring[i].prev) == ring[i - 1];
        if i != m { PlacesDiffer(ring, i, m); }
      }
      AddedIsRound(ring, s);
      ring := Added(ring, s);
      AscendingAppended(old(Live()), s);
    }

    /** Unlinks the snapshot standing at place `k`; the others keep their order. */
    method Delete(s: SnapshotImpl, ghost k: nat)
      requires Valid() && k < |Live()| && Live()[k] == s
      modifies this, ring
      ensures Valid()
      ensures Live() == old(Live())[..k] + old(Live())[k + 1..]
      ensures Ascending(Numbers(old(Live()))) ==> Ascending(Numbers(Live()))
    {
      hide Ascending, Numbers, Skip, Closed, Round;
      RoundLinks(ring);
      CloseIsLong(ring);
      if Ascending(Numbers(Live())) {
        AscendingWithout(Live(), k);
      }
      assert s == ring[k + 1] && s.prev == ring[k] && s.next == ring[k + 2];
      s.prev.next := s.next;
      s.next.prev := s.prev;
      forall i {:trigger ring[i].next} | 0 <= i < |ring| - 1
        ensures ring[i].next == if i == k then ring[k + 2] else ring[i + 1]
      {
        assert old(ring[i].next) == ring[i + 1];
        if i != k { PlacesDiffer(ring, i, k); }
      }
      forall i {:trigger ring[i].prev} | 0 < i < |ring|
        ensures ring[i].prev == if i == k + 2 then ring[k] else ring[i - 1]
      {
        assert old(ring[i].prev) == ring[i - 1];
        if i != k + 2 { PlacesDiffer(ring, i, k + 2); }
      }
      SkipIsRound(ring, k);
      ring := Skip(ring, k);
    }
  }
}
