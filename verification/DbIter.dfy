/**
 The user-level iterator: it walks the internal entries in either direction and shows, for each user
 key, the newest version visible at its sequence number.
 */
module DbIter {
  import opened ByteStrings
  import opened Versions

  /** An internal entry.  Types 0 (deletion) and 1 (value) parse; larger type bytes are corrupt. */
  datatype Item = Item(key: UserKey, seqno: nat, tag: nat, value: Bytes)

  const TYPE_DELETION: nat := 0
  const TYPE_VALUE: nat := 1

  /** The order of internal keys: user key ascending, then sequence number and type descending. */
  predicate Before(a: Item, b: Item) {
    || a.key < b.key
    || (a.key == b.key && (a.seqno > b.seqno || (a.seqno == b.seqno && a.tag > b.tag)))
  }

  ghost predicate Sorted(items: seq<Item>) {
    forall i, j :: 0 <= i < j < |items| ==> Before(items[i], items[j])
  }

  // ----- the specification: the map of user keys visible at a sequence number -----

  predicate Admissible(item: Item, sequence: nat) {
    item.tag <= TYPE_VALUE && item.seqno <= sequence
  }

  /** Entry `i` is what its user key shows: a value, with no newer admissible entry before it. */
  ghost predicate Shown(items: seq<Item>, sequence: nat, i: int) {
    && 0 <= i < |items| && Admissible(items[i], sequence) && items[i].tag == TYPE_VALUE
    && forall j :: 0 <= j < i && Admissible(items[j], sequence) ==> items[j].key != items[i].key
  }

  ghost predicate Maps(items: seq<Item>, sequence: nat, key: UserKey, value: Bytes) {
    exists i :: Shown(items, sequence, i) && items[i].key == key && items[i].value == value
  }

  ghost predicate HasVisible(items: seq<Item>, sequence: nat, key: UserKey) {
    exists i :: Shown(items, sequence, i) && items[i].key == key
  }

  /** The visible entries form a map. */
  lemma MapIsFunctional(items: seq<Item>, sequence: nat, key: UserKey, v: Bytes, w: Bytes)
    requires Maps(items, sequence, key, v) && Maps(items, sequence, key, w)
    ensures v == w
  {
    var i :| Shown(items, sequence, i) && items[i].key == key && items[i].value == v;
    var j :| Shown(items, sequence, j) && items[j].key == key && items[j].value == w;
    assert i == j;
  }

  /** Some entry from `lo` on and before `hi` does not parse. */
  ghost predicate CorruptIn(items: seq<Item>, lo: int, hi: int) {
    exists i :: 0 <= i < |items| && lo <= i < hi && items[i].tag > TYPE_VALUE
  }

  lemma CorruptNowhere(items: seq<Item>, lo: int, hi: int)
    requires hi <= lo
    ensures !CorruptIn(items, lo, hi)
  {
  }

  lemma CorruptUp(items: seq<Item>, lo: int, p: nat)
    requires lo <= p < |items|
    ensures CorruptIn(items, lo, p + 1) <==> CorruptIn(items, lo, p) || items[p].tag > TYPE_VALUE
  {
  }

  lemma CorruptDown(items: seq<Item>, p: nat, hi: int)
    requires p < |items| && p < hi
    ensures CorruptIn(items, p, hi) <==> CorruptIn(items, p + 1, hi) || items[p].tag > TYPE_VALUE
  {
  }

  lemma CorruptSomewhere(items: seq<Item>, lo: int, hi: int)
    ensures CorruptIn(items, lo, hi) ==> CorruptIn(items, 0, |items|)
  {
  }

  lemma CorruptBetween(items: seq<Item>, lo: int, mid: int, hi: int)
    requires lo <= mid <= hi
    ensures CorruptIn(items, lo, hi) <==> CorruptIn(items, lo, mid) || CorruptIn(items, mid, hi)
  {
  }

  datatype Direction = Forward | Reverse

  class Iterator {
    const items: seq<Item>       // what the merged internal iterator yields
    const sequence: nat
    var pos: nat                 // the internal iterator; |items| when it is not valid
    var direction: Direction
    var valid: bool
    var savedKey: UserKey
    var savedValue: Bytes
    var corrupt: bool            // status_ is Corruption
    ghost var shown: nat         // the entry that the current key and value come from

    ghost predicate Base()
      reads this
    {
      && Sorted(items)
      && pos <= |items|
      && (corrupt ==> CorruptIn(items, 0, |items|))
    }

    ghost predicate Inv()
      reads this
    {
      && Base()
      && (valid ==> Shown(items, sequence, shown))
      && (valid && direction == Forward ==> pos == shown)
      && (valid && direction == Reverse ==>
            && savedKey == items[shown].key && savedValue == items[shown].value
            && JustBefore())
    }

    /** Moving backwards, the internal iterator stands on the last admissible entry before those of the
        current key, or is exhausted; only inadmissible entries lie in between. */
    ghost predicate JustBefore()
      reads this
    {
      if pos == |items| then forall j :: 0 <= j < shown && j < |items| ==> !Admissible(items[j], sequence)
      else
        && pos < shown < |items| && items[pos].key < items[shown].key
        && (forall j :: pos < j < shown ==> !Admissible(items[j], sequence))
    }

    function Key(): UserKey
      requires valid && Inv()
      reads this
    {
      if direction == Forward then items[pos].key else savedKey
    }

    function Value(): Bytes
      requires valid && Inv()
      reads this
    {
      if direction == Forward then items[pos].value else savedValue
    }

    constructor (items: seq<Item>, sequence: nat)
      requires Sorted(items)
      ensures Inv() && !valid && this.items == items && this.sequence == sequence && !corrupt
    {
      this.items := items;
      this.sequence := sequence;
      pos := |items|;
      direction := Forward;
      valid := false;
      savedKey := 0.0;
      savedValue := [];
      corrupt := false;
      shown := 0;
    }

    // ----- scanning loops -----

    /** Positions at the first entry from here on that its key shows, passing over keys up to `skip`. */
    method FindNextUserEntry(skipping: bool, skip: UserKey)
      requires Base() && pos < |items| && direction == Forward
      requires forall j :: 0 <= j < pos && Admissible(items[j], sequence) ==>
                             if skipping then items[j].key <= skip else items[j].key < items[pos].key
      requires skipping ==> forall j :: pos <= j < |items| && Admissible(items[j], sequence) ==> skip <= items[j].key
      modifies this
      ensures Inv() && direction == Forward
      ensures valid ==> shown >= old(pos) && (skipping ==> items[shown].key > skip)
      ensures forall i :: Shown(items, sequence, i) && i >= old(pos) && (skipping ==> items[i].key > skip) ==>
                            valid && shown <= i
      ensures old(pos) <= pos && (!valid ==> pos == |items|) && (valid ==> pos == shown)
      ensures corrupt <==> old(corrupt) || CorruptIn(items, old(pos), pos)
    {
      hide CorruptIn;
      var skipping', skip' := skipping, skip;
      ghost var start := pos;
      CorruptNowhere(items, start, start);
      while pos < |items|
        invariant start <= pos <= |items| && direction == Forward && Sorted(items)
        invariant corrupt <==> old(corrupt) || CorruptIn(items, start, pos)
        invariant skipping ==> skipping' && skip' >= skip
        invariant skipping' ==> forall j :: 0 <= j < pos && Admissible(items[j], sequence) ==> items[j].key <= skip'
        invariant skipping' ==> (skipping && skip' == skip) ||
                                exists d :: start <= d < pos && Admissible(items[d], sequence) && items[d].key == skip'
        invariant !skipping' ==> forall j :: start <= j < pos ==> !Admissible(items[j], sequence)
        invariant forall i :: Shown(items, sequence, i) && i >= start && (skipping ==> items[i].key > skip) ==> i >= pos
        decreases |items| - pos
      {
        var item := items[pos];
        CorruptUp(items, start, pos);
        CorruptSomewhere(items, start, pos);
        if item.tag > TYPE_VALUE {
          corrupt := true;
        }
        if Admissible(item, sequence) {
          if item.tag == TYPE_DELETION {
            skip' := item.key;
            skipping' := true;
          } else if skipping' && item.key <= skip' {
            // hidden
          } else {
            valid := true;
            shown := pos;
            savedKey := 0.0;
            return;
          }
        }
        pos := pos + 1;
      }
      CorruptSomewhere(items, start, pos);
      savedKey := 0.0;
      valid := false;
    }

    /** Positions at the last entry up to here that its key shows. */
    method FindPrevUserEntry()
      requires Base() && direction == Reverse
      requires pos < |items| ==>
                 forall j :: pos < j < |items| && Admissible(items[j], sequence) ==> items[pos].key < items[j].key
      modifies this
      ensures Inv() && (valid ==> direction == Reverse)
      ensures valid ==> old(pos) < |items| && shown <= old(pos)
      ensures forall i :: Shown(items, sequence, i) && old(pos) < |items| && i <= old(pos) ==> valid && i <= shown
      ensures pos == |items| || pos <= old(pos) < |items|
      ensures corrupt <==>
                (old(corrupt) || (old(pos) < |items| && CorruptIn(items, if pos == |items| then 0 else pos, old(pos) + 1)))
    {
      hide CorruptIn;
      ghost var start := pos;
      CorruptNowhere(items, start + 1, start + 1);
      var valueType := TYPE_DELETION;
      ghost var c := 0;
      ghost var scanned := if pos == |items| then 0 else pos + 1;   // entries scanned..start are done
      while pos < |items|
        invariant Sorted(items) && direction == Reverse
        invariant corrupt <==> old(corrupt) || (start < |items| && CorruptIn(items, scanned, start + 1))
        invariant start == |items| ==> pos == |items|
        invariant pos < |items| ==> start < |items| && scanned == pos + 1 <= start + 1
        invariant pos >= |items| ==> pos == |items| && scanned == 0
        invariant valueType == TYPE_DELETION || valueType == TYPE_VALUE
        invariant valueType == TYPE_VALUE ==>
                    && start < |items| && scanned <= c <= start && Admissible(items[c], sequence) && items[c].tag == TYPE_VALUE
                    && savedKey == items[c].key && savedValue == items[c].value
                    && (forall j :: scanned <= j < c ==> !Admissible(items[j], sequence))
        invariant start < |items| ==>
                    forall i :: Shown(items, sequence, i) && scanned <= i <= start ==> valueType == TYPE_VALUE && i == c
        decreases scanned
      {
        var item := items[pos];
        CorruptDown(items, pos, start + 1);
        CorruptSomewhere(items, scanned, start + 1);
        if item.tag > TYPE_VALUE {
          corrupt := true;
        }
        if Admissible(item, sequence) {
          if valueType != TYPE_DELETION && item.key < savedKey {
            break;
          }
          valueType := item.tag;
          if valueType == TYPE_DELETION {
            savedKey := 0.0;
            savedValue := [];
          } else {
            savedKey := item.key;
            savedValue := item.value;
          }
          c := pos;
        }
        scanned := pos;
        pos := if pos == 0 then |items| else pos - 1;
      }
      CorruptSomewhere(items, scanned, start + 1);
      if valueType == TYPE_DELETION {
        valid := false;
        savedKey := 0.0;
        savedValue := [];
        direction := Forward;
      } else {
        valid := true;
        shown := c;
      }
    }

    // ----- the interface, against the map of visible keys -----

    method Next()
      requires Inv() && valid
      modifies this
      ensures Inv()
      ensures valid ==> Maps(items, sequence, Key(), Value()) && old(Key()) < Key()
      ensures forall k :: HasVisible(items, sequence, k) && old(Key()) < k ==> valid && Key() <= k
      ensures direction == Forward && (!valid ==> pos == |items|)
      ensures old(direction) == Forward ==> old(pos) <= pos && (corrupt <==> old(corrupt) || CorruptIn(items, old(pos), pos))
    {
      hide CorruptIn;
      ghost var was := shown;
      if direction == Reverse {
        direction := Forward;
        if pos == |items| {
          pos := 0;
        } else {
          pos := pos + 1;
        }
        // the source also allows for the iterator to be invalid here; it never is
        assert pos <= was;
      } else {
        savedKey := items[pos].key;
      }
      ghost var start := pos;
      assert savedKey == items[was].key;
      assert forall j :: 0 <= j < was ==> Before(items[j], items[was]);
      assert forall j :: was < j < |items| ==> Before(items[was], items[j]);
      FindNextUserEntry(true, savedKey);
      AfterForward(was, start);
    }

    lemma AfterForward(was: nat, start: nat)
      requires Inv() && direction == Forward && was < |items| && start <= was
      requires valid ==> items[shown].key > items[was].key
      requires forall i :: Shown(items, sequence, i) && i >= start && items[i].key > items[was].key ==> valid && shown <= i
      ensures valid ==> Maps(items, sequence, Key(), Value()) && items[was].key < Key()
      ensures forall k :: HasVisible(items, sequence, k) && items[was].key < k ==> valid && Key() <= k
    {
      forall k | HasVisible(items, sequence, k) && items[was].key < k
        ensures valid && Key() <= k
      {
        var i :| Shown(items, sequence, i) && items[i].key == k;
        if valid && shown < i {
          assert Before(items[shown], items[i]);
        }
      }
    }

    method Prev()
      requires Inv() && valid
      modifies this
      ensures Inv()
      ensures valid ==> Maps(items, sequence, Key(), Value()) && Key() < old(Key())
      ensures forall k :: HasVisible(items, sequence, k) && k < old(Key()) ==> valid && k <= Key()
    {
      ghost var was := shown;
      if direction == Forward {
        var found := BackBeforeKey();
        if !found {
          valid := false;
          savedKey := 0.0;
          savedValue := [];
          AfterBackward(was);
          return;
        }
        direction := Reverse;
      } else {
        EntriesAhead(was);
      }
      ghost var start := pos;
      FindPrevUserEntry();
      AfterFindPrev(was, start);
      AfterBackward(was);
    }

    /** The direction switch: scans backwards until the user key changes. */
    method BackBeforeKey() returns (found: bool)
      requires Inv() && valid && direction == Forward
      modifies this`pos, this`savedKey
      ensures Base()
      ensures found ==>
                && pos < shown && items[pos].key < items[shown].key
                && forall j :: pos < j < |items| ==> items[pos].key < items[j].key
      ensures found ==> forall i :: Shown(items, sequence, i) && items[i].key < items[shown].key ==> i <= pos
      ensures !found ==> forall i :: Shown(items, sequence, i) ==> items[shown].key <= items[i].key
    {
      savedKey := items[pos].key;
      while true
        invariant 0 <= pos <= shown && savedKey == items[shown].key
        invariant forall j :: pos <= j < |items| ==> savedKey <= items[j].key
        decreases pos
      {
        if pos == 0 {
          pos := |items|;
          return false;
        }
        pos := pos - 1;
        if items[pos].key < savedKey {
          return true;
        }
      }
    }

    /** Moving on in reverse, every admissible entry ahead of the internal iterator has a larger key. */
    lemma EntriesAhead(was: nat)
      requires Inv() && valid && direction == Reverse && was == shown
      ensures pos < |items| ==>
                forall j :: pos < j < |items| && Admissible(items[j], sequence) ==> items[pos].key < items[j].key
      ensures forall i :: Shown(items, sequence, i) && items[i].key < items[was].key ==> pos < |items| && i <= pos
    {
      forall j | pos < j < |items| && Admissible(items[j], sequence)
        ensures items[pos].key < items[j].key
      {
        if j > was {
          assert Before(items[was], items[j]);
        }
      }
      forall i | Shown(items, sequence, i) && items[i].key < items[was].key
        ensures pos < |items| && i <= pos
      {
        assert i < was;
      }
    }

    lemma AfterFindPrev(was: nat, start: nat)
      requires Inv() && was < |items| && start <= |items|
      requires valid ==> start < |items| && shown <= start
      requires start < |items| ==> items[start].key < items[was].key
      requires forall i :: Shown(items, sequence, i) && start < |items| && i <= start ==> valid && i <= shown
      requires forall i :: Shown(items, sequence, i) && items[i].key < items[was].key ==> start < |items| && i <= start
      ensures valid ==> items[shown].key < items[was].key
      ensures forall i :: Shown(items, sequence, i) && items[i].key < items[was].key ==> valid && i <= shown
    {
      if valid && shown < start {
        assert Before(items[shown], items[start]);
      }
    }

    lemma AfterBackward(was: nat)
      requires Inv() && was < |items|
      requires valid ==> direction == Reverse && items[shown].key < items[was].key
      requires forall i :: Shown(items, sequence, i) && items[i].key < items[was].key ==> valid && i <= shown
      ensures valid ==> Maps(items, sequence, Key(), Value()) && Key() < items[was].key
      ensures forall k :: HasVisible(items, sequence, k) && k < items[was].key ==> valid && k <= Key()
    {
      forall k | HasVisible(items, sequence, k) && k < items[was].key
        ensures valid && k <= Key()
      {
        var i :| Shown(items, sequence, i) && items[i].key == k;
        if valid && i < shown {
          assert Before(items[i], items[shown]);
        }
      }
    }

    /** Moves to the first visible key at or after `target`. */
    method Seek(target: UserKey)
      requires Inv()
      modifies this
      ensures Inv()
      ensures valid ==> Maps(items, sequence, Key(), Value()) && target <= Key()
      ensures forall k :: HasVisible(items, sequence, k) && target <= k ==> valid && Key() <= k
    {
      direction := Forward;
      savedValue := [];
      savedKey := target;
      SeekInternal(Item(target, sequence, TYPE_VALUE, []));
      ghost var start := pos;
      if pos < |items| {
        FindNextUserEntry(false, savedKey);
      } else {
        valid := false;
      }
      forall k | HasVisible(items, sequence, k) && target <= k
        ensures valid && Key() <= k
      {
        var i :| Shown(items, sequence, i) && items[i].key == k;
        assert i >= start;
        if valid && shown < i {
          assert Before(items[shown], items[i]);
        }
      }
    }

    /** The internal iterator's `Seek`: the first entry not before the target. */
    method SeekInternal(target: Item)
      requires Base()
      modifies this`pos
      ensures Base()
      ensures forall j :: 0 <= j < pos ==> Before(items[j], target)
      ensures pos < |items| ==> !Before(items[pos], target)
    {
      pos := 0;
      while pos < |items| && Before(items[pos], target)
        invariant pos <= |items|
        invariant forall j :: 0 <= j < pos ==> Before(items[j], target)
      {
        pos := pos + 1;
      }
    }

    method SeekToFirst()
      requires Inv()
      modifies this
      ensures Inv()
      ensures valid ==> Maps(items, sequence, Key(), Value())
      ensures forall k :: HasVisible(items, sequence, k) ==> valid && Key() <= k
      ensures direction == Forward && (!valid ==> pos == |items|)
      ensures corrupt <==> old(corrupt) || CorruptIn(items, 0, pos)
    {
      hide CorruptIn;
      CorruptNowhere(items, 0, 0);
      direction := Forward;
      savedValue := [];
      pos := 0;
      if pos < |items| {
        FindNextUserEntry(false, savedKey);
      } else {
        valid := false;
      }
      forall k | HasVisible(items, sequence, k)
        ensures valid && Key() <= k
      {
        var i :| Shown(items, sequence, i) && items[i].key == k;
        if valid && shown < i {
          assert Before(items[shown], items[i]);
        }
      }
    }

    method SeekToLast()
      requires Inv()
      modifies this
      ensures Inv()
      ensures valid ==> Maps(items, sequence, Key(), Value())
      ensures forall k :: HasVisible(items, sequence, k) ==> valid && k <= Key()
    {
      direction := Reverse;
      savedValue := [];
      pos := if |items| == 0 then 0 else |items| - 1;
      FindPrevUserEntry();
      forall k | HasVisible(items, sequence, k)
        ensures valid && k <= Key()
      {
        var i :| Shown(items, sequence, i) && items[i].key == k;
        if valid && i < shown {
          assert Before(items[i], items[shown]);
        }
      }
    }
  }
}
