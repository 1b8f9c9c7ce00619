/**
 The compaction loop: which entries it drops, and why no reader at or above the smallest snapshot
 can tell.
 */
module Compaction {
  import opened ByteStrings
  import opened Versions

  /** An entry of the merged input: an internal key that parses, or one that does not. */
  datatype Input = Entry(seqno: nat, write: Write) | Corrupt(raw: Bytes)

  const MAX_SEQUENCE_NUMBER: nat := 0xff_ffff_ffff_ffff

  ghost predicate InputOk(input: seq<Input>) {
    forall i :: 0 <= i < |input| && input[i].Entry? ==> input[i].seqno <= MAX_SEQUENCE_NUMBER
  }

  /** The rule, stated without the loop's variables: an entry goes when the entry just before it has
      the same user key and is already visible at the smallest snapshot, or when it is a deletion
      marker visible there for a key that exists in no deeper level. */
  ghost predicate Dropped(input: seq<Input>, i: nat, smallest: nat, isBase: UserKey -> bool)
    requires i < |input|
  {
    && input[i].Entry?
    && (|| (i > 0 && input[i - 1].Entry? && input[i - 1].write.key == input[i].write.key &&
            input[i - 1].seqno <= smallest)
        || (input[i].write.value.None? && input[i].seqno <= smallest && isBase(input[i].write.key)))
  }

  ghost function Kept(input: seq<Input>, n: nat, smallest: nat, isBase: UserKey -> bool): seq<Input>
    requires n <= |input|
  {
    if n == 0 then []
    else Kept(input, n - 1, smallest, isBase) +
         if Dropped(input, n - 1, smallest, isBase) then [] else [input[n - 1]]
  }

  /** The loop of `DoCompactionWork` over the merged input.  The loop marks a fresh key with the largest
      sequence number, so a snapshot that large would let nothing through. */
  method DoCompactionWork(input: seq<Input>, smallest: nat, isBase: UserKey -> bool) returns (kept: seq<Input>)
    requires InputOk(input)
    ensures smallest < MAX_SEQUENCE_NUMBER ==> kept == Kept(input, |input|, smallest, isBase)
    ensures smallest >= MAX_SEQUENCE_NUMBER ==> forall e :: e in kept ==> e.Corrupt?
  {
    kept := [];
    var currentUserKey: UserKey := 0.0;
    var hasCurrentUserKey := false;
    var lastSequenceForKey := MAX_SEQUENCE_NUMBER;
    for i := 0 to |input|
      invariant smallest < MAX_SEQUENCE_NUMBER ==> kept == Kept(input, i, smallest, isBase)
      invariant smallest >= MAX_SEQUENCE_NUMBER ==> forall e :: e in kept ==> e.Corrupt?
      invariant hasCurrentUserKey <==> i > 0 && input[i - 1].Entry?
      invariant hasCurrentUserKey ==>
                  currentUserKey == input[i - 1].write.key && lastSequenceForKey == input[i - 1].seqno
      invariant !hasCurrentUserKey ==> lastSequenceForKey == MAX_SEQUENCE_NUMBER
    {
      var drop := false;
      match input[i] {
        case Corrupt(_) =>
          hasCurrentUserKey := false;
          lastSequenceForKey := MAX_SEQUENCE_NUMBER;
        case Entry(seqno, write) =>
          if !hasCurrentUserKey || write.key != currentUserKey {
            currentUserKey := write.key;
            hasCurrentUserKey := true;
            lastSequenceForKey := MAX_SEQUENCE_NUMBER;
          }
          if lastSequenceForKey <= smallest {
            drop := true;
          } else if write.value.None? && seqno <= smallest && isBase(write.key) {
            drop := true;
          }
          lastSequenceForKey := seqno;
      }
      if !drop {
        kept := kept + [input[i]];
      }
    }
  }

  // ----- from the sorted input to sets of entries -----

  /** Sorted as the internal key comparator sorts: by user key, then by decreasing sequence number. */
  ghost predicate Sorted(input: seq<Input>) {
    forall i, j :: 0 <= i < j < |input| && input[i].Entry? && input[j].Entry? ==>
                     || input[i].write.key < input[j].write.key
                     || (input[i].write.key == input[j].write.key && input[j].seqno < input[i].seqno)
  }

  ghost predicate AllParse(input: seq<Input>) {
    forall i :: 0 <= i < |input| ==> input[i].Entry?
  }

  /** `input` lists exactly the entries of `run`. */
  ghost predicate Lists(input: seq<Input>, run: Run) {
    && (forall i :: 0 <= i < |input| && input[i].Entry? ==>
                      input[i].seqno in run && run[input[i].seqno] == input[i].write)
    && (forall q :: q in run ==> Entry(q, run[q]) in input)
  }

  /** What the drop rule means for the set of input entries. */
  ghost predicate Obsolete(inputs: Run, q: nat, smallest: nat, isBase: UserKey -> bool)
    requires q in inputs
  {
    || (exists p :: p in inputs && q < p <= smallest && inputs[p].key == inputs[q].key)
    || (inputs[q].value.None? && q <= smallest && isBase(inputs[q].key))
  }

  ghost function Retained(inputs: Run, smallest: nat, isBase: UserKey -> bool): Run {
    map q | q in inputs && !Obsolete(inputs, q, smallest, isBase) :: inputs[q]
  }

  lemma EntryIndex(input: seq<Input>, run: Run, q: nat) returns (i: nat)
    requires Lists(input, run) && q in run
    ensures i < |input| && input[i] == Entry(q, run[q])
  {
    assert Entry(q, run[q]) in input;
    i :| 0 <= i < |input| && input[i] == Entry(q, run[q]);
  }

  /** On a sorted, parseable input, looking only at the entry just before is enough. */
  lemma DroppedMeansObsolete(input: seq<Input>, run: Run, i: nat, smallest: nat, isBase: UserKey -> bool)
    requires Sorted(input) && AllParse(input) && Lists(input, run) && i < |input|
    ensures Dropped(input, i, smallest, isBase) <==> Obsolete(run, input[i].seqno, smallest, isBase)
  {
    var q, k := input[i].seqno, input[i].write.key;
    if p :| p in run && q < p <= smallest && run[p].key == k {
      var j := EntryIndex(input, run, p);
      assert input[i].Entry? && input[j].Entry?;
      assert j < i;
      var before := input[i - 1];
      assert before.Entry?;
      assert before.write.key == k && before.seqno <= p by {
        if j < i - 1 {
          assert input[j].Entry? && input[i - 1].Entry? && input[i].Entry?;
        }
      }
    }
    if i > 0 && input[i - 1].write.key == k && input[i - 1].seqno <= smallest {
      assert input[i - 1].Entry? && input[i].Entry?;
      assert input[i - 1].seqno in run;
    }
  }

  lemma {:induction false} KeptMembers(input: seq<Input>, n: nat, smallest: nat, isBase: UserKey -> bool, e: Input)
    requires n <= |input|
    ensures e in Kept(input, n, smallest, isBase) <==>
            exists i :: 0 <= i < n && input[i] == e && !Dropped(input, i, smallest, isBase)
  {
    if n > 0 {
      KeptMembers(input, n - 1, smallest, isBase, e);
      var before := Kept(input, n - 1, smallest, isBase);
      assert e in Kept(input, n, smallest, isBase) <==>
             e in before || (!Dropped(input, n - 1, smallest, isBase) && input[n - 1] == e);
    }
  }

  /** The output of the loop lists exactly the retained entries, still sorted. */
  lemma KeptIsRetained(input: seq<Input>, run: Run, smallest: nat, isBase: UserKey -> bool)
    requires Sorted(input) && AllParse(input) && Lists(input, run)
    ensures Lists(Kept(input, |input|, smallest, isBase), Retained(run, smallest, isBase))
  {
    var kept := Kept(input, |input|, smallest, isBase);
    var retained := Retained(run, smallest, isBase);
    forall j | 0 <= j < |kept| && kept[j].Entry?
      ensures kept[j].seqno in retained && retained[kept[j].seqno] == kept[j].write
    {
      KeptMembers(input, |input|, smallest, isBase, kept[j]);
      var i :| 0 <= i < |input| && input[i] == kept[j] && !Dropped(input, i, smallest, isBase);
      DroppedMeansObsolete(input, run, i, smallest, isBase);
    }
    forall q | q in retained
      ensures Entry(q, retained[q]) in kept
    {
      var i := EntryIndex(input, run, q);
      DroppedMeansObsolete(input, run, i, smallest, isBase);
      KeptMembers(input, |input|, smallest, isBase, input[i]);
    }
  }

  // ----- compaction preserves meaning -----

  /** What `IsBaseLevelForKey` guarantees, given newest-first placement: entries of the key outside
      the inputs are all newer than its entries inside. */
  ghost predicate BaseIsSound(others: Run, inputs: Run, isBase: UserKey -> bool) {
    forall p, q :: p in others && q in inputs && others[p].key == inputs[q].key && isBase(inputs[q].key) ==> q < p
  }

  ghost predicate Disjoint(a: Run, b: Run) {
    forall q :: q in a ==> q !in b
  }

  /** Below a dropped deletion marker nothing of its key is left. */
  lemma NothingBelowDroppedMarker(
    others: Run, inputs: Run, smallest: nat, isBase: UserKey -> bool, q: nat, p: nat)
    requires BaseIsSound(others, inputs, isBase)
    requires q in inputs && q <= smallest && isBase(inputs[q].key)
    requires p in others + Retained(inputs, smallest, isBase) && p < q
    ensures (others + Retained(inputs, smallest, isBase))[p].key != inputs[q].key
  {
    if p in inputs && inputs[p].key == inputs[q].key {
      assert Obsolete(inputs, p, smallest, isBase);
    }
  }

  /** Replacing the inputs of a compaction by the retained entries changes no read at or above the
      smallest snapshot, even where a deletion marker itself disappears. */
  lemma CompactionPreservesMeaning(
    others: Run, inputs: Run, smallest: nat, isBase: UserKey -> bool, key: UserKey, s: nat)
    requires Disjoint(others, inputs)
    requires BaseIsSound(others, inputs, isBase)
    requires smallest <= s
    ensures ValueOf(Lookup(others + Retained(inputs, smallest, isBase), key, s))
         == ValueOf(Lookup(others + inputs, key, s))
  {
    hide Lookup, BaseIsSound, Retained, Obsolete, Disjoint;
    var before, after := others + inputs, others + Retained(inputs, smallest, isBase);
    RetainedIsPart(others, inputs, smallest, isBase);
    LookupIsNewest(before, key, s);
    if Lookup(before, key, s).None? {
      LookupMisses(after, key, s);
    } else {
      var q :| q in before && q <= s && before[q].key == key && Lookup(before, key, s) == Some(before[q]) &&
               forall p :: p in before && p <= s && before[p].key == key ==> p <= q;
      if q in after {
        LookupGives(after, key, s, q);
      } else {
        NewestDroppedIsMarker(others, inputs, smallest, isBase, q, s);
        forall p | p in after && p <= s
          ensures after[p].key != key
        {
          if p < q {
            NothingBelowDroppedMarker(others, inputs, smallest, isBase, q, p);
          }
        }
        LookupMisses(after, key, s);
      }
    }
  }

  lemma RetainedIsPart(others: Run, inputs: Run, smallest: nat, isBase: UserKey -> bool)
    requires Disjoint(others, inputs)
    ensures
      var before, after := others + inputs, others + Retained(inputs, smallest, isBase);
      forall q :: q in after ==> q in before && after[q] == before[q]
  {
    hide Obsolete;
  }

  /** A dropped entry that is the newest of its key is a deletion marker of the base level. */
  lemma NewestDroppedIsMarker(
    others: Run, inputs: Run, smallest: nat, isBase: UserKey -> bool, q: nat, s: nat)
    requires smallest <= s && Disjoint(others, inputs)
    requires q in others + inputs && q !in others + Retained(inputs, smallest, isBase)
    requires forall p :: p in others + inputs && p <= s && (others + inputs)[p].key == (others + inputs)[q].key ==> p <= q
    ensures q in inputs && inputs[q] == (others + inputs)[q]
    ensures inputs[q].value.None? && q <= smallest && isBase(inputs[q].key)
  {
    assert q in inputs && Obsolete(inputs, q, smallest, isBase);
    forall p | p in inputs && q < p <= smallest
      ensures inputs[p].key != inputs[q].key
    {
      assert (others + inputs)[p] == inputs[p];
    }
  }

  /** The loop's own output, read back as a run, means what its input meant. */
  lemma LoopPreservesMeaning(
    input: seq<Input>, inputs: Run, output: Run, others: Run, smallest: nat, isBase: UserKey -> bool,
    key: UserKey, s: nat)
    requires Sorted(input) && AllParse(input) && Lists(input, inputs)
    requires Lists(Kept(input, |input|, smallest, isBase), output)
    requires Disjoint(others, inputs) && BaseIsSound(others, inputs, isBase)
    requires smallest <= s
    ensures ValueOf(Lookup(others + output, key, s)) == ValueOf(Lookup(others + inputs, key, s))
  {
    KeptIsRetained(input, inputs, smallest, isBase);
    SameListing(Kept(input, |input|, smallest, isBase), output, Retained(inputs, smallest, isBase));
    CompactionPreservesMeaning(others, inputs, smallest, isBase, key, s);
  }

  lemma SameListing(input: seq<Input>, a: Run, b: Run)
    requires Lists(input, a) && Lists(input, b)
    ensures a == b
  {
    forall q | q in a
      ensures q in b && b[q] == a[q]
    {
      var i := EntryIndex(input, a, q);
    }
    forall q | q in b
      ensures q in a
    {
      var i := EntryIndex(input, b, q);
    }
  }

  // ----- keys that do not parse -----

  /** The newest entry of `key` visible at the smallest snapshot is a deletion marker of the inputs that
      the loop may drop. */
  ghost predicate MarkerGoes(
    others: Run, inputs: Run, smallest: nat, isBase: UserKey -> bool, key: UserKey, q: nat)
  {
    && q in inputs && inputs[q] == Write(key, None) && q <= smallest && isBase(key)
    && forall p :: p in others + inputs && q < p <= smallest ==> (others + inputs)[p].key != key
  }

  /** A bad key right before an older value of a key whose deletion marker goes. */
  ghost predicate BadKeyHidesValue(
    input: seq<Input>, others: Run, inputs: Run, smallest: nat, isBase: UserKey -> bool, j: nat, q: nat)
    requires j < |input|
  {
    && j > 0 && input[j - 1].Corrupt? && input[j].Entry? && input[j].write.value.Some?
    && input[j].seqno < q && MarkerGoes(others, inputs, smallest, isBase, input[j].write.key, q)
  }

  ghost predicate BadKeyMatters(
    input: seq<Input>, others: Run, inputs: Run, smallest: nat, isBase: UserKey -> bool)
  {
    exists j: nat, q :: j < |input| && BadKeyHidesValue(input, others, inputs, smallest, isBase, j, q)
  }

  ghost predicate SameReads(a: Run, b: Run, smallest: nat) {
    forall key, s: nat :: smallest <= s ==> ValueOf(Lookup(a, key, s)) == ValueOf(Lookup(b, key, s))
  }

  /** Whatever does not parse, a dropped entry is obsolete: bad keys only ever keep too much. */
  lemma DroppedIsObsolete(input: seq<Input>, run: Run, i: nat, smallest: nat, isBase: UserKey -> bool)
    requires Sorted(input) && Lists(input, run) && i < |input| && Dropped(input, i, smallest, isBase)
    ensures Obsolete(run, input[i].seqno, smallest, isBase)
  {
    if i > 0 && input[i - 1].Entry? && input[i - 1].write.key == input[i].write.key {
      assert input[i - 1].seqno in run;
    }
  }

  /** An entry behind the marker that goes is kept only for being a value right behind a bad key. */
  lemma KeptBehindMarker(
    input: seq<Input>, others: Run, inputs: Run, smallest: nat, isBase: UserKey -> bool, j: nat, q: nat)
    requires Sorted(input) && Lists(input, inputs) && j < |input| && input[j].Entry?
    requires MarkerGoes(others, inputs, smallest, isBase, input[j].write.key, q) && input[j].seqno < q
    ensures !Dropped(input, j, smallest, isBase) <==> BadKeyHidesValue(input, others, inputs, smallest, isBase, j, q)
  {
    var i := EntryIndex(input, inputs, q);
    assert input[i].Entry? && input[j].Entry?;
    assert i < j;
    if input[j - 1].Entry? && i < j - 1 {
      assert input[i].Entry? && input[j - 1].Entry?;
    }
  }

  lemma OutputEntry(
    input: seq<Input>, inputs: Run, output: Run, smallest: nat, isBase: UserKey -> bool, i: nat)
    requires Sorted(input) && Lists(input, inputs) && i < |input| && input[i].Entry?
    requires Lists(Kept(input, |input|, smallest, isBase), output)
    ensures input[i].seqno in output <==> !Dropped(input, i, smallest, isBase)
    ensures input[i].seqno in output ==> output[input[i].seqno] == input[i].write
  {
    var kept := Kept(input, |input|, smallest, isBase);
    KeptMembers(input, |input|, smallest, isBase, input[i]);
    var q := input[i].seqno;
    if q in output {
      var e := Entry(q, output[q]);
      assert e in kept;
      KeptMembers(input, |input|, smallest, isBase, e);
      var k :| 0 <= k < |input| && input[k] == e && !Dropped(input, k, smallest, isBase);
      assert input[i].Entry? && input[k].Entry?;
      assert inputs[q] == input[i].write == input[k].write;
      assert k == i;
    }
    if !Dropped(input, i, smallest, isBase) {
      assert input[i] in kept;
      var k :| 0 <= k < |kept| && kept[k] == input[i];
      assert kept[k].Entry?;
    }
  }

  lemma OutputIsInput(input: seq<Input>, inputs: Run, output: Run, smallest: nat, isBase: UserKey -> bool, q: nat)
    requires Lists(input, inputs) && q in output
    requires Lists(Kept(input, |input|, smallest, isBase), output)
    ensures q in inputs && output[q] == inputs[q]
  {
    KeptMembers(input, |input|, smallest, isBase, Entry(q, output[q]));
    assert Entry(q, output[q]) in Kept(input, |input|, smallest, isBase);
    var k :| 0 <= k < |input| && input[k] == Entry(q, output[q]);
    assert input[k].Entry?;
  }

  /** With keys that do not parse the loop preserves meaning unless a bad key matters. */
  lemma MeaningKeptPastBadKeys(
    input: seq<Input>, inputs: Run, output: Run, others: Run, smallest: nat, isBase: UserKey -> bool,
    key: UserKey, s: nat)
    requires Sorted(input) && Lists(input, inputs)
    requires Lists(Kept(input, |input|, smallest, isBase), output)
    requires Disjoint(others, inputs) && BaseIsSound(others, inputs, isBase)
    requires smallest <= s && !BadKeyMatters(input, others, inputs, smallest, isBase)
    ensures ValueOf(Lookup(others + output, key, s)) == ValueOf(Lookup(others + inputs, key, s))
  {
    hide Lookup, Sorted, Lists, Kept, Dropped, Obsolete;
    var before, after := others + inputs, others + output;
    forall q | q in output
      ensures q in inputs && output[q] == inputs[q]
    {
      OutputIsInput(input, inputs, output, smallest, isBase, q);
    }
    LookupIsNewest(before, key, s);
    if Lookup(before, key, s).None? {
      LookupMisses(after, key, s);
    } else {
      var q :| q in before && q <= s && before[q].key == key && Lookup(before, key, s) == Some(before[q]) &&
               forall p :: p in before && p <= s && before[p].key == key ==> p <= q;
      if q in after {
        LookupGives(after, key, s, q);
      } else {
        DroppedNewestIsMarker(input, inputs, output, smallest, isBase, q, s);
        assert MarkerGoes(others, inputs, smallest, isBase, key, q);
        forall p | p in after && p <= s
          ensures after[p].key != key
        {
          if after[p].key == key {
            NothingKeptBehindMarker(input, inputs, output, others, smallest, isBase, key, q, p);
          }
        }
        LookupMisses(after, key, s);
      }
    }
  }

  lemma DroppedNewestIsMarker(
    input: seq<Input>, inputs: Run, output: Run, smallest: nat, isBase: UserKey -> bool, q: nat, s: nat)
    requires Sorted(input) && Lists(input, inputs) && Lists(Kept(input, |input|, smallest, isBase), output)
    requires q in inputs && q !in output && smallest <= s
    requires forall p :: p in inputs && p <= s && inputs[p].key == inputs[q].key ==> p <= q
    ensures inputs[q].value.None? && q <= smallest && isBase(inputs[q].key)
  {
    var i := EntryIndex(input, inputs, q);
    OutputEntry(input, inputs, output, smallest, isBase, i);
    DroppedIsObsolete(input, inputs, i, smallest, isBase);
  }

  lemma NothingKeptBehindMarker(
    input: seq<Input>, inputs: Run, output: Run, others: Run, smallest: nat, isBase: UserKey -> bool,
    key: UserKey, q: nat, p: nat)
    requires Sorted(input) && Lists(input, inputs) && Lists(Kept(input, |input|, smallest, isBase), output)
    requires Disjoint(others, inputs) && BaseIsSound(others, inputs, isBase)
    requires MarkerGoes(others, inputs, smallest, isBase, key, q)
    requires !BadKeyMatters(input, others, inputs, smallest, isBase)
    requires p in others + output && p < q && (p in output ==> p in inputs && output[p] == inputs[p])
    ensures (others + output)[p].key != key
  {
    if p in output && output[p].key == key {
      var j := EntryIndex(input, inputs, p);
      OutputEntry(input, inputs, output, smallest, isBase, j);
      KeptBehindMarker(input, others, inputs, smallest, isBase, j, q);
    }
  }

  /** Where a bad key matters, the deleted key comes back for a read at the smallest snapshot. */
  lemma BadKeyBringsBack(
    input: seq<Input>, inputs: Run, output: Run, others: Run, smallest: nat, isBase: UserKey -> bool, j: nat, q: nat)
    requires Sorted(input) && Lists(input, inputs)
    requires Lists(Kept(input, |input|, smallest, isBase), output)
    requires Disjoint(others, inputs) && BaseIsSound(others, inputs, isBase)
    requires j < |input| && BadKeyHidesValue(input, others, inputs, smallest, isBase, j, q)
    ensures
      var key := input[j].write.key;
      && ValueOf(Lookup(others + inputs, key, smallest)) == None
      && ValueOf(Lookup(others + output, key, smallest)) != None
  {
    hide Lookup, Sorted, Lists, Kept, Dropped;
    var key, p := input[j].write.key, input[j].seqno;
    var after := others + output;
    LookupGives(others + inputs, key, smallest, q);
    KeptBehindMarker(input, others, inputs, smallest, isBase, j, q);
    OutputEntry(input, inputs, output, smallest, isBase, j);
    assert p in after && after[p].key == key by { OutputIsInput(input, inputs, output, smallest, isBase, p); }
    LookupIsNewest(after, key, smallest);
    var n :| n in after && n <= smallest && after[n].key == key && Lookup(after, key, smallest) == Some(after[n]);
    VisibleAfterMarker(input, inputs, output, others, smallest, isBase, key, q, n);
  }

  /** What is left of the key at or below the smallest snapshot is a value. */
  lemma VisibleAfterMarker(
    input: seq<Input>, inputs: Run, output: Run, others: Run, smallest: nat, isBase: UserKey -> bool,
    key: UserKey, q: nat, n: nat)
    requires Sorted(input) && Lists(input, inputs) && Lists(Kept(input, |input|, smallest, isBase), output)
    requires Disjoint(others, inputs) && BaseIsSound(others, inputs, isBase)
    requires MarkerGoes(others, inputs, smallest, isBase, key, q)
    requires n in others + output && n <= smallest && (others + output)[n].key == key
    ensures (others + output)[n].value.Some?
  {
    hide Sorted, Lists, Kept;
    assert forall p :: p in others && p <= smallest ==> others[p].key != key by {
      forall p | p in others && p <= smallest
        ensures others[p].key != key
      {
        assert (others + inputs)[p] == others[p];
      }
    }
    if n in output {
      OutputIsInput(input, inputs, output, smallest, isBase, n);
      var j := EntryIndex(input, inputs, n);
      OutputEntry(input, inputs, output, smallest, isBase, j);
      assert (others + inputs)[n].key == key;
      if n < q {
        KeptBehindMarker(input, others, inputs, smallest, isBase, j, q);
      }
    }
  }

  /** Exactly when the loop preserves meaning on a sorted input, parseable or not: when no bad key stands
      right before an older value of a key whose newest visible entry is a marker that is dropped. */
  lemma LoopPreservesMeaningIff(
    input: seq<Input>, inputs: Run, output: Run, others: Run, smallest: nat, isBase: UserKey -> bool)
    requires Sorted(input) && Lists(input, inputs)
    requires Lists(Kept(input, |input|, smallest, isBase), output)
    requires Disjoint(others, inputs) && BaseIsSound(others, inputs, isBase)
    ensures SameReads(others + output, others + inputs, smallest)
            <==> !BadKeyMatters(input, others, inputs, smallest, isBase)
  {
    hide Sorted, Lists, Kept, Dropped, BaseIsSound, Disjoint, MarkerGoes;
    if BadKeyMatters(input, others, inputs, smallest, isBase) {
      var j: nat, q :| j < |input| && BadKeyHidesValue(input, others, inputs, smallest, isBase, j, q);
      BadKeyBringsBack(input, inputs, output, others, smallest, isBase, j, q);
    } else {
      forall key, s: nat | smallest <= s
        ensures ValueOf(Lookup(others + output, key, s)) == ValueOf(Lookup(others + inputs, key, s))
      {
        MeaningKeptPastBadKeys(input, inputs, output, others, smallest, isBase, key, s);
      }
    }
  }

  /** A key that does not parse resets the loop's memory: the marker at 2 is dropped, the value at 1
      behind the bad key is kept, and a deleted key comes back.  The bad key is an internal key of the same user
      key, with sequence number 1 and the unknown type 2, which the comparator puts between the two. */
  lemma CorruptKeyBringsBackDeletedKey(userKey: Bytes)
    ensures
      var value := Write(1.0, Some([7]));
      var bad := Corrupt(userKey + [2, 1, 0, 0, 0, 0, 0, 0]);
      var input := [Entry(2, Write(1.0, None)), bad, Entry(1, value)];
      && Sorted(input)
      && Kept(input, 3, 2, _ => true) == [bad, Entry(1, value)]
      && ValueOf(Lookup(map[1 := value, 2 := Write(1.0, None)], 1.0, 2)) == None
      && ValueOf(Lookup(map[1 := value], 1.0, 2)) == Some([7])
  {
    var value := Write(1.0, Some([7]));
    var isBase: UserKey -> bool := _ => true;
    var bad := Corrupt(userKey + [2, 1, 0, 0, 0, 0, 0, 0]);
    var input := [Entry(2, Write(1.0, None)), bad, Entry(1, value)];
    assert Kept(input, 1, 2, isBase) == [];
    assert Kept(input, 2, 2, isBase) == [bad];
    assert Kept(input, 3, 2, isBase) == [bad, Entry(1, value)];
    LookupGives(map[1 := value], 1.0, 2, 1);
  }
}
