/**
 Versions: the table files that together hold everything flushed so far, in the order in which a
 lookup visits them.  Placement in levels is represented by this order alone; what the level
 structure guarantees about it appears as the placement conditions below.
 */
module Tables {
  import opened ByteStrings
  import opened Versions
  import opened Compaction

  datatype File = File(number: nat, run: Run)

  function Runs(files: seq<File>): (runs: seq<Run>)
    ensures |runs| == |files|
    ensures forall i :: 0 <= i < |files| ==> runs[i] == files[i].run
  {
    seq(|files|, i requires 0 <= i < |files| => files[i].run)
  }

  function Min(a: nat, b: nat): nat {
    if a < b then a else b
  }

  ghost predicate FilesOk(files: seq<File>, history: seq<Write>, top: nat) {
    && top <= |history|
    && (forall f :: f in files ==> FromHistory(f.run, history))
    && (forall f, q :: f in files && q in f.run ==> q <= top)
    && NewestFirst(Runs(files))
  }

  /** Reads at or above `floor` give what the history says, as far as it was flushed. */
  ghost predicate Faithful(files: seq<File>, history: seq<Write>, top: nat, floor: nat)
    requires top <= |history|
  {
    forall key, s: nat :: floor <= s ==>
      ValueOf(Layered(Runs(files), key, s)) == At(history, key, Min(s, top))
  }

  ghost predicate TablesOk(files: seq<File>, history: seq<Write>, top: nat, floor: nat) {
    FilesOk(files, history, top) && Faithful(files, history, top, floor)
  }

  ghost predicate NoSharedKey(a: Run, b: Run) {
    forall p, q :: p in a && q in b ==> a[p].key != b[q].key
  }

  function Insert(files: seq<File>, p: nat, f: File): seq<File>
    requires p <= |files|
  {
    files[..p] + [f] + files[p..]
  }

  ghost predicate InOrder(files: seq<File>, p: nat, run: Run)
    requires p <= |files|
  {
    && (forall i :: 0 <= i < p ==> Newer(files[i].run, run))
    && (forall i :: p <= i < |files| ==> Newer(run, files[i].run))
  }

  // ----- unions of files -----

  ghost function All(files: seq<File>): Run {
    Union(Runs(files))
  }

  ghost predicate Holds(files: seq<File>, q: nat) {
    exists f :: f in files && q in f.run
  }

  lemma SameEntries(a: Run, b: Run, history: seq<Write>)
    requires FromHistory(a, history) && FromHistory(b, history)
    requires forall q :: q in a <==> q in b
    ensures a == b
  {
  }

  lemma AllMembers(files: seq<File>, history: seq<Write>)
    requires forall f :: f in files ==> FromHistory(f.run, history)
    ensures FromHistory(All(files), history)
    ensures forall q :: q in All(files) <==> Holds(files, q)
  {
    var runs := Runs(files);
    forall i | 0 <= i < |runs|
      ensures FromHistory(runs[i], history)
    {
      assert files[i] in files;
    }
    UnionMembers(runs, history);
    forall q
      ensures q in All(files) <==> Holds(files, q)
    {
      if i :| 0 <= i < |runs| && q in runs[i] {
        assert files[i] in files && q in files[i].run;
      }
      if f :| f in files && q in f.run {
        var i :| 0 <= i < |files| && files[i] == f;
        assert q in runs[i];
      }
    }
  }

  lemma ReadsAll(files: seq<File>, history: seq<Write>, top: nat, key: UserKey, s: nat)
    requires FilesOk(files, history, top)
    ensures Layered(Runs(files), key, s) == Lookup(All(files), key, s)
  {
    forall i | 0 <= i < |Runs(files)|
      ensures FromHistory(Runs(files)[i], history)
    {
      assert files[i] in files;
    }
    LayeredIsUnion(Runs(files), history, key, s);
  }

  lemma InsertedMembers(files: seq<File>, p: nat, f: File)
    requires p <= |files|
    ensures forall g :: g in Insert(files, p, f) <==> g in files || g == f
  {
    assert files == files[..p] + files[p..];
  }

  lemma AllInserted(files: seq<File>, p: nat, f: File, history: seq<Write>)
    requires p <= |files|
    requires forall g :: g in files ==> FromHistory(g.run, history)
    requires FromHistory(f.run, history)
    ensures All(Insert(files, p, f)) == All(files) + f.run
  {
    hide All, Insert, Holds;
    var files' := Insert(files, p, f);
    InsertedMembers(files, p, f);
    AllMembers(files, history);
    AllMembers(files', history);
    HoldsInserted(files, p, f);
    SameEntries(All(files'), All(files) + f.run, history);
  }

  lemma HoldsInserted(files: seq<File>, p: nat, f: File)
    requires p <= |files|
    ensures forall q :: Holds(Insert(files, p, f), q) <==> Holds(files, q) || q in f.run
  {
    hide Insert;
    InsertedMembers(files, p, f);
    forall q
      ensures Holds(Insert(files, p, f), q) <==> Holds(files, q) || q in f.run
    {
      if q in f.run {
        assert f in Insert(files, p, f);
      }
    }
  }

  lemma InsertInOrder(files: seq<File>, p: nat, f: File)
    requires p <= |files| && NewestFirst(Runs(files)) && InOrder(files, p, f.run)
    ensures NewestFirst(Runs(Insert(files, p, f)))
  {
    var files' := Insert(files, p, f);
    var runs, runs' := Runs(files), Runs(files');
    forall i, j | 0 <= i < j < |runs'|
      ensures Newer(runs'[i], runs'[j])
    {
      if i == p {
        assert runs'[j] == files[j - 1].run;
      } else if j == p {
        assert runs'[i] == files[i].run;
      } else {
        var i', j' := if i < p then i else i - 1, if j < p then j else j - 1;
        assert runs'[i] == runs[i'] && runs'[j] == runs[j'];
      }
    }
  }

  // ----- flushing the next slice of the history -----

  lemma FlushedOrder(files: seq<File>, history: seq<Write>, lo: nat, hi: nat, p: nat)
    requires FilesOk(files, history, lo) && lo <= hi <= |history| && p <= |files|
    requires forall i :: 0 <= i < p ==> NoSharedKey(files[i].run, Slice(history, lo, hi))
    ensures InOrder(files, p, Slice(history, lo, hi))
  {
    forall i | 0 <= i < |files|
      ensures Newer(Slice(history, lo, hi), files[i].run)
    {
      assert files[i] in files;
    }
  }

  lemma FlushedLookup(all: Run, history: seq<Write>, lo: nat, hi: nat, key: UserKey, s: nat)
    requires lo <= hi <= |history| && FromHistory(all, history)
    requires forall q :: q in all ==> q <= lo
    requires ValueOf(Lookup(all, key, s)) == At(history, key, Min(s, lo))
    ensures ValueOf(Lookup(all + Slice(history, lo, hi), key, s)) == At(history, key, Min(s, hi))
  {
    var run := Slice(history, lo, hi);
    var s' := Min(s, hi);
    SliceLookup(history, lo, hi, key, s');
    if hi < s {
      LookupCapped(run, key, hi, s);
    }
    LookupIsNewest(run, key, s);
    if Lookup(run, key, s).Some? {
      var q :| q in run && q <= s && run[q].key == key && Lookup(run, key, s) == Some(run[q]) &&
               forall p :: p in run && p <= s && run[p].key == key ==> p <= q;
      LookupGives(all + run, key, s, q);
    } else {
      LookupIgnores(all, run, key, s);
    }
  }

  /** Writing out the memtable: the next slice of the history joins the files, above everything that
      knows one of its keys. */
  lemma FlushKeepsTables(files: seq<File>, number: nat, history: seq<Write>, lo: nat, hi: nat, floor: nat, p: nat)
    requires TablesOk(files, history, lo, floor) && lo <= hi <= |history| && p <= |files|
    requires forall i :: 0 <= i < p ==> NoSharedKey(files[i].run, Slice(history, lo, hi))
    ensures TablesOk(Insert(files, p, File(number, Slice(history, lo, hi))), history, hi, floor)
  {
    var f := File(number, Slice(history, lo, hi));
    var files' := Insert(files, p, f);
    FlushedOrder(files, history, lo, hi, p);
    InsertInOrder(files, p, f);
    InsertedMembers(files, p, f);
    assert FilesOk(files', history, hi);
    AllInserted(files, p, f, history);
    AllMembers(files, history);
    forall key, s: nat | floor <= s
      ensures ValueOf(Layered(Runs(files'), key, s)) == At(history, key, Min(s, hi))
    {
      ReadsAll(files, history, lo, key, s);
      ReadsAll(files', history, hi, key, s);
      FlushedLookup(All(files), history, lo, hi, key, s);
    }
  }

  // ----- replacing the inputs of a compaction -----

  function Without(files: seq<File>, numbers: set<nat>): seq<File> {
    if files == [] then []
    else (if files[0].number in numbers then [] else [files[0]]) + Without(files[1..], numbers)
  }

  function Only(files: seq<File>, numbers: set<nat>): seq<File> {
    if files == [] then []
    else (if files[0].number in numbers then [files[0]] else []) + Only(files[1..], numbers)
  }

  lemma {:induction false} WithoutMembers(files: seq<File>, numbers: set<nat>)
    ensures forall f :: f in Without(files, numbers) <==> f in files && f.number !in numbers
    ensures forall f :: f in Only(files, numbers) <==> f in files && f.number in numbers
  {
    if files != [] {
      WithoutMembers(files[1..], numbers);
      assert files == [files[0]] + files[1..];
    }
  }

  lemma {:induction false} WithoutOrder(files: seq<File>, numbers: set<nat>)
    requires NewestFirst(Runs(files))
    ensures NewestFirst(Runs(Without(files, numbers)))
  {
    if files != [] {
      var rest := files[1..];
      var w := Without(rest, numbers);
      assert NewestFirst(Runs(rest)) by { TailOrder(files); }
      WithoutOrder(rest, numbers);
      if files[0].number !in numbers {
        assert Without(files, numbers) == Insert(w, 0, files[0]);
        forall i | 0 <= i < |w|
          ensures Newer(files[0].run, w[i].run)
        {
          WithoutMembers(rest, numbers);
          assert w[i] in w;
          var j :| 0 <= j < |rest| && rest[j] == w[i];
          assert Newer(Runs(files)[0], Runs(files)[j + 1]);
        }
        InsertInOrder(w, 0, files[0]);
      } else {
        assert Without(files, numbers) == w;
      }
    }
  }

  lemma TailOrder(files: seq<File>)
    requires files != [] && NewestFirst(Runs(files))
    ensures NewestFirst(Runs(files[1..]))
  {
    var rest := files[1..];
    forall i, j | 0 <= i < j < |rest|
      ensures Newer(Runs(rest)[i], Runs(rest)[j])
    {
      assert Newer(Runs(files)[i + 1], Runs(files)[j + 1]);
    }
  }

  ghost function Inputs(files: seq<File>, numbers: set<nat>): Run {
    All(Only(files, numbers))
  }

  lemma SplitAll(files: seq<File>, numbers: set<nat>, history: seq<Write>, top: nat)
    requires FilesOk(files, history, top)
    ensures FromHistory(Inputs(files, numbers), history)
    ensures FromHistory(All(Without(files, numbers)), history)
    ensures All(files) == All(Without(files, numbers)) + Inputs(files, numbers)
  {
    hide All, Holds, Without, Only;
    WithoutMembers(files, numbers);
    AllMembers(files, history);
    AllMembers(Without(files, numbers), history);
    AllMembers(Only(files, numbers), history);
    HoldsSplit(files, numbers);
    SameEntries(All(files), All(Without(files, numbers)) + Inputs(files, numbers), history);
  }

  lemma HoldsSplit(files: seq<File>, numbers: set<nat>)
    ensures forall q :: Holds(files, q) <==> Holds(Without(files, numbers), q) || Holds(Only(files, numbers), q)
  {
    hide Without, Only;
    WithoutMembers(files, numbers);
  }

  /** The files that stay after a compaction of `numbers`, with its output put at place `p`. */
  ghost function Compacted(
    files: seq<File>, numbers: set<nat>, smallest: nat, isBase: UserKey -> bool, p: nat, number: nat): seq<File>
    requires p <= |Without(files, numbers)|
  {
    Insert(Without(files, numbers), p, File(number, Retained(Inputs(files, numbers), smallest, isBase)))
  }

  lemma RetainedOrder(files: seq<File>, p: nat, inputs: Run, smallest: nat, isBase: UserKey -> bool)
    requires p <= |files| && InOrder(files, p, inputs)
    ensures InOrder(files, p, Retained(inputs, smallest, isBase))
  {
  }

  lemma OrderMeansDisjoint(files: seq<File>, p: nat, inputs: Run, history: seq<Write>)
    requires p <= |files| && InOrder(files, p, inputs)
    requires FromHistory(inputs, history) && forall f :: f in files ==> FromHistory(f.run, history)
    ensures Disjoint(All(files), inputs)
  {
    AllMembers(files, history);
    forall q | q in All(files)
      ensures q !in inputs
    {
      var f :| f in files && q in f.run;
      var i :| 0 <= i < |files| && files[i] == f;
      if i < p {
        assert Newer(files[i].run, inputs);
      } else {
        assert Newer(inputs, files[i].run);
      }
    }
  }

  lemma InputsBelow(files: seq<File>, numbers: set<nat>, history: seq<Write>, top: nat)
    requires FilesOk(files, history, top)
    ensures forall q :: q in Inputs(files, numbers) ==> q <= top
  {
    hide All, Only;
    WithoutMembers(files, numbers);
    AllMembers(Only(files, numbers), history);
  }

  lemma CompactedFilesOk(
    files: seq<File>, numbers: set<nat>, smallest: nat, isBase: UserKey -> bool, p: nat, number: nat,
    history: seq<Write>, top: nat)
    requires FilesOk(files, history, top)
    requires p <= |Without(files, numbers)|
    requires InOrder(Without(files, numbers), p, Inputs(files, numbers))
    ensures FilesOk(Compacted(files, numbers, smallest, isBase, p, number), history, top)
  {
    hide All, Without, Only, Inputs, Insert;
    var rest, inputs := Without(files, numbers), Inputs(files, numbers);
    var f := File(number, Retained(inputs, smallest, isBase));
    WithoutMembers(files, numbers);
    WithoutOrder(files, numbers);
    SplitAll(files, numbers, history, top);
    InputsBelow(files, numbers, history, top);
    RetainedOrder(rest, p, inputs, smallest, isBase);
    InsertInOrder(rest, p, f);
    InsertedMembers(rest, p, f);
  }

  /** Installing the output of a compaction. */
  lemma CompactionKeepsTables(
    files: seq<File>, numbers: set<nat>, smallest: nat, isBase: UserKey -> bool, p: nat, number: nat,
    history: seq<Write>, top: nat, floor: nat)
    requires TablesOk(files, history, top, floor)
    requires p <= |Without(files, numbers)|
    requires InOrder(Without(files, numbers), p, Inputs(files, numbers))
    requires BaseIsSound(All(Without(files, numbers)), Inputs(files, numbers), isBase)
    requires smallest <= floor
    ensures TablesOk(Compacted(files, numbers, smallest, isBase, p, number), history, top, floor)
  {
    hide All, Without, Only, Inputs, Insert, InOrder, BaseIsSound, Retained;
    var rest, inputs := Without(files, numbers), Inputs(files, numbers);
    var f := File(number, Retained(inputs, smallest, isBase));
    var files' := Compacted(files, numbers, smallest, isBase, p, number);
    CompactedFilesOk(files, numbers, smallest, isBase, p, number, history, top);
    SplitAll(files, numbers, history, top);
    assert FromHistory(f.run, history) by { InsertedMembers(rest, p, f); }
    assert forall g :: g in rest ==> FromHistory(g.run, history) by { WithoutMembers(files, numbers); }
    AllInserted(rest, p, f, history);
    OrderMeansDisjoint(rest, p, inputs, history);
    forall key, s: nat | floor <= s
      ensures ValueOf(Layered(Runs(files'), key, s)) == At(history, key, Min(s, top))
    {
      ReadsAll(files, history, top, key, s);
      ReadsAll(files', history, top, key, s);
      CompactionPreservesMeaning(All(rest), inputs, smallest, isBase, key, s);
    }
  }

  // ----- the rest of the world moves on -----

  lemma TablesSurviveGrowth(files: seq<File>, history: seq<Write>, more: seq<Write>, top: nat, floor: nat, floor': nat)
    requires TablesOk(files, history, top, floor) && floor <= floor'
    ensures TablesOk(files, history + more, top, floor')
  {
    forall key, s: nat | floor' <= s
      ensures ValueOf(Layered(Runs(files), key, s)) == At(history + more, key, Min(s, top))
    {
      PastIsFixed(history, more, key, Min(s, top));
    }
  }
}
