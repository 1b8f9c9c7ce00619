/**
 The versioned map that the store implements, and lookups in runs of entries.

 A user key is represented by its place in the user comparator's order.  Byte strings are countable,
 so every total order on them embeds in the rationals: `real` loses nothing but the bytes of keys
 that the comparator calls equal.
 */
module Versions {
  import opened ByteStrings

  type UserKey = real

  /** One operation: a put, or a deletion marker when there is no value. */
  datatype Write = Write(key: UserKey, value: Option<Bytes>)

  /** The specification: `history[i]` is the operation with sequence number `i + 1`; the value of a
      key at sequence number `s` is what its last operation numbered at most `s` left behind. */
  function At(history: seq<Write>, key: UserKey, s: nat): Option<Bytes>
    requires s <= |history|
  {
    if s == 0 then None
    else if history[s - 1].key == key then history[s - 1].value
    else At(history, key, s - 1)
  }

  /** The contents of a memtable or table: sequence number to operation. */
  type Run = map<nat, Write>

  /** What a run says about a key at a sequence number: nothing, or the operation found by seeking to
      the newest entry of the key numbered at most `s`. */
  function Lookup(run: Run, key: UserKey, s: nat): Option<Write> {
    if s in run && run[s].key == key then Some(run[s])
    else if s == 0 then None
    else Lookup(run, key, s - 1)
  }

  function ValueOf(found: Option<Write>): Option<Bytes> {
    if found.None? then None else found.value.value
  }

  /** Looking through runs in order, stopping at the first one that knows the key. */
  function Layered(runs: seq<Run>, key: UserKey, s: nat): Option<Write> {
    if runs == [] then None
    else
      var found := Lookup(runs[0], key, s);
      if found.Some? then found else Layered(runs[1..], key, s)
  }

  ghost predicate HasKey(run: Run, key: UserKey) {
    exists q :: q in run && run[q].key == key
  }

  /** Where both runs know a key, everything in `a` is newer than everything in `b`. */
  ghost predicate Newer(a: Run, b: Run) {
    forall p, q :: p in a && q in b && a[p].key == b[q].key ==> q < p
  }

  ghost predicate NewestFirst(runs: seq<Run>) {
    forall i, j :: 0 <= i < j < |runs| ==> Newer(runs[i], runs[j])
  }

  ghost predicate FromHistory(run: Run, history: seq<Write>) {
    forall q :: q in run ==> 0 < q <= |history| && run[q] == history[q - 1]
  }

  /** The operation with sequence number `q`. */
  function Numbered(history: seq<Write>, q: nat): Write
    requires 0 < q <= |history|
  {
    history[q - 1]
  }

  /** The operations numbered above `lo` and at most `hi`. */
  function Slice(history: seq<Write>, lo: nat, hi: nat): (run: Run)
    requires lo <= hi <= |history|
    ensures forall q :: q in run <==> lo < q <= hi
    ensures forall q :: q in run ==> run[q] == history[q - 1]
  {
    map q: nat | lo < q <= hi :: Numbered(history, q)
  }

  // ----- lemmas about lookups -----

  /** `Lookup` finds the newest entry of the key. */
  lemma {:induction false} LookupIsNewest(run: Run, key: UserKey, s: nat)
    ensures Lookup(run, key, s).Some? ==>
              exists q :: q in run && q <= s && run[q].key == key && Lookup(run, key, s) == Some(run[q]) &&
                          forall p :: p in run && p <= s && run[p].key == key ==> p <= q
    ensures Lookup(run, key, s).None? ==> forall p :: p in run && p <= s ==> run[p].key != key
    decreases s
  {
    if s in run && run[s].key == key {
    } else if s > 0 {
      LookupIsNewest(run, key, s - 1);
    }
  }

  /** A lookup is settled by its newest entry. */
  lemma {:induction false} LookupGives(run: Run, key: UserKey, s: nat, q: nat)
    requires q in run && q <= s && run[q].key == key
    requires forall p :: p in run && p <= s && run[p].key == key ==> p <= q
    ensures Lookup(run, key, s) == Some(run[q])
    decreases s
  {
    if q < s {
      LookupGives(run, key, s - 1, q);
    }
  }

  lemma {:induction false} LookupMisses(run: Run, key: UserKey, s: nat)
    requires forall p :: p in run && p <= s ==> run[p].key != key
    ensures Lookup(run, key, s) == None
    decreases s
  {
    if s > 0 {
      LookupMisses(run, key, s - 1);
    }
  }

  /** Nothing above `hi` in the run: reading later than `hi` is reading at `hi`. */
  lemma {:induction false} LookupCapped(run: Run, key: UserKey, hi: nat, s: nat)
    requires forall q :: q in run ==> q <= hi
    requires hi <= s
    ensures Lookup(run, key, s) == Lookup(run, key, hi)
    decreases s
  {
    if hi < s {
      LookupCapped(run, key, hi, s - 1);
    }
  }

  /** Two runs that agree up to `s` give the same answer at `s`. */
  lemma {:induction false} LookupAgrees(a: Run, b: Run, key: UserKey, s: nat)
    requires forall q :: q <= s ==> (q in a <==> q in b)
    requires forall q :: q <= s && q in a ==> a[q] == b[q]
    ensures Lookup(a, key, s) == Lookup(b, key, s)
    decreases s
  {
    if s > 0 {
      LookupAgrees(a, b, key, s - 1);
    }
  }

  /** A contiguous slice either settles the question or sends it below its lower end. */
  lemma {:induction false} SliceLookup(history: seq<Write>, lo: nat, hi: nat, key: UserKey, s: nat)
    requires lo <= hi <= |history| && s <= hi
    ensures
      var found := Lookup(Slice(history, lo, hi), key, s);
      At(history, key, s) ==
      if found.Some? then found.value.value else At(history, key, if s < lo then s else lo)
    decreases s
  {
    if s == 0 {
    } else if s <= lo {
      LookupMisses(Slice(history, lo, hi), key, s);
    } else if history[s - 1].key != key {
      SliceLookup(history, lo, hi, key, s - 1);
    }
  }

  /** Growing the history does not change the past. */
  lemma {:induction false} PastIsFixed(history: seq<Write>, more: seq<Write>, key: UserKey, s: nat)
    requires s <= |history|
    ensures At(history + more, key, s) == At(history, key, s)
    decreases s
  {
    if s > 0 {
      PastIsFixed(history, more, key, s - 1);
    }
  }

  // ----- layers against their union -----

  function Union(runs: seq<Run>): Run {
    if runs == [] then map[] else Union(runs[1..]) + runs[0]
  }

  lemma {:induction false} UnionMembers(runs: seq<Run>, history: seq<Write>)
    requires forall i :: 0 <= i < |runs| ==> FromHistory(runs[i], history)
    ensures FromHistory(Union(runs), history)
    ensures forall q :: q in Union(runs) <==> exists i :: 0 <= i < |runs| && q in runs[i]
  {
    if runs != [] {
      UnionMembers(runs[1..], history);
      forall q
        ensures q in Union(runs) <==> exists i :: 0 <= i < |runs| && q in runs[i]
      {
        if q in Union(runs[1..]) {
          var i :| 0 <= i < |runs[1..]| && q in runs[1..][i];
          assert q in runs[i + 1];
        }
        if i :| 0 <= i < |runs| && q in runs[i] {
          if i > 0 {
            assert runs[i] == runs[1..][i - 1];
          }
        }
      }
    }
  }

  /** Stopping at the first run that knows the key is reading the newest entry of all runs, because
      the runs are ordered newest first per key. */
  lemma {:induction false} LayeredIsUnion(runs: seq<Run>, history: seq<Write>, key: UserKey, s: nat)
    requires NewestFirst(runs)
    requires forall i :: 0 <= i < |runs| ==> FromHistory(runs[i], history)
    ensures Layered(runs, key, s) == Lookup(Union(runs), key, s)
  {
    if runs == [] {
      LookupMisses(Union(runs), key, s);
    } else {
      var rest := runs[1..];
      LayeredIsUnion(rest, history, key, s);
      UnionMembers(rest, history);
      UnionMembers(runs, history);
      LookupIsNewest(runs[0], key, s);
      if Lookup(runs[0], key, s).Some? {
        var q :| q in runs[0] && q <= s && runs[0][q].key == key && Lookup(runs[0], key, s) == Some(runs[0][q]) &&
                 forall p :: p in runs[0] && p <= s && runs[0][p].key == key ==> p <= q;
        forall p | p in Union(runs) && p <= s && Union(runs)[p].key == key
          ensures p <= q
        {
          if p !in runs[0] {
            var i :| 0 <= i < |rest| && p in rest[i];
            assert Newer(runs[0], runs[i + 1]);
            assert p in runs[i + 1] && runs[i + 1][p].key == key;
          }
        }
        LookupGives(Union(runs), key, s, q);
      } else {
        LookupIgnores(Union(rest), runs[0], key, s);
      }
    }
  }

  /** Entries of a run that has no entry of the key do not matter. */
  lemma {:induction false} LookupIgnores(a: Run, b: Run, key: UserKey, s: nat)
    requires forall q :: q in b && q <= s ==> b[q].key != key
    requires forall q :: q in a && q in b ==> a[q] == b[q]
    ensures Lookup(a + b, key, s) == Lookup(a, key, s)
    decreases s
  {
    if s > 0 {
      LookupIgnores(a, b, key, s - 1);
    }
  }
}
