/**
 nanopb's field descriptors, the cyclic field iterator and the tracking of required fields.
 */
module PbFields {

  datatype LType = Varint | UVarint | SVarint | Fixed32 | Fixed64 | BytesType | StringType | Submessage | Extension | FixedLengthBytes
  datatype Rule = Required | Optional | Repeated | Oneof
  datatype Alloc = Static | Pointer | Callback

  /** A field descriptor; a message type is a sequence of them, without the terminator of tag 0. */
  datatype Field = Field(
    tag: nat, ltype: LType, rule: Rule, alloc: Alloc,
    dataOffset: nat,          // from the end of the previous field; SIZE_MAX inside a union
    sizeOffset: int,          // of the has, count or which member, from the data
    dataSize: nat, arraySize: nat,
    sub: seq<Field>)

  const SIZE_MAX := 0xffff_ffff      // with PB_FIELD_32BIT
  const POINTER_SIZE := 8

  /** The field shares the union of the field before it. */
  predicate InUnion(fields: seq<Field>, i: nat)
    requires i < |fields|
  {
    i > 0 && fields[i - 1].rule == Oneof && fields[i].rule == Oneof && fields[i].dataOffset == SIZE_MAX
  }

  /** How much room a field takes up in the structure. */
  function Room(f: Field): nat {
    if f.alloc == Static && f.rule == Repeated then f.dataSize * f.arraySize
    else if f.alloc == Pointer then POINTER_SIZE
    else f.dataSize
  }

  // ----- where things are, as functions of the position -----

  function DataAt(fields: seq<Field>, i: nat): nat
    requires i < |fields|
  {
    if i == 0 then fields[0].dataOffset
    else if InUnion(fields, i) then DataAt(fields, i - 1)
    else DataAt(fields, i - 1) + Room(fields[i - 1]) + fields[i].dataOffset
  }

  function SizeAt(fields: seq<Field>, i: nat): int
    requires i < |fields|
  {
    if i > 0 && InUnion(fields, i) then SizeAt(fields, i - 1) else DataAt(fields, i) + fields[i].sizeOffset
  }

  function RequiredBefore(fields: seq<Field>, i: nat): nat
    requires i <= |fields|
  {
    if i == 0 then 0 else RequiredBefore(fields, i - 1) + if fields[i - 1].rule == Required then 1 else 0
  }

  predicate Matches(fields: seq<Field>, i: nat, tag: nat)
    requires i < |fields|
  {
    fields[i].tag == tag && fields[i].ltype != Extension
  }

  /** The position `k` steps on, going around. */
  function Around(fields: seq<Field>, start: nat, k: nat): (i: nat)
    requires start < |fields| && k <= |fields|
    ensures i < |fields|
  {
    if start + k < |fields| then start + k else start + k - |fields|
  }

  class FieldIter {
    const fields: seq<Field>
    var pos: nat
    var data: int
    var size: int
    var requiredIndex: nat

    /** Everything the iterator knows follows from its position. */
    ghost predicate Valid()
      reads this
    {
      if fields == [] then pos == 0 && requiredIndex == 0
      else
        && pos < |fields|
        && data == DataAt(fields, pos) && size == SizeAt(fields, pos)
        && requiredIndex == RequiredBefore(fields, pos)
    }

    constructor (fields: seq<Field>)
      ensures Valid() && this.fields == fields && pos == 0
    {
      this.fields := fields;
      new;
      var _ := Begin();
    }

    method Begin() returns (r: bool)
      modifies this
      ensures Valid() && pos == 0 && (r <==> fields != [])
    {
      pos := 0;
      requiredIndex := 0;
      if fields != [] {
        data := fields[0].dataOffset;
        size := data + fields[0].sizeOffset;
      }
      r := fields != [];
    }

    /** Steps on, back to the first field behind the last one. */
    method Next() returns (r: bool)
      requires Valid()
      modifies this
      ensures Valid()
      ensures fields == [] ==> !r
      ensures fields != [] ==> pos == Around(fields, old(pos), 1) && (r <==> old(pos) + 1 < |fields|)
    {
      if fields == [] {
        return false;
      }
      var prev := fields[pos];
      if pos + 1 == |fields| {
        var _ := Begin();
        return false;
      }
      pos := pos + 1;
      if prev.rule == Oneof && fields[pos].rule == Oneof && fields[pos].dataOffset == SIZE_MAX {
        return true;
      }
      var prevSize := prev.dataSize;
      if prev.alloc == Static && prev.rule == Repeated {
        prevSize := prevSize * prev.arraySize;
      } else if prev.alloc == Pointer {
        prevSize := POINTER_SIZE;
      }
      if prev.rule == Required {
        requiredIndex := requiredIndex + 1;
      }
      data := data + prevSize + fields[pos].dataOffset;
      size := data + fields[pos].sizeOffset;
      return true;
    }

    /** Looks for a tag from the current position on, once around; `steps` fields are passed. */
    method Find(tag: nat) returns (r: bool, ghost steps: nat)
      requires Valid()
      modifies this
      ensures Valid() && steps <= |fields|
      ensures fields == [] ==> (r <==> tag == 0)
      ensures fields != [] ==>
                && pos == Around(fields, old(pos), steps)
                && (r <==> exists i: nat :: i < |fields| && Matches(fields, i, tag))
                && (r <==> exists i: nat :: i < |fields| && fields[i].tag == tag && fields[i].ltype != Extension)
                && (r ==> Matches(fields, pos, tag))
                && (!r ==> pos == old(pos))
                && (forall k: nat :: k < steps ==> !Matches(fields, Around(fields, old(pos), k), tag))
    {
      steps := 0;
      if fields == [] {
        // the terminator itself, of tag 0, is what is looked at
        r := tag == 0;
        return;
      }
      var start := pos;
      while true
        invariant Valid() && start < |fields| && steps < |fields|
        invariant pos == Around(fields, start, steps)
        invariant forall k: nat :: k < steps ==> !Matches(fields, Around(fields, start, k), tag)
        decreases |fields| - steps
      {
        if fields[pos].tag == tag && fields[pos].ltype != Extension {
          assert Matches(fields, pos, tag);
          return true, steps;
        }
        var _ := Next();
        steps := steps + 1;
        if pos == start {
          AllVisited(fields, start, tag);
          assert forall i: nat :: i < |fields| ==> !(fields[i].tag == tag && fields[i].ltype != Extension) by {
            forall i: nat | i < |fields|
              ensures !(fields[i].tag == tag && fields[i].ltype != Extension)
            {
              assert !Matches(fields, i, tag);
            }
          }
          return false, steps;
        }
      }
    }

    /** The count of required fields, found by walking from here to the last field. */
    method CountRequired() returns (count: nat)
      requires Valid()
      modifies this
      ensures Valid() && pos == 0
      ensures count == RequiredBefore(fields, |fields|)
    {
      var lastRequired := true;      // the terminator's type byte reads as required
      count := 0;
      while true
        invariant Valid()
        decreases |fields| - pos
      {
        count := requiredIndex;
        if fields != [] {
          lastRequired := fields[pos].rule == Required;
        }
        ghost var was := pos;
        var more := Next();
        if !more {
          if lastRequired && fields != [] {
            count := count + 1;
          }
          return;
        }
      }
    }
  }

  lemma AllVisited(fields: seq<Field>, start: nat, tag: nat)
    requires start < |fields|
    requires forall k: nat :: k < |fields| ==> !Matches(fields, Around(fields, start, k), tag)
    ensures forall i: nat :: i < |fields| ==> !Matches(fields, i, tag)
  {
    forall i: nat | i < |fields|
      ensures !Matches(fields, i, tag)
    {
      var k := if i >= start then i - start else i + |fields| - start;
      assert Around(fields, start, k) == i;
    }
  }

  ghost predicate DistinctTags(fields: seq<Field>) {
    forall i, j :: 0 <= i < j < |fields| ==> fields[i].tag != fields[j].tag
  }

  // ----- required fields -----

  const MAX_REQUIRED_FIELDS := 64

  /** A 32-bit word, bit 0 first. */
  type Word = w: seq<bool> | |w| == 32 witness seq(32, _ => false)

  function AllBits(): Word {
    seq(32, _ => true)
  }

  /** `allbits >> (32 - m)`, which C defines for 1 <= m <= 32 only. */
  function LowBits(m: nat): Word
    requires 1 <= m <= 32
  {
    seq(32, i => i < m)
  }

  /** The words hold exactly the indices in `seen`. */
  ghost predicate Tracks(words: seq<Word>, seen: set<nat>) {
    |words| == 2 && forall q, b :: 0 <= q < 2 && 0 <= b < 32 ==> (words[q][b] <==> Index(q, b) in seen)
  }

  function Index(q: nat, b: nat): nat {
    32 * q + b
  }

  /** `fields_seen[index >> 5] |= 1 << (index & 31)`, for the first 64 required fields. */
  method MarkSeen(words: seq<Word>, index: nat, ghost seen: set<nat>) returns (words': seq<Word>)
    requires Tracks(words, seen)
    ensures Tracks(words', if index < MAX_REQUIRED_FIELDS then seen + {index} else seen)
  {
    words' := words;
    if index < MAX_REQUIRED_FIELDS {
      var q, b := index / 32, index % 32;
      words' := words[q := words[q][b := true]];
    }
  }

  /** The final check can be carried out: it must not shift by 32 nor look at a third word. */
  predicate Checkable(count: nat) {
    count < 64 && count != 32
  }

  /** The final check passes exactly when every required field was seen. */
  method CheckRequired(words: seq<Word>, count: nat, ghost seen: set<nat>) returns (ok: bool)
    requires Checkable(count) && Tracks(words, seen)
    requires forall k :: k in seen ==> k < count
    ensures ok <==> forall k: nat :: k < count ==> k in seen
  {
    if count == 0 {
      return true;
    }
    var i := 0;
    while i < count / 32
      invariant 0 <= i <= count / 32
      invariant forall k: nat :: k < 32 * i ==> k in seen
    {
      if words[i] != AllBits() {
        var b :| 0 <= b < 32 && !words[i][b];
        assert Index(i, b) !in seen;
        return false;
      }
      forall k: nat | 32 * i <= k < 32 * (i + 1)
        ensures k in seen
      {
        assert words[i][k - 32 * i];
        assert Index(i, k - 32 * i) == k;
      }
      i := i + 1;
    }
    var q, m := count / 32, count % 32;
    ok := words[q] == LowBits(m);
    LastWord(words, count, seen);
  }

  lemma LastWord(words: seq<Word>, count: nat, seen: set<nat>)
    requires Checkable(count) && count > 0 && Tracks(words, seen)
    requires forall k :: k in seen ==> k < count
    ensures words[count / 32] == LowBits(count % 32) <==>
            forall k: nat :: 32 * (count / 32) <= k < count ==> k in seen
  {
    var q, m := count / 32, count % 32;
    if words[q] == LowBits(m) {
      forall k: nat | 32 * q <= k < count
        ensures k in seen
      {
        assert words[q][k - 32 * q];
        assert Index(q, k - 32 * q) == k;
      }
    }
    if forall k: nat :: 32 * q <= k < count ==> k in seen {
      forall b | 0 <= b < 32
        ensures words[q][b] <==> b < m
      {
        assert words[q][b] <==> Index(q, b) in seen;
      }
    }
  }

  /** The required index identifies a required field. */
  lemma {:induction false} RequiredIndexGrows(fields: seq<Field>, i: nat, j: nat)
    requires i < j <= |fields| && fields[i].rule == Required
    ensures RequiredBefore(fields, i) < RequiredBefore(fields, j)
    decreases j
  {
    if i + 1 < j {
      RequiredIndexGrows(fields, i, j - 1);
    }
  }

  /** Every index below the count belongs to a required field. */
  lemma {:induction false} RequiredAt(fields: seq<Field>, n: nat, k: nat) returns (i: nat)
    requires n <= |fields| && k < RequiredBefore(fields, n)
    ensures i < n && fields[i].rule == Required && RequiredBefore(fields, i) == k
    decreases n
  {
    if fields[n - 1].rule == Required && RequiredBefore(fields, n - 1) == k {
      i := n - 1;
    } else {
      i := RequiredAt(fields, n - 1, k);
    }
  }

  /** Indices of the required fields at the given positions. */
  ghost predicate Indexes(fields: seq<Field>, positions: set<nat>, seen: set<nat>) {
    && (forall i :: i in positions ==> i < |fields| && fields[i].rule == Required && RequiredBefore(fields, i) in seen)
    && (forall k :: k in seen ==> Occurred(fields, positions, k))
  }

  ghost predicate Occurred(fields: seq<Field>, positions: set<nat>, k: nat) {
    exists i :: i in positions && i < |fields| && RequiredBefore(fields, i) == k
  }

  /** Every required field occurred exactly when every index below the count was seen, whatever the order
      and however often. */
  lemma TrackingIsExact(fields: seq<Field>, positions: set<nat>, seen: set<nat>)
    requires Indexes(fields, positions, seen)
    ensures (forall i: nat :: i < |fields| && fields[i].rule == Required ==> i in positions) <==>
            (forall k: nat :: k < RequiredBefore(fields, |fields|) ==> k in seen)
    ensures forall k :: k in seen ==> k < RequiredBefore(fields, |fields|)
  {
    hide RequiredBefore;
    var count := RequiredBefore(fields, |fields|);
    if forall i: nat :: i < |fields| && fields[i].rule == Required ==> i in positions {
      forall k: nat | k < count
        ensures k in seen
      {
        var i := RequiredAt(fields, |fields|, k);
      }
    }
    if forall k: nat :: k < count ==> k in seen {
      forall i: nat | i < |fields| && fields[i].rule == Required
        ensures i in positions
      {
        RequiredIndexGrows(fields, i, |fields|);
        SeenMeansPresent(fields, positions, seen, i);
      }
    }
    forall k | k in seen
      ensures k < count
    {
      assert Occurred(fields, positions, k);
      var i :| i in positions && i < |fields| && RequiredBefore(fields, i) == k;
      RequiredIndexGrows(fields, i, |fields|);
    }
  }

  lemma SeenMeansPresent(fields: seq<Field>, positions: set<nat>, seen: set<nat>, i: nat)
    requires Indexes(fields, positions, seen) && i < |fields| && fields[i].rule == Required
    requires RequiredBefore(fields, i) in seen
    ensures i in positions
  {
    hide RequiredBefore;
    assert Occurred(fields, positions, RequiredBefore(fields, i));
    var j :| j in positions && j < |fields| && RequiredBefore(fields, j) == RequiredBefore(fields, i);
    if i < j {
      RequiredIndexGrows(fields, i, j);
    } else if j < i {
      RequiredIndexGrows(fields, j, i);
    }
  }
}
