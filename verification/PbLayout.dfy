/**
 Where the field iterator stands in the structure.  The descriptor macros record distances between members;
 adding them up again gives the members' own offsets.
 */
module PbLayout {
  import opened PbFields

  /** A member of a C structure: its offset, its bytes, and the offset of its has, count or which member. */
  datatype Member = Member(offset: nat, bytes: nat, sizeMember: nat)

  /** The bytes of a member: a static array holds `arraySize` items behind one another, a pointer is a pointer. */
  ghost predicate HasBytes(f: Field, m: Member) {
    if f.alloc == Static && f.rule == Repeated then
      m.bytes == f.arraySize * f.dataSize
    else if f.alloc == Pointer then m.bytes == 8
    else m.bytes == f.dataSize
  }

  /** The member of a union behind another member of the same union. */
  ghost predicate SharesUnion(fields: seq<Field>, members: seq<Member>, i: nat)
    requires 0 < i < |fields| && |members| == |fields|
  {
    && fields[i - 1].rule == Oneof && fields[i].rule == Oneof && fields[i].dataOffset == 0xffff_ffff
    && members[i].offset == members[i - 1].offset && members[i].sizeMember == members[i - 1].sizeMember
  }

  /** The member stands behind the one before, and the descriptor holds the distance to its end. */
  ghost predicate StandsBehind(fields: seq<Field>, members: seq<Member>, i: nat)
    requires 0 < i < |fields| && |members| == |fields|
  {
    && !(fields[i - 1].rule == Oneof && fields[i].rule == Oneof && fields[i].dataOffset == 0xffff_ffff)
    && members[i].offset == members[i - 1].offset + members[i - 1].bytes + fields[i].dataOffset
    && fields[i].sizeOffset == members[i].sizeMember - members[i].offset
  }

  /** The descriptors that the macros make for a structure. */
  ghost predicate Describes(fields: seq<Field>, members: seq<Member>) {
    && |fields| == |members|
    && (forall i :: 0 <= i < |fields| ==> HasBytes(fields[i], members[i]))
    && (fields != [] ==>
          && fields[0].dataOffset == members[0].offset
          && fields[0].sizeOffset == members[0].sizeMember - members[0].offset)
    && (forall i :: 0 < i < |fields| ==> SharesUnion(fields, members, i) || StandsBehind(fields, members, i))
  }

  /** The iterator's data and size pointers point at the members, wherever it stands. */
  lemma {:induction false} PointersAreMembers(fields: seq<Field>, members: seq<Member>, i: nat)
    requires Describes(fields, members) && i < |fields|
    ensures DataAt(fields, i) == members[i].offset
    ensures SizeAt(fields, i) == members[i].sizeMember
    decreases i
  {
    if i > 0 {
      PointersAreMembers(fields, members, i - 1);
      assert HasBytes(fields[i - 1], members[i - 1]);
      assert SharesUnion(fields, members, i) || StandsBehind(fields, members, i);
    }
  }

  /** The iterator object itself: after any step it holds the addresses of the member it stands on. */
  method NextMember(iter: FieldIter, ghost members: seq<Member>) returns (more: bool)
    requires iter.Valid() && iter.fields != [] && Describes(iter.fields, members)
    modifies iter
    ensures iter.Valid() && iter.pos < |members|
    ensures iter.pos == if old(iter.pos) + 1 == |members| then 0 else old(iter.pos) + 1
    ensures more <==> old(iter.pos) + 1 < |members|
    ensures iter.data == members[iter.pos].offset && iter.size == members[iter.pos].sizeMember
  {
    more := iter.Next();
    PointersAreMembers(iter.fields, members, iter.pos);
  }

  // ----- the same without a structure at hand -----

  /** Item `k` of a field ends at or before `limit`. */
  ghost predicate ItemEnds(f: Field, start: nat, k: nat, limit: nat) {
    if f.alloc == Static && f.rule == Repeated then start + k * f.dataSize + f.dataSize <= limit
    else if f.alloc == Pointer then start + 8 <= limit
    else start + f.dataSize <= limit
  }

  lemma {:induction false} DataGrows(fields: seq<Field>, i: nat, j: nat)
    requires i <= j < |fields|
    ensures DataAt(fields, i) <= DataAt(fields, j)
    decreases j
  {
    if i < j {
      DataGrows(fields, i, j - 1);
    }
  }

  lemma ItemInArray(k: nat, n: nat, size: nat)
    requires k < n
    ensures k * size + size <= size * n
  {
    assert (k + 1) * size <= n * size;
  }

  /** No item of a field reaches into a later one, unless they are joined through a union. */
  lemma ItemsDoNotOverlap(fields: seq<Field>, i: nat, j: nat, k: nat)
    requires i < j < |fields| && !InUnion(fields, i + 1)
    requires fields[i].rule == Repeated ==> k < fields[i].arraySize
    ensures ItemEnds(fields[i], DataAt(fields, i), k, DataAt(fields, j))
  {
    DataGrows(fields, i + 1, j);
    if fields[i].alloc == Static && fields[i].rule == Repeated {
      ItemInArray(k, fields[i].arraySize, fields[i].dataSize);
    }
  }

  /** The gap behind a field, to the next one that shares no union with it, is what the next descriptor says;
      the members of a union start at one address and have one which member. */
  lemma Neighbours(fields: seq<Field>, i: nat)
    requires i + 1 < |fields|
    ensures
      var f, here, next := fields[i], DataAt(fields, i), DataAt(fields, i + 1);
      if InUnion(fields, i + 1) then next == here && SizeAt(fields, i + 1) == SizeAt(fields, i)
      else
        && next - here - fields[i + 1].dataOffset ==
           (if f.alloc == Static && f.rule == Repeated then f.arraySize * f.dataSize
            else if f.alloc == Pointer then 8 else f.dataSize)
        && SizeAt(fields, i + 1) - next == fields[i + 1].sizeOffset
  {
  }

  /** Three items of four bytes at offset 4: the next member stands at 16. */
  lemma BehindAnArray()
    ensures
      var a := Field(1, Varint, Repeated, Static, 4, -4, 4, 3, []);
      var b := Field(2, Varint, Required, Static, 0, 0, 4, 0, []);
      DataAt([a, b], 0) == 4 && SizeAt([a, b], 0) == 0 && DataAt([a, b], 1) == 16
  {
  }
}
