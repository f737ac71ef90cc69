/** The memory of a talloc pool (talloc/talloc.c): chunks are bumped off its end, and given back in simple cases. */
module TallocPool {
  import opened Basics

  /** TC_HDR_SIZE and TP_HDR_SIZE, on 64-bit hosts. */
  const TC_HDR_SIZE: nat := 96
  const TP_HDR_SIZE: nat := 32

  /** TC_ALIGN16. */
  function Align16(x: nat): (r: nat)
    ensures x <= r < x + 16 && r % 16 == 0
  {
    (x + 15) / 16 * 16
  }

  /** A chunk in a pool: the bytes put before its header (a nested pool has its own header there), its `size` field,
  and the bytes it was given from its start on.  The size field of a nested pool says less than what it was given. */
  datatype Member = Member(prefix: nat, size: nat, span: nat)

  type Members = map<nat, Member>

  /** From the chunk header on: tc_next_chunk(tc) - tc. */
  function ChunkSize(size: nat): nat {
    Align16(TC_HDR_SIZE + size)
  }

  ghost predicate MemberOk(tc: nat, m: Member, first: nat, end: nat) {
    && tc % 16 == 0 && m.prefix % 16 == 0 && m.span % 16 == 0
    && m.prefix <= tc
    && first <= tc - m.prefix && tc - m.prefix + m.span <= end
    && m.prefix + ChunkSize(m.size) <= m.span
  }

  ghost predicate Apart(a: nat, m: Member, b: nat, n: Member) {
    a - m.prefix + m.span <= b - n.prefix || b - n.prefix + n.span <= a - m.prefix
  }

  ghost predicate MembersOk(members: Members, first: nat, end: nat) {
    && (forall tc :: tc in members ==> MemberOk(tc, members[tc], first, end))
    && (forall a, b :: a in members && b in members && a != b ==> Apart(a, members[a], b, members[b]))
  }

  // ----- What a change of members keeps -----

  lemma Extended(members: Members, first: nat, end: nat, tc: nat, m: Member)
    requires MembersOk(members, first, end) && end % 16 == 0 && first <= end
    requires tc == end + m.prefix && m.prefix % 16 == 0 && m.span % 16 == 0 && m.prefix + ChunkSize(m.size) <= m.span
    ensures tc !in members
    ensures MembersOk(members[tc := m], first, end + m.span)
  {
    assert tc in members ==> MemberOk(tc, members[tc], first, end);
    var members' := members[tc := m];
    forall a | a in members' ensures MemberOk(a, members'[a], first, end + m.span) {
      assert a != tc ==> MemberOk(a, members[a], first, end);
    }
    forall a, b | a in members' && b in members' && a != b ensures Apart(a, members'[a], b, members'[b]) {
      assert a != tc ==> MemberOk(a, members[a], first, end);
      assert b != tc ==> MemberOk(b, members[b], first, end);
      assert a != tc && b != tc ==> Apart(a, members[a], b, members[b]);
    }
  }

  lemma Removed(members: Members, first: nat, end: nat, tc: nat)
    requires MembersOk(members, first, end) && tc in members
    ensures MembersOk(members - {tc}, first, end)
    ensures |members - {tc}| == |members| - 1
  {
    assert (members - {tc}).Keys == members.Keys - {tc};
    assert |members - {tc}| == |(members - {tc}).Keys|;
    assert |members| == |members.Keys|;
  }

  /** The last chunk: nothing lies behind it, so it can be given back, shrunk or grown. */
  lemma LastChunk(members: Members, first: nat, end: nat, tc: nat)
    requires MembersOk(members, first, end) && tc in members && tc + ChunkSize(members[tc].size) == end
    ensures MembersOk(members - {tc}, first, tc - members[tc].prefix)
    ensures MembersOk(members - {tc}, first, tc)
    ensures members[tc].span == members[tc].prefix + ChunkSize(members[tc].size)
    ensures first <= tc - members[tc].prefix
  {
    assert MemberOk(tc, members[tc], first, end);
    var rest := members - {tc};
    forall a | a in rest ensures MemberOk(a, rest[a], first, tc - members[tc].prefix) {
      assert MemberOk(a, members[a], first, end);
      assert Apart(a, members[a], tc, members[tc]);
    }
    forall a | a in rest ensures MemberOk(a, rest[a], first, tc) {
      assert MemberOk(a, rest[a], first, tc - members[tc].prefix);
    }
  }

  /** Its size changed to one that fits what it was given. */
  lemma Resized(members: Members, first: nat, end: nat, tc: nat, size: nat)
    requires MembersOk(members, first, end) && tc in members
    requires members[tc].prefix + ChunkSize(size) <= members[tc].span
    ensures MembersOk(members[tc := members[tc].(size := size)], first, end)
  {
    var members' := members[tc := members[tc].(size := size)];
    forall a | a in members' ensures MemberOk(a, members'[a], first, end) {
      assert MemberOk(a, members[a], first, end);
    }
    forall a, b | a in members' && b in members' && a != b ensures Apart(a, members'[a], b, members'[b]) {
      assert Apart(a, members[a], b, members[b]);
    }
  }

  lemma OnlyMember(members: Members, tc: nat)
    requires tc in members && |members| == 1
    ensures members == map[tc := members[tc]]
  {
    assert |members.Keys| == 1;
    forall a | a in members ensures a == tc {
      if a != tc {
        assert {a, tc} <= members.Keys;
        assert |{a, tc}| == 2;
        SubsetSize({a, tc}, members.Keys);
      }
    }
  }

  // ----- The source's own form -----

  /** What a realloc did: no change when it cannot, the same chunk, another one of the pool, or one outside. */
  datatype Realloced = Refused | Kept | Moved(tc: nat) | Left

  class Pool {
    /** tc_pool_first_chunk() and tc_pool_end(). */
    const first: nat
    const limit: nat
    var end: nat
    var objectCount: nat
    /** TALLOC_FLAG_FREE of the pool's own chunk: it was freed, although members live on. */
    var freed: bool
    /** The headers of the chunks that live in the pool. */
    var members: Members
    /** Its memory was given back. */
    var destroyed: bool

    ghost predicate Valid()
      reads this
    {
      && !destroyed
      && first % 16 == 0 && end % 16 == 0 && first <= end <= limit
      && MembersOk(members, first, end)
      && objectCount == |members| + (if freed then 0 else 1)
      && objectCount > 0
    }

    /** talloc_pool(): the pool itself is its first object. */
    constructor (first: nat, limit: nat)
      requires first % 16 == 0 && first <= limit
      ensures Valid() && members == map[] && !freed && this.first == first && this.limit == limit
    {
      this.first, this.limit := first, limit;
      end, objectCount, freed, members, destroyed := first, 1, false, map[], false;
    }

    /** tc_alloc_pool(), for a chunk whose header says `size`. */
    method AllocPool(size: nat, prefix: nat) returns (r: Option<nat>)
      requires Valid() && (prefix == 0 || prefix == TP_HDR_SIZE)
      modifies this
      ensures Valid() && freed == old(freed)
      ensures r.Some? <==> Align16(TC_HDR_SIZE + size + prefix) <= limit - old(end)
      ensures r.Some? ==> r.value == old(end) + prefix && r.value !in old(members)
                          && members == old(members)[r.value := Member(prefix, size, Align16(TC_HDR_SIZE + size + prefix))]
                          && objectCount == old(objectCount) + 1
      ensures r.None? ==> members == old(members) && end == old(end) && objectCount == old(objectCount)
    {
      hide MembersOk, Align16;
      var spaceLeft := limit - end;
      // Every chunk ends on a boundary.
      var chunkSize := Align16(TC_HDR_SIZE + size + prefix);
      if spaceLeft < chunkSize {
        return None;
      }
      var result := end + prefix;
      AlignedSizes(size, prefix);
      Extended(members, first, end, result, Member(prefix, size, chunkSize));
      end := end + chunkSize;
      members := members[result := Member(prefix, size, chunkSize)];
      objectCount := objectCount + 1;
      r := Some(result);
    }

    /** talloc_pool() inside the pool: its header says less than what it was given. */
    method NestPool(tc: nat, size: nat)
      requires Valid() && tc in members && size <= members[tc].size
      modifies this`members
      ensures Valid() && members == old(members)[tc := old(members)[tc].(size := size)]
    {
      hide MembersOk;
      assert MemberOk(tc, members[tc], first, end) by { MemberIsOk(members, first, end, tc); }
      ChunkSizeMonotone(size, members[tc].size);
      Resized(members, first, end, tc, size);
      members := members[tc := members[tc].(size := size)];
    }

    /** _tc_free_poolmem(). */
    method FreePoolmem(tc: nat)
      requires Valid() && tc in members
      modifies this
      ensures members == old(members) - {tc} && freed == old(freed)
      ensures if freed && members == map[] then destroyed else Valid()
      ensures !destroyed && members == map[] ==> end == first
      ensures !destroyed && members != map[] ==>
                end == if tc + ChunkSize(old(members)[tc].size) == old(end) then tc else old(end)
    {
      hide MembersOk, ChunkSize;
      var nextTc := tc + ChunkSize(members[tc].size);
      Removed(members, first, end, tc);
      MemberIsOk(members, first, end, tc);
      if nextTc == end {
        LastChunk(members, first, end, tc);
      }
      NoneLeft(members - {tc}, first);
      members := members - {tc};
      objectCount := objectCount - 1;
      if objectCount == 1 && !freed {
        // No member is left: start again from the first chunk.
        end := first;
        return;
      }
      if objectCount == 0 {
        destroyed := true;
        return;
      }
      if end == nextTc {
        // It was the last one: its place is free again.
        end := tc;
      }
    }

    /** The end of _tc_free_internal() for the pool itself. */
    method FreePool()
      requires Valid() && !freed
      modifies this
      ensures freed && members == old(members) && end == old(end)
      ensures if members == map[] then destroyed else Valid()
    {
      hide MembersOk;
      freed := true;
      objectCount := objectCount - 1;
      if objectCount == 0 {
        destroyed := true;
      }
    }

    /** _talloc_realloc() of a member that is no pool; `mallocs` says whether malloc(3) has memory. */
    method Realloc(tc: nat, size: nat, mallocs: bool) returns (r: Realloced)
      requires Valid() && tc in members && members[tc].prefix == 0 && size > 0
      modifies this
      ensures freed == old(freed) && AfterRealloc(old(members), members, tc, size, r)
      ensures if r.Left? && freed && members == map[] then destroyed else Valid()
      ensures r.Refused? ==> !mallocs && end == old(end)
    {
      hide MembersOk, ChunkSize, Align16;
      // A member shrinks where it is.
      if size < members[tc].size {
        Shrink(tc, size);
        r := Kept;
      } else if members[tc].size == size {
        r := Kept;
      } else {
        r := Enlarge(tc, size, mallocs);
      }
    }

    method Enlarge(tc: nat, size: nat, mallocs: bool) returns (r: Realloced)
      requires Valid() && tc in members && members[tc].prefix == 0 && size > members[tc].size
      modifies this
      ensures freed == old(freed) && AfterRealloc(old(members), members, tc, size, r)
      ensures if r.Left? && freed && members == map[] then destroyed else Valid()
      ensures r.Refused? ==> !mallocs && end == old(end)
    {
      hide MembersOk, ChunkSize, Align16;
      var nextTc := Some(tc + ChunkSize(members[tc].size));
      var oldChunkSize, newChunkSize := ChunkSize(members[tc].size), ChunkSize(size);
      ChunkSizeMonotone(members[tc].size, size);
      var chunkCount := objectCount - (if freed then 0 else 1);
      if chunkCount == 1 {
        // Alone in the pool: it can move to the front.
        OnlyMember(members, tc);
        if limit - first >= newChunkSize {
          MoveFirst(tc, size);
          return Moved(first);
        }
        nextTc := None;
      }
      if newChunkSize == oldChunkSize {
        Keep(tc, size);
        return Kept;
      }
      if nextTc == Some(end) && limit - end >= newChunkSize - oldChunkSize {
        // Nothing is behind it: it can grow in place.
        Grow(tc, size);
        return Kept;
      }
      r := MoveElsewhere(tc, size, mallocs);
    }

    method MoveElsewhere(tc: nat, size: nat, mallocs: bool) returns (r: Realloced)
      requires Valid() && tc in members
      modifies this
      ensures freed == old(freed) && AfterRealloc(old(members), members, tc, size, r)
      ensures if r.Left? && freed && members == map[] then destroyed else Valid()
      ensures r.Refused? ==> !mallocs && end == old(end)
    {
      hide MembersOk, ChunkSize, Align16;
      var newPtr := AllocPool(size, 0);
      if newPtr.None? {
        if !mallocs {
          return Refused;
        }
        FreePoolmem(tc);
        return Left;
      }
      assert newPtr.value in members - {tc};
      FreePoolmem(tc);
      assert members - {newPtr.value} == old(members) - {tc};
      return Moved(newPtr.value);
    }

    method Shrink(tc: nat, size: nat)
      requires Valid() && tc in members && size < members[tc].size
      modifies this
      ensures Valid() && freed == old(freed) && members == old(members)[tc := Resize(old(members)[tc], old(end), tc, size)]
    {
      hide MembersOk, ChunkSize;
      var nextTc, lastEnd := tc + ChunkSize(members[tc].size), end;
      MemberIsOk(members, first, end, tc);
      ChunkSizeMonotone(size, members[tc].size);
      if nextTc == end {
        LastChunk(members, first, end, tc);
        ghost var m := members[tc];
        Extended(members - {tc}, first, tc - m.prefix, tc, Member(m.prefix, size, m.prefix + ChunkSize(size)));
        PutBack(members, tc, Member(m.prefix, size, m.prefix + ChunkSize(size)));
        end := tc + ChunkSize(size);
      } else {
        Resized(members, first, end, tc, size);
      }
      members := members[tc := Resize(members[tc], lastEnd, tc, size)];
    }

    /** As large as it was once rounded. */
    method Keep(tc: nat, size: nat)
      requires Valid() && tc in members && ChunkSize(size) == ChunkSize(members[tc].size)
      modifies this
      ensures Valid() && freed == old(freed) && members == old(members)[tc := old(members)[tc].(size := size)]
    {
      hide MembersOk, ChunkSize;
      MemberIsOk(members, first, end, tc);
      Resized(members, first, end, tc, size);
      members := members[tc := members[tc].(size := size)];
    }

    method Grow(tc: nat, size: nat)
      requires Valid() && tc in members && size > members[tc].size && tc + ChunkSize(members[tc].size) == end
      requires limit - end >= ChunkSize(size) - ChunkSize(members[tc].size)
      modifies this
      ensures Valid() && freed == old(freed) && members == old(members)[tc := Resize(old(members)[tc], old(end), tc, size)]
      ensures end == tc + ChunkSize(size)
    {
      hide MembersOk, ChunkSize;
      ghost var m := members[tc];
      MemberIsOk(members, first, end, tc);
      ChunkSizeMonotone(m.size, size);
      LastChunk(members, first, end, tc);
      Extended(members - {tc}, first, tc - m.prefix, tc, Member(m.prefix, size, m.prefix + ChunkSize(size)));
      PutBack(members, tc, Member(m.prefix, size, m.prefix + ChunkSize(size)));
      members := members[tc := Resize(members[tc], end, tc, size)];
      end := tc + ChunkSize(size);
    }

    /** The sole chunk moves to the beginning of the pool; what memmove() writes there stays inside the pool. */
    method MoveFirst(tc: nat, size: nat)
      requires Valid() && members.Keys == {tc} && members[tc].prefix == 0 && size > members[tc].size
      requires limit - first >= ChunkSize(size)
      modifies this
      ensures Valid() && freed == old(freed) && members == map[first := Member(0, size, ChunkSize(size))]
      ensures end == first + ChunkSize(size)
      ensures first + TC_HDR_SIZE + old(members)[tc].size <= end
    {
      hide MembersOk;
      NoMembers(first);
      Extended(map[], first, first, first, Member(0, size, ChunkSize(size)));
      members := map[first := Member(0, size, ChunkSize(size))];
      end := first + ChunkSize(size);
    }
  }

  /** The members after a realloc: only the chunk itself changes, in place or to a place that no other one has. */
  ghost predicate AfterRealloc(before: Members, after: Members, tc: nat, size: nat, r: Realloced)
    requires tc in before
  {
    match r
    case Refused => after == before
    case Kept => tc in after && after[tc].size == size && after - {tc} == before - {tc}
    case Moved(tc') => tc' in after && after[tc'].size == size && after - {tc'} == before - {tc} && tc' !in before - {tc}
    case Left => after == before - {tc}
  }

  /** A chunk is given what it needs when it is the last one, and keeps what it was given otherwise. */
  function Resize(m: Member, end: nat, tc: nat, size: nat): Member {
    m.(size := size, span := if tc + ChunkSize(m.size) == end then m.prefix + ChunkSize(size) else m.span)
  }

  lemma PutBack(members: Members, tc: nat, m: Member)
    requires tc in members
    ensures (members - {tc})[tc := m] == members[tc := m]
  {
  }

  lemma NoMembers(first: nat)
    ensures MembersOk(map[], first, first)
  {
  }

  lemma NoneLeft(members: Members, first: nat)
    ensures |members| == 0 <==> members == map[]
    ensures |members| == 0 ==> MembersOk(members, first, first)
  {
  }

  lemma MemberIsOk(members: Members, first: nat, end: nat, tc: nat)
    requires MembersOk(members, first, end) && tc in members
    ensures MemberOk(tc, members[tc], first, end)
  {
  }

  lemma AlignedSizes(size: nat, prefix: nat)
    requires prefix % 16 == 0
    ensures Align16(TC_HDR_SIZE + size + prefix) % 16 == 0
    ensures Align16(TC_HDR_SIZE + size + prefix) == prefix + ChunkSize(size)
  {
  }

  lemma ChunkSizeMonotone(a: nat, b: nat)
    requires a <= b
    ensures ChunkSize(a) <= ChunkSize(b) && ChunkSize(a) % 16 == 0 && ChunkSize(b) % 16 == 0
  {
  }

  // ----- Safety -----

  /** The bytes a chunk's user may touch. */
  function UserStart(tc: nat): nat {
    tc + TC_HDR_SIZE
  }

  /** In a valid pool, what the users of two chunks may touch is apart, 16-byte aligned, and inside the pool. */
  lemma PoolSafe(members: Members, first: nat, end: nat, a: nat, b: nat)
    requires MembersOk(members, first, end) && a in members && b in members && a != b
    ensures UserStart(a) % 16 == 0 && first <= a && UserStart(a) + members[a].size <= end
    ensures UserStart(a) + members[a].size <= b || UserStart(b) + members[b].size <= a
  {
    MemberIsOk(members, first, end, a);
    MemberIsOk(members, first, end, b);
    assert Apart(a, members[a], b, members[b]);
  }

  /** A pool nested in another one lies, all of it, in the chunk it was given there: from its own first chunk to its
  own end. */
  lemma NestedInside(poolSize: nat, tc: nat, m: Member)
    requires m == Member(TP_HDR_SIZE, 0, Align16(TC_HDR_SIZE + poolSize + TP_HDR_SIZE)) && TP_HDR_SIZE <= tc
    ensures tc <= tc + ChunkSize(0) <= tc + TC_HDR_SIZE + poolSize <= tc - m.prefix + m.span
  {
  }

  datatype Op = Alloc(size: nat, nested: bool) | Free(tc: nat) | Resizing(tc: nat, size: nat, mallocs: bool) | FreeAll

  /** Whatever a program does with a pool, as long as it frees and resizes live chunks only, the pool stays valid until
  its memory is given back, which happens exactly when it was freed and its last member is gone. */
  method Run(pool: Pool, ops: seq<Op>) returns (done: nat)
    requires pool.Valid()
    modifies pool
    ensures done <= |ops|
    ensures if pool.destroyed then pool.freed && pool.members == map[] else pool.Valid() && done == |ops|
  {
    hide MembersOk;
    done := 0;
    while done < |ops| && !pool.destroyed
      invariant done <= |ops|
      invariant if pool.destroyed then pool.freed && pool.members == map[] else pool.Valid()
    {
      var op := ops[done];
      if op.Alloc? {
        var r := pool.AllocPool(op.size, if op.nested then TP_HDR_SIZE else 0);
        if op.nested && r.Some? {
          pool.NestPool(r.value, 0);
        }
      } else if op.Free? {
        if op.tc in pool.members {
          pool.FreePoolmem(op.tc);
        }
      } else if op.Resizing? {
        if op.tc in pool.members && pool.members[op.tc].prefix == 0 && op.size > 0 {
          var _ := pool.Realloc(op.tc, op.size, op.mallocs);
        }
      } else if !pool.freed {
        pool.FreePool();
      }
      done := done + 1;
    }
  }
}
