/** The operations of talloc (talloc/talloc.c) on the links in the chunk headers.

The sibling lists are links; the lists and parents they stand for are ghost.  Reference lists are sequences. */
module TallocArena {
  import opened Basics
  import opened TallocOwners
  import opened TallocLists
  import opened TallocLaws

  /** What a program may do, with the addresses that malloc(3) and realloc(3) give. */
  datatype Op =
    | New(context: nat, at: nat)
    | Refer(context: nat, ptr: nat, at: nat)
    | StealTo(context: nat, ptr: nat)
    | UnlinkFrom(context: nat, ptr: nat)
    | FreeChunk(ptr: nat)
    | FreeChildrenOf(context: nat)
    | Resize(ptr: nat, at: nat)

  class Arena {
    /** null_context. */
    const root: nat
    var mem: Headers
    var refs: map<nat, seq<nat>>
    var handles: map<nat, nat>
    /** The chunks with TALLOC_FLAG_LOOP. */
    var dying: set<nat>
    ghost var kids: Kids
    ghost var parent: map<nat, nat>

    /** What the links stand for. */
    ghost function Value(): State
      reads this
    {
      State(kids, parent, refs, handles, dying)
    }

    ghost predicate Valid()
      reads this
    {
      Linked(mem, Value(), root) && Shape(Value(), root)
    }

    /** talloc_enable_null_tracking(): nothing but the null context. */
    constructor (root: nat)
      requires root != NULL
      ensures this.root == root && Value() == State(map[root := []], map[root := NULL], map[root := []], map[], {})
      ensures Valid()
    {
      this.root := root;
      mem := map[root := Links(NULL, NULL, NULL, NULL)];
      refs, handles, dying := map[root := []], map[], {};
      kids, parent := map[root := []], map[root := NULL];
    }

    // ----- Links -----

    /** talloc_parent_chunk(): walk back to the first sibling. */
    method ParentChunk(c: nat) returns (p: nat)
      requires Valid() && c in mem
      ensures c in parent && p == parent[c]
    {
      hide Linked, Shape, Tree, Represents, HasParent;
      InLinks(mem, Value(), root, c);
      ghost var list, k := WhereListed(mem, Value(), root, c);
      PlacedIn(mem, kids, list, k, c, c);
      var tc := c;
      while mem[tc].prev != NULL
        invariant tc in mem && Placed(mem, kids, list, k, tc, c)
        decreases k
      {
        Before(mem, kids, list, k, tc, c);
        tc := mem[tc].prev;
        k := k - 1;
        PlacedIn(mem, kids, list, k, tc, c);
      }
      AtFirst(mem, kids, list, k, tc, c);
      return mem[tc].parent;
    }

    /** Out of the list, as in _tc_free_internal() and _talloc_steal_internal(). */
    method TakeOut(c: nat, ghost p: nat)
      requires Represents(mem, kids) && p in kids && c in kids[p] && p !in kids[p]
      modifies `mem, `kids
      ensures kids == old(kids)[p := Without(old(kids)[p], c)] && Represents(mem, kids) && Loose(kids, c)
      ensures mem.Keys == old(mem).Keys && KeepsLoose(old(mem), mem, old(kids), c)
      ensures c in mem && mem[c].prev == NULL && mem[c].parent == if old(kids)[p][0] == c then p else NULL
    {
      hide Represents, Loose, KeepsLoose;
      ghost var i: nat :| i < |kids[p]| && kids[p][i] == c;
      InList(mem, kids, p, i);
      ghost var before := mem;
      if mem[c].parent != NULL {
        FirstOut(mem, kids, p, c);
        FirstTakenKeeps(mem, kids, p, c);
        // Its list starts with the next one.
        var parent, next := mem[c].parent, mem[c].next;
        mem := mem[parent := mem[parent].(child := next)];
        if mem[parent].child != NULL {
          mem := mem[next := mem[next].(prev := NULL)];
        }
        mem := mem[c := mem[c].(next := NULL, prev := NULL)];
        // The next one takes its place.
        if mem[parent].child != NULL {
          mem := mem[next := mem[next].(parent := parent)];
        }
        assert mem == FirstTaken(before, c);
      } else {
        LaterOut(mem, kids, p, i);
        LaterTakenKeeps(mem, kids, p, i);
        var prev, next := mem[c].prev, mem[c].next;
        if prev != NULL {
          mem := mem[prev := mem[prev].(next := next)];
        }
        if next != NULL {
          mem := mem[next := mem[next].(prev := prev)];
        }
        mem := mem[c := mem[c].(next := NULL, prev := NULL)];
        assert mem == LaterTaken(before, c);
      }
      kids := kids[p := Without(kids[p], c)];
    }

    /** Hook a loose chunk into the front of the list of p, as in __talloc_with_prefix() and _talloc_steal_internal(). */
    method PutFirst(c: nat, p: nat)
      requires Represents(mem, kids) && Loose(kids, c) && p in kids && c in mem && c != p && c != NULL
      modifies `mem, `kids
      ensures kids == old(kids)[p := [c] + old(kids)[p]] && Represents(mem, kids)
      ensures mem.Keys == old(mem).Keys && KeepsLoose(old(mem), mem, old(kids), c)
    {
      hide Represents, Loose, KeepsLoose;
      HeadIsOk(mem, kids, p);
      FirstIn(mem, kids, p, c);
      FirstPutKeeps(mem, kids, p, c);
      ghost var before := mem;
      var first := mem[p].child;
      mem := mem[c := mem[c].(parent := p)];
      if first != NULL {
        mem := mem[first := mem[first].(parent := NULL)];
      }
      // Into the front.
      if first == NULL {
        mem := mem[p := mem[p].(child := c)];
        mem := mem[c := mem[c].(next := NULL, prev := NULL)];
      } else {
        mem := mem[first := mem[first].(prev := c)];
        mem := mem[c := mem[c].(next := first, prev := NULL)];
        mem := mem[p := mem[p].(child := c)];
      }
      assert mem == FirstPut(before, p, c);
      kids := kids[p := [c] + kids[p]];
    }

    /** malloc(3), and a header with no links. */
    method Obtain(c: nat)
      requires Represents(mem, kids) && c !in mem && c != NULL
      modifies `mem, `kids
      ensures kids == old(kids)[c := []] && mem.Keys == old(mem).Keys + {c} && Represents(mem, kids) && Loose(kids, c)
      ensures KeepsLoose(old(mem), mem, old(kids), c)
    {
      NewChunk(mem, kids, c);
      mem := mem[c := Links(NULL, NULL, NULL, NULL)];
      kids := kids[c := []];
    }

    /** free(3). */
    method Release(c: nat)
      requires Represents(mem, kids) && Loose(kids, c) && c in kids && kids[c] == []
      modifies `mem, `kids
      ensures kids == old(kids) - {c} && mem == old(mem) - {c} && Represents(mem, kids)
      ensures KeepsLoose(old(mem), mem, old(kids), c)
    {
      OldChunk(mem, kids, c);
      mem := mem - {c};
      kids := kids - {c};
    }

    // ----- Steps -----

    /** Freeing a reference handle: its destructor, then _tc_free_internal() on a chunk without children. */
    method FreeHandle(h: nat)
      requires Valid() && h in handles
      modifies this
      ensures HasParent(old(Value()), h) && old(handles[h]) in old(refs)
      ensures Value() == HandleFreed(old(Value()), h) && Valid()
    {
      hide Linked, Shape, Represents, KeepsLoose, Loose;
      ghost var st, before := Value(), mem;
      HandleFreedShape(st, root, h);
      HandleListed(st, root, h);
      Sibling(mem, st, root, h);
      var t := handles[h];
      refs := refs[t := Without(refs[t], h)];
      TakeOut(h, parent[h]);
      ghost var taken, kids1 := mem, kids;
      Release(h);
      refs, handles := refs - {h}, handles - {h};
      parent := parent - {h};
      assert Value() == HandleFreed(st, h);
      KeepsTwice(before, taken, mem, st.kids, kids1, st.parent[h], h);
      HandleFreedZoned(st, root, h, {});
      LinkedAgain(before, mem, st, Value(), root, h);
    }

    /** _talloc_steal_internal(). */
    method Steal(newParent: nat, c: nat)
      requires Valid() && Listed(Value(), root, c) && newParent in mem && newParent !in handles
      modifies this
      ensures HasParent(old(Value()), c) && newParent in old(kids) && Value() == Stolen(old(Value()), newParent, c) && Valid()
    {
      hide Linked, Shape, Represents, KeepsLoose, Loose;
      ghost var st, before := Value(), mem;
      InLinks(mem, st, root, newParent);
      Sibling(mem, st, root, c);
      StolenShape(st, root, newParent, c);
      if c == newParent {
        return;
      }
      if mem[c].parent == newParent {
        FirstAgain(st, c);
        return;
      }
      TakeOut(c, parent[c]);
      ghost var taken, kids1 := mem, kids;
      PutFirst(c, newParent);
      parent := parent[c := newParent];
      KeepsTwice(before, taken, mem, st.kids, kids1, st.parent[c], c);
      assert Value() == Stolen(st, newParent, c);
      StolenZoned(st, root, newParent, c, {});
      LinkedAgain(before, mem, st, Value(), root, c);
    }

    /** Take a chunk out of its list, and mark it as being freed. */
    method MarkFreed(c: nat)
      requires Valid() && Listed(Value(), root, c) && c !in handles && c in refs && refs[c] == []
      modifies this
      ensures HasParent(old(Value()), c) && old(kids)[old(parent)[c]] != []
      ensures Value() == Killed(old(Value()), c) && Valid()
    {
      hide Linked, Shape, Represents, KeepsLoose, Loose;
      ghost var st, before := Value(), mem;
      KilledShape(st, root, c);
      Sibling(mem, st, root, c);
      TakeOut(c, parent[c]);
      dying := dying + {c};
      parent := parent[c := if st.kids[st.parent[c]][0] == c then st.parent[c] else NULL];
      assert Value() == Killed(st, c);
      LinkedAgain(before, mem, st, Value(), root, c);
    }

    /** The end of a free. */
    method GiveBack(c: nat)
      requires Valid() && c in dying && c in kids && kids[c] == []
      modifies this
      ensures Value() == Deleted(old(Value()), c) && Valid()
    {
      hide Linked, Shape, Represents, KeepsLoose, Loose;
      ghost var st, before := Value(), mem;
      DeletedShape(st, root, c);
      DyingLoose(mem, st, root, c);
      Release(c);
      refs, dying := refs - {c}, dying - {c};
      parent := parent - {c};
      assert Value() == Deleted(st, c);
      LinkedAgain(before, mem, st, Value(), root, c);
    }

    // ----- A free -----

    /** talloc_is_parent(): does the walk up from `context` meet `ptr`?  Memory that was freed is not read. */
    method IsParent(context: nat, ptr: nat) returns (r: bool)
      requires Valid()
      ensures r <==> Below(Value(), context, ptr)
    {
      hide Shape, Linked;
      var tc, depth := context, TALLOC_MAX_DEPTH;
      while tc != NULL && tc in mem && depth > 0
        invariant Below(Value(), context, ptr) <==> Meets(Value(), tc, ptr, depth)
        decreases depth
      {
        InLinks(mem, Value(), root, tc);
        if tc == ptr {
          return true;
        }
        tc := ParentChunk(tc);
        depth := depth - 1;
      }
      if tc in parent {
        SameKeys(mem, Value(), root);
      }
      return false;
    }

    /** _tc_free_internal(), without destructors but those of reference handles: 0 when the chunk was freed, -1 when a
    reference took its place.  Its references go one after the other, until one did not come from below: then the chunk
    stays.  It terminates whatever refers to what. */
    method Free(c: nat, ghost zone: set<nat>, ghost rank: nat -> nat) returns (status: int)
      requires Valid() && Listed(Value(), root, c)
      modifies this
      ensures Valid() && Freeable(Value()) < Freeable(old(Value()))
      ensures c in old(refs) && Tried(old(Value()), Value(), root, zone, rank, c)
      ensures status == if c in kids then -1 else 0
      decreases Freeable(Value()), 1
    {
      hide Shape, Linked, Tried, Fair, Zoned, Local, Steady, FreeResult, Killed, Deleted, HandedOver, LoneKept;
      ghost var st := Value();
      ListedInRefs(st, root, c);
      if refs[c] != [] {
        ReferencedNoHandle(st, root, c);
        status := FreeReferenced(c, zone, rank);
        return;
      }
      // The loop flag stops nothing here: a chunk being freed is in no list.
      if c in handles {
        HandleCounts(st, root, c);
        TriedHandle(st, root, zone, rank, c);
        FreeHandle(c);
        return 0;
      }
      FreeUnreferenced(c, zone, rank);
      TriedUnreferenced(st, Value(), root, zone, rank, c);
      status := 0;
    }

    /** Its end, for a chunk that nothing refers to. */
    method FreeUnreferenced(c: nat, ghost zone: set<nat>, ghost rank: nat -> nat)
      requires Valid() && Listed(Value(), root, c) && c in refs && refs[c] == [] && c !in handles
      modifies this
      ensures Valid() && Steady(old(Value()), Value()) && Freeable(Value()) < Freeable(old(Value())) && c !in kids
      ensures Zoned(old(Value()), root, zone) && Entered(old(Value()), zone, c) ==>
                Zoned(Value(), root, zone) && Local(old(Value()), Value(), zone)
      ensures Fair(old(Value()), root, zone, rank) && Entered(old(Value()), zone, c) ==>
                Fair(Value(), root, zone, rank) && FreeResult(old(Value()), Value(), root, c, rank)
      ensures HasParent(old(Value()), c) && old(kids)[old(parent)[c]] != []
      ensures LoneKept(Killed(old(Value()), c), root, c) ==>
                Value() == Deleted(HandedOver(Killed(old(Value()), c), root, c), c)
      decreases Freeable(Value()), 0
    {
      hide Shape, Linked, Fair, Zoned, Entered, Local, Steady, FreeResult, Accounted, LoneKept, HandedOver, Drains;
      ghost var st := Value();
      KilledDrains(st, root, c, zone, rank);
      MarkFreed(c);
      FreeChildren(c, zone, rank);
      ghost var emptied := Value();
      FreedWhole(st, root, c, emptied, zone, rank);
      DeletedCounts(emptied, c);
      GiveBack(c);
    }

    /** Its beginning, for a chunk with references: the first of them goes, and the chunk is freed again if that one came
    from below. */
    method FreeReferenced(c: nat, ghost zone: set<nat>, ghost rank: nat -> nat) returns (status: int)
      requires Valid() && Listed(Value(), root, c) && c in refs && refs[c] != [] && c !in handles
      modifies this
      ensures Valid() && Freeable(Value()) < Freeable(old(Value()))
      ensures Tried(old(Value()), Value(), root, zone, rank, c)
      ensures status == if c in kids then -1 else 0
      decreases Freeable(Value()), 0
    {
      hide Shape, Linked, Tried, Fair, Zoned, Entered, Local, Steady, FreeResult, OnlyHandlesGone, Leading, Dropped,
           Below, HandleFreed;
      ghost var st := Value();
      var h := refs[c][0];
      var isChild := IsParent(h, c);
      FirstGoes(st, root, c, zone, rank);
      HandleCounts(st, root, h);
      FreeHandle(h);
      if isChild {
        ghost var st1 := Value();
        status := Free(c, zone, rank);
        FirstGone(st, root, c, zone, rank, st1, Value());
        return;
      }
      FirstOnly(st, root, c, zone, rank);
      status := -1;
    }

    /** _tc_free_children_internal().  A chunk that was freed has no children left. */
    method FreeChildren(d: nat, ghost zone: set<nat>, ghost rank: nat -> nat)
      requires Valid() && d in kids && d !in handles
      modifies this
      ensures Valid() && Steady(old(Value()), Value()) && Freeable(Value()) <= Freeable(old(Value()))
      ensures d in kids ==> kids[d] == []
      ensures d in old(dying) || Drains(old(Value()), root, zone, d) ==> d in kids
      ensures Drains(old(Value()), root, zone, d) ==> Drains(Value(), root, zone, d) && Local(old(Value()), Value(), zone)
      ensures Drains(old(Value()), root, zone, d) && Fair(old(Value()), root, zone, rank) ==>
                Fair(Value(), root, zone, rank) && Accounted(old(Value()), Value(), root, d, rank)
      ensures LoneKept(old(Value()), root, d) ==> Value() == HandedOver(old(Value()), root, d)
      decreases Freeable(Value()), 3
    {
      hide Shape, Linked, Fair, Zoned, Local, Steady, Accounted, LoneKept, HandedOver, Drains, HandsOver, Turn;
      ghost var st := Value();
      AccountedSelf(st, root, d, rank);
      LocalSelf(st, root, zone);
      LoneHandsOver(st, root, d);
      while d in mem && mem[d].child != NULL
        invariant Valid() && Steady(st, Value()) && Freeable(Value()) <= Freeable(st)
        invariant d in st.dying || Drains(st, root, zone, d) ==> d in kids
        invariant d !in handles
        invariant Drains(st, root, zone, d) ==> Drains(Value(), root, zone, d) && Local(st, Value(), zone)
        invariant Drains(st, root, zone, d) && Fair(st, root, zone, rank) ==>
                    Fair(Value(), root, zone, rank) && Accounted(st, Value(), root, d, rank)
        invariant LoneKept(st, root, d) ==> Value() == st || Value() == HandedOver(st, root, d)
        decreases Freeable(Value())
      {
        ghost var before := Value();
        SameKeys(mem, before, root);
        FirstChild(mem, before, root, d);
        FreeFirstChild(d, zone, rank);
        OneTurn(st, before, Value(), root, d, zone, rank);
      }
      NoChild(mem, Value(), root, d);
    }

    /** One turn of its loop. */
    method FreeFirstChild(d: nat, ghost zone: set<nat>, ghost rank: nat -> nat)
      requires Valid() && d in kids && d !in handles && kids[d] != []
      modifies this
      ensures Valid() && Freeable(Value()) < Freeable(old(Value()))
      ensures Turn(old(Value()), Value(), root, d, zone, rank)
      decreases Freeable(Value()), 2
    {
      hide Shape, Linked, Fair, Zoned, Entered, Local, FreeResult, Accounted, HandedOver, Drains, OnlyHandlesGone,
           Leading, Dropped,
           Stolen, HandsOver, HandedTo, FirstOwnerOf, Steady, HasParent, TriedFirst, Tried, Freeable, Turn;
      ghost var st := Value();
      // Known before any reference goes: who would take the child.
      FirstChild(mem, st, root, d);
      var child := mem[d].child;
      SameKeys(mem, st, root);
      FirstChildListed(st, root, d);
      var newParent := FirstOwner(child);
      var status := Free(child, zone, rank);
      Refused(st, Value(), root, zone, rank, d);
      if status == -1 {
        Abandon(d, child, newParent, st, zone);
      }
      TurnDone(st, Value(), root, d, zone, rank);
    }

    /** Its end, for a child that could not be freed; `st` is what there was before that was tried. */
    method Abandon(d: nat, child: nat, newParent: nat, ghost st: State, ghost zone: set<nat>)
      requires Valid() && Shape(st, root) && d in st.kids && d !in st.handles && HandsOver(st, d) && st.kids[d][0] == child
      requires newParent == FirstOwnerOf(st, root, child) && newParent in st.kids && newParent !in st.handles
      requires child in kids && Value() == Dropped(st, st.refs[child][..Leading(st, child, st.refs[child]) + 1])
      requires OnlyHandlesGone(st, Value())
      modifies this
      ensures Valid() && d in kids && Value() == HandedOver(st, root, d) && Freeable(Value()) == Freeable(old(Value()))
    {
      hide Shape, Linked, HandedOver, OnlyHandlesGone, Leading, Dropped, Stolen, HandedTo, FirstOwnerOf, HasParent,
           Freeable, Zoned;
      ghost var st1 := Value();
      SameKeys(mem, st1, root);
      Abandoned(st, st1, root, d, newParent);
      HandOver(d, child, newParent, zone);
      HandedOverThere(st, st1, root, d, newParent, Value());
    }

    method FirstOwner(child: nat) returns (newParent: nat)
      requires Valid() && child in refs
      ensures newParent == FirstOwnerOf(Value(), root, child)
      ensures newParent in mem && newParent !in handles
    {
      hide Shape, Linked;
      ghost var st := Value();
      newParent := root;
      SameKeys(mem, st, root);
      RootParent(st, root);
      if refs[child] != [] {
        HandleOfRefs(st, root, child, refs[child][0]);
        HandleParent(st, root, refs[child][0]);
        var p := ParentChunk(refs[child][0]);
        if p != NULL {
          newParent := p;
        }
      }
    }

    /** Find a parent for a child that could not be freed.  Memory that was freed is not read. */
    method HandOver(d: nat, child: nat, newParent: nat, ghost zone: set<nat>)
      requires Valid() && Listed(Value(), root, child) && newParent in mem && newParent !in handles && d in mem
      requires d !in handles
      modifies this
      ensures Valid() && kids.Keys == old(kids).Keys && handles == old(handles) && Freeable(Value()) == Freeable(old(Value()))
      ensures HasParent(old(Value()), child)
      ensures HandedTo(old(Value()), root, d, newParent) in old(kids)
      ensures Value() == if old(parent)[child] == d then Stolen(old(Value()), HandedTo(old(Value()), root, d, newParent), child)
                         else old(Value())
      ensures Zoned(old(Value()), root, zone) ==> d in old(parent) && (old(parent)[d] == NULL || old(parent)[d] in old(kids))
    {
      hide Shape, Linked, Stolen, Zoned;
      ghost var st := Value();
      SameKeys(mem, st, root);
      ListedInRefs(st, root, child);
      NeverStale(st, root, zone, d);
      var p := ParentChunk(child);
      if p != d {
        return;
      }
      var newParent' := newParent;
      var p' := ParentChunk(d);
      if newParent == root && p' != NULL && p' in mem {
        NeverHandle(st, root, d);
        newParent' := p';
      }
      StolenKeys(st, newParent', child);
      Steal(newParent', child);
    }

    // ----- What a program may call -----

    /** A new chunk in the links. */
    method Hook(context: nat, c: nat)
      requires Represents(mem, kids) && context in kids && c !in mem && c != NULL && mem.Keys == kids.Keys
      modifies `mem, `kids
      ensures kids == old(kids)[c := []][context := [c] + old(kids)[context]] && Represents(mem, kids)
      ensures mem.Keys == old(mem).Keys + {c} && KeepsLoose(old(mem), mem, old(kids), c)
    {
      hide Represents, KeepsLoose, Loose;
      ghost var mem0, kids0 := mem, kids;
      Obtain(c);
      ghost var mem1, kids1 := mem, kids;
      PutFirst(c, context);
      KeepsNew(mem0, mem1, mem, kids0, kids1, c);
    }

    /** __talloc(), for a chunk at an address that malloc(3) gave. */
    method Alloc(context: nat, c: nat)
      requires Valid() && Usable(Value(), context) && c !in mem && c != NULL
      modifies this
      ensures Value() == Allocated(old(Value()), context, c) && Valid()
    {
      hide Linked, Shape, Represents, KeepsLoose, Loose, Allocated;
      ghost var st, before := Value(), mem;
      SameKeys(mem, st, root);
      LinkedKeys(mem, st, root);
      AllocatedKids(st, context, c);
      Hook(context, c);
      refs, parent := refs[c := []], parent[c := context];
      AllocatedLinked(before, mem, st, root, context, c);
    }

    /** talloc_reference(), its handle at an address that malloc(3) gave. */
    method Reference(context: nat, ptr: nat, h: nat)
      requires Valid() && Usable(Value(), context) && Usable(Value(), ptr) && h !in mem && h != NULL && dying == {}
      modifies this
      ensures ptr in old(refs) && Value() == Referenced(old(Value()), context, ptr, h) && Valid()
    {
      hide Linked, Shape, Allocated, Referenced;
      ghost var st := Value();
      SameKeys(mem, st, root);
      ReferencedParts(st, context, ptr, h);
      ReferencedShape(st, root, context, ptr, h);
      Alloc(context, h);
      refs := refs[ptr := [h] + refs[ptr]];
      handles := handles[h := ptr];
      SameLinks(mem, Allocated(st, context, h), Value(), root);
    }

    /** talloc_unreference(). */
    method Unreference(context: nat, ptr: nat) returns (status: int)
      requires Valid() && ptr in mem
      modifies this
      ensures Valid() && ptr in old(refs)
      ensures var h := FirstOf(old(Value()), old(refs)[ptr], context);
              if h.Some? then status == 0 && HandleIsFreed(old(Value()), Value(), h.value)
              else status == -1 && Value() == old(Value())
    {
      hide Shape, Linked;
      ghost var st := Value();
      SameKeys(mem, st, root);
      var i := 0;
      assert refs[ptr][0..] == refs[ptr];
      while i < |refs[ptr]|
        invariant Valid() && Value() == st && 0 <= i <= |st.refs[ptr]|
        invariant FirstOf(st, st.refs[ptr], context) == FirstOf(st, st.refs[ptr][i..], context)
      {
        var h := refs[ptr][i];
        assert refs[ptr][i..][0] == h && refs[ptr][i..][1..] == refs[ptr][i + 1..];
        HandleOfRefs(st, root, ptr, h);
        SameKeys(mem, st, root);
        var p := ParentChunk(h);
        if p == context {
          FreeHandle(h);
          return 0;
        }
        i := i + 1;
      }
      assert refs[ptr][i..] == [];
      return -1;
    }

    /** talloc_unlink(). */
    method Unlink(context: nat, ptr: nat, ghost zone: set<nat>, ghost rank: nat -> nat) returns (status: int)
      requires Valid() && Listed(Value(), root, ptr) && ptr !in handles && context in mem
      modifies this
      ensures Valid() && ptr in old(refs) && ptr in old(parent) && Steady(old(Value()), Value())
      ensures var st := old(Value());
              var h := FirstOf(st, st.refs[ptr], context);
              if h.Some? then status == 0 && HandleIsFreed(st, Value(), h.value)
              else if st.parent[ptr] != context then status == -1 && Value() == st
              else if st.refs[ptr] == [] then status == 0 && IsFreed(st, Value(), root, zone, rank, ptr)
              else status == 0 && FirstReferenceTakesOver(st, Value(), ptr)
    {
      hide Shape, Linked, FreeResult, FirstOf, Stolen, Fair, Zoned, Local, Steady, HandleFreed;
      ghost var st := Value();
      ListedInRefs(st, root, ptr);
      LocalSelf(st, root, zone);
      SameKeys(mem, st, root);
      status := Unreference(context, ptr);
      if status == 0 {
        UnreferencedSteady(st, root, ptr, context);
        return;
      }
      SameKeys(mem, st, root);
      var p := ParentChunk(ptr);
      if context != p {
        return -1;
      }
      if refs[ptr] == [] {
        FreeUnreferenced(ptr, zone, rank);
        return 0;
      }
      var h := refs[ptr][0];
      HandleOfRefs(st, root, ptr, h);
      HandleParent(st, root, h);
      var newParent := ParentChunk(h);
      FirstIsFirst(st, ptr);
      status := Unreference(newParent, ptr);
      UnreferencedSteady(st, root, ptr, newParent);
      TakesOver(mem, Value(), st, root, ptr, h);
      Steal(newParent, ptr);
      return 0;
    }

    /** talloc_free(). */
    method TallocFree(ptr: nat, ghost zone: set<nat>, ghost rank: nat -> nat) returns (status: int)
      requires Valid() && Listed(Value(), root, ptr) && ptr !in handles
      modifies this
      ensures Valid() && ptr in old(refs) && ptr in old(parent) && Steady(old(Value()), Value())
      ensures var st := old(Value());
              if st.refs[ptr] == [] then status == 0 && IsFreed(st, Value(), root, zone, rank, ptr)
              else if st.parent[ptr] == root && |st.refs[ptr]| == 1 then
                status == 0 && (HandleIsFreed(st, Value(), st.refs[ptr][0]) || FirstReferenceTakesOver(st, Value(), ptr))
              else status == -1 && Value() == st
    {
      hide Shape, Linked, FreeResult, Fair, Zoned, Local, Steady, HandleFreed, Stolen;
      ghost var st := Value();
      ListedInRefs(st, root, ptr);
      LocalSelf(st, root, zone);
      SameKeys(mem, st, root);
      if refs[ptr] != [] {
        var p := ParentChunk(ptr);
        if p == root && |refs[ptr]| == 1 {
          status := Unlink(root, ptr, zone, rank);
          return;
        }
        return -1;
      }
      FreeUnreferenced(ptr, zone, rank);
      return 0;
    }

    /** talloc_free_children(), for a context whose name is no child of it. */
    method TallocFreeChildren(ptr: nat, ghost zone: set<nat>, ghost rank: nat -> nat)
      requires Valid() && Usable(Value(), ptr)
      modifies this
      ensures Valid() && Steady(old(Value()), Value())
      ensures ptr in kids ==> kids[ptr] == []
      ensures Drains(old(Value()), root, zone, ptr) ==> ptr in kids && Local(old(Value()), Value(), zone)
      ensures Drains(old(Value()), root, zone, ptr) && Fair(old(Value()), root, zone, rank) ==>
                Fair(Value(), root, zone, rank) && Accounted(old(Value()), Value(), root, ptr, rank)
    {
      hide Shape, Linked, Fair, Drains, Local, Accounted, Steady;
      FreeChildren(ptr, zone, rank);
    }

    /** The links of a chunk that lies elsewhere now: the header was copied, and its neighbours follow. */
    method Follow(c: nat, c': nat)
      requires c in mem && c' !in mem
      requires var tc := mem[c]; forall x :: x in {tc.parent, tc.child, tc.prev, tc.next} && x != NULL ==> x in mem && x != c
      modifies `mem
      ensures mem == MovedHeaders(old(mem), c, c')
    {
      mem := mem[c' := mem[c]] - {c};
      var tc := mem[c'];
      if tc.parent != NULL {
        mem := mem[tc.parent := mem[tc.parent].(child := c')];
      }
      if tc.child != NULL {
        mem := mem[tc.child := mem[tc.child].(parent := c')];
      }
      if tc.prev != NULL {
        mem := mem[tc.prev := mem[tc.prev].(next := c')];
      }
      if tc.next != NULL {
        mem := mem[tc.next := mem[tc.next].(prev := c')];
      }
      assert mem == MovedHeaders(old(mem), c, c');
    }

    /** _talloc_realloc() of a chunk outside of pools: realloc(3) gives `c'`, where the header was copied to. */
    method Realloc(c: nat, c': nat) returns (r: nat)
      requires Valid() && Listed(Value(), root, c) && c !in handles && dying == {}
      requires c' == c || (c' !in mem && c' != NULL)
      modifies this
      ensures Valid() && c in old(refs) && c in old(kids) && c in old(parent)
      ensures old(refs)[c] != [] ==> r == NULL && Value() == old(Value())
      ensures old(refs)[c] == [] && c' == c ==> r == c && Value() == old(Value())
      ensures old(refs)[c] == [] && c' != c ==>
                r == c' && c' !in old(kids) && c' !in old(parent) && Value() == Relocated(old(Value()), c, c')
    {
      hide Shape, Linked, Represents, KeepsLoose, Loose, Relocated, Moved;
      ghost var st, before := Value(), mem;
      ListedInRefs(st, root, c);
      SameKeys(mem, st, root);
      // Referenced chunks do not move.
      if refs[c] != [] {
        return NULL;
      }
      if c' == c {
        return c;
      }
      RelocatedShape(st, root, c, c');
      ghost var p, i := MovesFrom(mem, st, root, c, c');
      Follow(c, c');
      refs := refs[c' := []] - {c};
      kids, parent := Relocated(st, c, c').kids, Relocated(st, c, c').parent;
      assert Value() == Relocated(st, c, c') by { RelocatedRest(st, c, c'); }
      MovedLinked(before, mem, st, root, c, c');
      return c';
    }

    // ----- Runs -----

    /** Is that a context, or a chunk that is no handle and not the null context, or an address out of use? */
    predicate Known(x: nat)
      reads this
    {
      x in mem && x !in handles
    }

    predicate Chunk(x: nat)
      reads this
    {
      Known(x) && x != root
    }

    predicate Fresh(x: nat)
      reads this
    {
      x !in mem && x != NULL
    }

    /** Any operations one after the other, those left out whose arguments are not what the interface asks for. */
    method Run(ops: seq<Op>) returns (ghost states: seq<State>)
      requires Valid() && dying == {}
      modifies this
      ensures Valid() && dying == {}
      ensures |states| == |ops| + 1 && states[0] == old(Value()) && states[|ops|] == Value()
      ensures forall i :: 0 <= i < |ops| ==> Shape(states[i], root) && states[i].dying == {} && Does(states[i], states[i + 1], root, ops[i])
    {
      hide Shape, Linked, Does;
      states := [Value()];
      var k := 0;
      while k < |ops|
        invariant 0 <= k <= |ops| && Valid() && dying == {}
        invariant |states| == k + 1 && states[0] == old(Value()) && states[k] == Value()
        invariant forall i :: 0 <= i < k ==> Shape(states[i], root) && states[i].dying == {} && Does(states[i], states[i + 1], root, ops[i])
      {
        Do(ops[k]);
        states := states + [Value()];
        k := k + 1;
      }
    }

    method Do(op: Op)
      requires Valid() && dying == {}
      modifies this
      ensures Valid() && dying == {} && Does(old(Value()), Value(), root, op)
    {
      hide Shape, Linked, Unlinked, ChunkFreed, ContextEmptied, Steady, IsFreed, Drains, Fair, Zoned, Local,
           Accounted, Subtree, Beneath, RankIn;
      ghost var st := Value();
      SameKeys(mem, st, root);
      match op {
        case New(context, at) =>
          if Known(context) && Fresh(at) {
            Alloc(context, at);
          }
        case Refer(context, ptr, at) =>
          if Known(context) && Known(ptr) && Fresh(at) {
            Reference(context, ptr, at);
          }
        case StealTo(context, ptr) =>
          if Known(context) && Chunk(ptr) {
            Steal(context, ptr);
          }
        case UnlinkFrom(context, ptr) =>
          if Known(context) && Chunk(ptr) {
            var status := Unlink(context, ptr, Subtree(st, ptr), RankIn(st, ptr));
            SteadySame(st, Value());
            UnlinkDone(st, Value(), root, context, ptr);
          }
        case FreeChunk(ptr) =>
          if Chunk(ptr) {
            var status := TallocFree(ptr, Subtree(st, ptr), RankIn(st, ptr));
            SteadySame(st, Value());
            FreeDone(st, Value(), root, ptr);
          }
        case FreeChildrenOf(context) =>
          if Known(context) {
            TallocFreeChildren(context, Beneath(st, context), RankIn(st, context));
            SteadySame(st, Value());
            EmptyDone(st, Value(), root, context);
          }
        case Resize(ptr, at) =>
          if Chunk(ptr) && (at == ptr || Fresh(at)) {
            var r := Realloc(ptr, at);
          }
      }
    }
  }

  lemma InLinks(mem: Headers, st: State, root: nat, c: nat)
    requires Linked(mem, st, root) && Shape(st, root) && c in mem
    ensures c in st.kids && c in st.parent && c in st.refs && c != NULL && Represents(mem, st.kids)
    ensures mem.Keys == st.kids.Keys
    ensures c !in st.dying && c != root ==> Listed(st, root, c) && HasParent(st, c)
    ensures c in st.dying || c == root ==> Alone(mem, st, c)
  {
    hide Represents;
    ParentsOfKids(st, root);
    NullIsNone(st, root);
  }

  /** Which list a chunk is in, and where; for one that is in no list, nowhere. */
  ghost predicate Placed(mem: Headers, kids: Kids, list: Option<nat>, k: nat, tc: nat, c: nat) {
    match list
    case None => tc == c && tc in mem && mem[tc].prev == NULL
    case Some(p) => p in kids && k < |kids[p]| && kids[p][k] == tc && Represents(mem, kids)
  }

  lemma WhereListed(mem: Headers, st: State, root: nat, c: nat) returns (list: Option<nat>, k: nat)
    requires Linked(mem, st, root) && Shape(st, root) && c in mem
    ensures Placed(mem, st.kids, list, k, c, c) && c in mem && c in st.parent
    ensures st.parent[c] == if list.Some? then list.value else mem[c].parent
  {
    hide Represents, Tree, References;
    InLinks(mem, st, root, c);
    if c in st.dying || c == root {
      return None, 0;
    }
    var p := st.parent[c];
    var i: nat :| i < |st.kids[p]| && st.kids[p][i] == c;
    return Some(p), i;
  }

  lemma PlacedIn(mem: Headers, kids: Kids, list: Option<nat>, k: nat, tc: nat, c: nat)
    requires Placed(mem, kids, list, k, tc, c)
    ensures tc in mem
  {
    if list.Some? {
      Node(mem, kids, list.value, k);
    }
  }

  lemma Before(mem: Headers, kids: Kids, list: Option<nat>, k: nat, tc: nat, c: nat)
    requires Placed(mem, kids, list, k, tc, c) && tc in mem && mem[tc].prev != NULL
    ensures k > 0 && Placed(mem, kids, list, k - 1, mem[tc].prev, c)
  {
    if list.Some? {
      Node(mem, kids, list.value, k);
    }
  }

  lemma AtFirst(mem: Headers, kids: Kids, list: Option<nat>, k: nat, tc: nat, c: nat)
    requires Placed(mem, kids, list, k, tc, c) && tc in mem && mem[tc].prev == NULL
    ensures if list.Some? then mem[tc].parent == list.value else tc == c
  {
    if list.Some? {
      First(mem, kids, list.value, k);
    }
  }

  /** A chunk that is in a list, and the links of that list. */
  lemma Sibling(mem: Headers, st: State, root: nat, c: nat)
    requires Linked(mem, st, root) && Shape(st, root) && Listed(st, root, c)
    ensures mem.Keys == st.kids.Keys && HasParent(st, c) && c in mem && st.parent[c] !in st.kids[st.parent[c]]
    ensures Represents(mem, st.kids) && Once(st.kids)
    ensures st.parent[c] != NULL && c != NULL && mem[c].parent == if st.kids[st.parent[c]][0] == c then st.parent[c] else NULL
  {
    ListedHasParent(st, root, c);
    var p := st.parent[c];
    assert p in st.kids[p] ==> Child(st, root, p, p);
    var i: nat :| i < |st.kids[p]| && st.kids[p][i] == c;
    hide Tree, References;
    Node(mem, st.kids, p, i);
    OnceOf(mem, st.kids);
    OnceIn(st.kids, p);
  }

  lemma HandleListed(st: State, root: nat, h: nat)
    requires Shape(st, root) && h in st.handles
    ensures Listed(st, root, h) && st.kids[h] == [] && h in st.refs && HasParent(st, h) && st.parent[h] != h
  {
    assert HandleOk(st, root, h);
    ListedHasParent(st, root, h);
    assert Child(st, root, st.parent[h], h);
  }

  lemma DyingLoose(mem: Headers, st: State, root: nat, c: nat)
    requires Linked(mem, st, root) && Shape(st, root) && c in st.dying
    ensures Represents(mem, st.kids) && Loose(st.kids, c) && c != root && mem.Keys == st.kids.Keys
  {
    hide Represents, Loose;
    LooseOnes(st, root);
  }

  lemma KeepsTwice(mem0: Headers, mem1: Headers, mem2: Headers, kids0: Kids, kids1: Kids, p: nat, c: nat)
    requires KeepsLoose(mem0, mem1, kids0, c) && KeepsLoose(mem1, mem2, kids1, c) && mem1.Keys == mem0.Keys
    requires p in kids0 && kids1 == kids0[p := Without(kids0[p], c)]
    ensures KeepsLoose(mem0, mem2, kids0, c)
  {
    forall x | Loose(kids0, x) ensures Loose(kids1, x) {
    }
    hide Loose;
  }

  /** The links stand for the new state. */
  lemma LinkedAgain(mem: Headers, mem': Headers, st: State, st': State, root: nat, c: nat)
    requires Linked(mem, st, root) && Shape(st, root) && Represents(mem', st'.kids) && mem'.Keys == st'.kids.Keys
    requires KeepsLoose(mem, mem', st.kids, c) && Shape(st', root)
    requires forall x :: x in st.parent && x in st'.parent && x != c ==> st'.parent[x] == st.parent[x]
    requires (forall x :: x in st'.dying && x != c ==> x in st.dying) && c != root
    requires c in st'.dying ==> c in mem' && c in st'.parent && mem'[c].prev == NULL && mem'[c].parent == st'.parent[c]
    ensures Linked(mem', st', root)
  {
    hide Represents, KeepsLoose, Linked;
    LinkedKeys(mem, st, root);
    forall x | (x == root || x in st'.dying) && x != c ensures (x == root || x in st.dying) && x in mem' && SameParent(st, st', x) {
    }
    hide Tree, References;
    StillLinked(mem, mem', st, st', root, c);
  }

  lemma LinkedKeys(mem: Headers, st: State, root: nat)
    requires Linked(mem, st, root)
    ensures mem.Keys == st.kids.Keys && Represents(mem, st.kids)
  {
  }

  lemma SameKeys(mem: Headers, st: State, root: nat)
    requires Linked(mem, st, root) && Shape(st, root)
    ensures mem.Keys == st.kids.Keys == st.parent.Keys == st.refs.Keys && NULL !in mem && root in mem && st.dying <= mem.Keys
  {
    ParentsOfKids(st, root);
    hide Represents;
  }

  // ----- From one call to the next -----

  lemma ListedInRefs(st: State, root: nat, c: nat)
    requires Shape(st, root) && Listed(st, root, c)
    ensures c in st.refs && c in st.parent && HasParent(st, c)
  {
    ListedHasParent(st, root, c);
  }

  lemma HandleFreedFairToo(st: State, root: nat, h: nat, zone: set<nat>, rank: nat -> nat)
    requires Shape(st, root) && h in st.handles
    ensures HasParent(st, h) && st.handles[h] in st.refs
    ensures Fair(st, root, zone, rank) ==> Fair(HandleFreed(st, h), root, zone, rank)
  {
    hide Shape, Fair;
    HandleCounts(st, root, h);
    if Fair(st, root, zone, rank) {
      HandleFreedFair(st, root, h, zone, rank);
    }
  }

  /** A chunk that was taken out of its list: its children can be freed next. */
  lemma KilledDrains(st: State, root: nat, c: nat, zone: set<nat>, rank: nat -> nat)
    requires Shape(st, root) && Listed(st, root, c) && c !in st.handles && c in st.refs && st.refs[c] == []
    ensures HasParent(st, c) && st.kids[st.parent[c]] != []
    ensures var stk := Killed(st, c);
            && c in stk.kids && c !in stk.handles && c in stk.dying && Freeable(stk) < Freeable(st)
            && (Zoned(st, root, zone) && Entered(st, zone, c) ==> Drains(stk, root, zone, c) && Local(st, stk, zone))
            && (Fair(st, root, zone, rank) && Entered(st, zone, c) ==> Fair(stk, root, zone, rank))
  {
    hide Tree, References, Fair, Zoned, Local, Freeable;
    ListedHasParent(st, root, c);
    KilledCounts(st, c);
    KilledZoned(st, root, c, zone);
    KilledShape(st, root, c);
    if Zoned(st, root, zone) && Entered(st, zone, c) {
      KidsInZone(Killed(st, c), root, zone, c);
    }
    if Fair(st, root, zone, rank) && Entered(st, zone, c) {
      KilledFair(st, root, c, zone, rank);
    }
  }

  lemma KidsInZone(st: State, root: nat, zone: set<nat>, d: nat)
    requires Tree(st, root) && Zoned(st, root, zone) && d in zone && d in st.kids
    ensures forall c :: c in st.kids[d] ==> c in zone
  {
    forall c | c in st.kids[d] ensures c in zone {
      assert Child(st, root, d, c);
    }
  }

  lemma FairIsZoned(st: State, root: nat, zone: set<nat>, rank: nat -> nat)
    requires Fair(st, root, zone, rank)
    ensures Zoned(st, root, zone)
  {
  }

  /** The whole of a free, from its beginning, its children and its end. */
  lemma FreedWhole(st: State, root: nat, c: nat, emptied: State, zone: set<nat>, rank: nat -> nat)
    requires Shape(st, root) && Listed(st, root, c) && c !in st.handles && c in st.refs && st.refs[c] == []
    requires HasParent(st, c) && st.kids[st.parent[c]] != [] && Shape(emptied, root) && c in emptied.kids
    requires Steady(Killed(st, c), emptied)
    requires Drains(Killed(st, c), root, zone, c) ==> Drains(emptied, root, zone, c) && Local(Killed(st, c), emptied, zone)
    requires Drains(Killed(st, c), root, zone, c) && Fair(Killed(st, c), root, zone, rank) ==>
               Fair(emptied, root, zone, rank) && Accounted(Killed(st, c), emptied, root, c, rank)
    ensures var st' := Deleted(emptied, c);
            && c in emptied.dying && Steady(st, st')
            && (Zoned(st, root, zone) && Entered(st, zone, c) ==> Zoned(st', root, zone) && Local(st, st', zone))
            && (Fair(st, root, zone, rank) && Entered(st, zone, c) ==>
                  Fair(st', root, zone, rank) && FreeResult(st, st', root, c, rank))
  {
    hide Tree, References, Fair, Zoned, Local, Accounted, FreeResult, Steady, Killed, Deleted, Drains;
    KilledDrains(st, root, c, zone, rank);
    SteadyThrough(st, root, c, emptied);
    if Zoned(st, root, zone) && Entered(st, zone, c) {
      EnteredIn(st, zone, c);
      KilledLowest(st, root, c, zone, emptied);
      DrainsZoned(emptied, root, zone, c);
      DeletedZoned(emptied, root, c, zone);
      LocalTwice(st, Killed(st, c), emptied, zone);
      LocalTwice(st, emptied, Deleted(emptied, c), zone);
    }
    if Fair(st, root, zone, rank) && Entered(st, zone, c) {
      FairIsZoned(st, root, zone, rank);
      FreedAccounted(st, root, c, emptied, rank);
      DeletedFair(emptied, root, c, zone, rank);
    }
  }

  lemma DrainsZoned(st: State, root: nat, zone: set<nat>, d: nat)
    requires Drains(st, root, zone, d)
    ensures Zoned(st, root, zone)
  {
  }

  lemma SteadyThrough(st: State, root: nat, c: nat, emptied: State)
    requires Shape(st, root) && Listed(st, root, c) && HasParent(st, c) && st.kids[st.parent[c]] != []
    requires Steady(Killed(st, c), emptied)
    ensures Steady(st, Deleted(emptied, c)) && c in emptied.dying
  {
    hide Tree, References;
    DyingParents(st, root);
  }

  /** The first reference of a chunk, and what is left to do. */
  lemma FirstGoes(st: State, root: nat, c: nat, zone: set<nat>, rank: nat -> nat)
    requires Shape(st, root) && Listed(st, root, c) && c in st.refs && st.refs[c] != [] && c !in st.handles
    ensures var h := st.refs[c][0];
            && h in st.handles && HasParent(st, h) && st.handles[h] == c && st.handles[h] in st.refs
            && var st1 := HandleFreed(st, h);
               && Listed(st1, root, c) && c in st1.refs && c !in st1.handles && st1.refs[c] == st.refs[c][1..]
               && OnlyHandlesGone(st, st1) && Steady(st, st1) && (c in zone ==> Local(st, st1, zone))
               && (Zoned(st, root, zone) ==> Zoned(st1, root, zone))
               && (Fair(st, root, zone, rank) ==> Fair(st1, root, zone, rank))
               && (Entered(st, zone, c) ==> Entered(st1, zone, c))
               && Leading(st, c, st.refs[c]) == (if Below(st, h, c) then 1 + Leading(st1, c, st1.refs[c]) else 0)
               && Dropped(st, st.refs[c][..1]) == st1
  {
    hide Tree, References, Fair, Zoned, Local, OnlyHandlesGone, Steady, Below;
    var h := st.refs[c][0];
    DropOne(st, root, c, 1, zone, rank);
    assert st.refs[c][..1][1..] == [];
    var st1 := HandleFreed(st, h);
    assert Dropped(st1, []) == st1;
    LeadingWithout(st, root, h, c, st.refs[c][1..]) by { RefsDistinct(st, root, c); FirstOnce(st.refs[c]); }
    StillListed(st, st1, root, c);
    ListedHasParent(st, root, c);
    ListedHasParent(st1, root, c);
    if Entered(st, zone, c) {
      SteadyParent(st, st1, c);
    }
  }

  lemma SteadyParent(st: State, st1: State, c: nat)
    requires OnlyHandlesGone(st, st1) && c in st1.parent
    ensures c in st.parent && st1.parent[c] == st.parent[c] && st1.dying == st.dying
  {
  }

  lemma FirstOnce(s: seq<nat>)
    requires Distinct(s) && s != []
    ensures s[0] !in s[1..]
  {
  }

  /** What comes of trying to free a chunk: its references go one after the other, until one did not come from below, and
  then it stays as it is; if none did, it is freed.  Out of the zone nothing changes, and where references are fair owners
  change as FreeResult says. */
  ghost predicate Tried(st: State, st': State, root: nat, zone: set<nat>, rank: nat -> nat, c: nat)
    requires c in st.refs
  {
    var rs := st.refs[c];
    var k := Leading(st, c, rs);
    && Steady(st, st')
    && (if k < |rs| then st' == Dropped(st, rs[..k + 1]) && OnlyHandlesGone(st, st') && c in st'.kids else c !in st'.kids)
    && (c in st.handles ==> HandleIsFreed(st, st', c))
    && (Zoned(st, root, zone) && Entered(st, zone, c) ==> Zoned(st', root, zone) && Local(st, st', zone))
    && (Fair(st, root, zone, rank) && Entered(st, zone, c) ==>
          Fair(st', root, zone, rank) && (c !in st'.kids && c !in st.handles ==> FreeResult(st, st', root, c, rank)))
  }

  lemma TriedHandle(st: State, root: nat, zone: set<nat>, rank: nat -> nat, c: nat)
    requires Shape(st, root) && c in st.handles && c in st.refs && st.refs[c] == []
    ensures HasParent(st, c) && st.handles[c] in st.refs && c !in HandleFreed(st, c).kids
    ensures Tried(st, HandleFreed(st, c), root, zone, rank, c)
  {
    hide Shape, Fair, Zoned, Local, Steady, FreeResult;
    HandleCounts(st, root, c);
    EnteredZone(st, zone, c);
    HandleFreedZoned(st, root, c, zone);
    HandleFreedFairToo(st, root, c, zone, rank);
  }

  lemma TriedUnreferenced(st: State, st': State, root: nat, zone: set<nat>, rank: nat -> nat, c: nat)
    requires c in st.refs && st.refs[c] == [] && c !in st.handles && Steady(st, st') && c !in st'.kids
    requires Zoned(st, root, zone) && Entered(st, zone, c) ==> Zoned(st', root, zone) && Local(st, st', zone)
    requires Fair(st, root, zone, rank) && Entered(st, zone, c) ==> Fair(st', root, zone, rank) && FreeResult(st, st', root, c, rank)
    ensures Tried(st, st', root, zone, rank, c)
  {
    hide Shape, Fair, Zoned, Local, Steady, FreeResult, Entered;
  }

  /** The first reference did not come from below: it is all that goes. */
  lemma FirstOnly(st: State, root: nat, c: nat, zone: set<nat>, rank: nat -> nat)
    requires Shape(st, root) && Listed(st, root, c) && c in st.refs && st.refs[c] != [] && c !in st.handles
    requires !Below(st, st.refs[c][0], c)
    ensures var h := st.refs[c][0];
            HasParent(st, h) && h in st.handles && st.handles[h] in st.refs && c in HandleFreed(st, h).kids
            && Tried(st, HandleFreed(st, h), root, zone, rank, c)
  {
    hide Tree, References, Fair, Zoned, Local, OnlyHandlesGone, Steady, Below, FreeResult, Entered, HandleFreed, Dropped;
    FirstGoes(st, root, c, zone, rank);
    EnteredZone(st, zone, c);
  }

  /** After the first reference, which came from below, the rest. */
  lemma FirstGone(st: State, root: nat, c: nat, zone: set<nat>, rank: nat -> nat, st1: State, st': State)
    requires Shape(st, root) && Listed(st, root, c) && c in st.refs && st.refs[c] != [] && c !in st.handles
    requires Below(st, st.refs[c][0], c)
    requires HandleIsFreed(st, st1, st.refs[c][0]) && c in st1.refs && Tried(st1, st', root, zone, rank, c)
    ensures Tried(st, st', root, zone, rank, c)
  {
    hide Tree, References, Fair, Zoned, Local, OnlyHandlesGone, Steady, Below, FreeResult, Leading, Entered, HandleFreed;
    var h := st.refs[c][0];
    FirstGoes(st, root, c, zone, rank);
    EnteredZone(st, zone, c);
    SteadyTwice(st, st1, st');
    var rs := st.refs[c];
    var k := Leading(st, c, rs);
    if k < |rs| {
      DropOne(st, root, c, k + 1, zone, rank);
      assert rs[..k + 1][1..] == rs[1..][..k];
      OnlyHandlesGoneTwice(st, st1, st');
    }
    if Zoned(st, root, zone) && Entered(st, zone, c) {
      LocalTwice(st, st1, st', zone);
    }
    if Fair(st, root, zone, rank) && Entered(st, zone, c) && c !in st'.kids {
      FreeResultThrough(st, root, h, st', c, rank);
    }
  }

  lemma FirstChild(mem: Headers, st: State, root: nat, d: nat)
    requires Linked(mem, st, root) && Shape(st, root) && d in st.kids
    ensures d in mem && mem[d].child == if st.kids[d] == [] then NULL else st.kids[d][0]
    ensures st.kids[d] != [] ==> mem[d].child != NULL
  {
    hide Tree, References;
    HeadIsOk(mem, st.kids, d);
    hide Represents;
  }

  lemma NoChild(mem: Headers, st: State, root: nat, d: nat)
    requires Linked(mem, st, root) && Shape(st, root) && (d in mem ==> mem[d].child == NULL)
    ensures d in st.kids ==> st.kids[d] == []
  {
    hide Shape, Represents;
    if d in st.kids {
      FirstChild(mem, st, root, d);
    }
  }

  /** A child that was not freed, and those who are there to take it. */
  lemma Abandoned(st: State, st1: State, root: nat, d: nat, newParent: nat)
    requires Shape(st, root) && Shape(st1, root) && d in st.kids && d !in st.handles && st.kids[d] != []
    requires OnlyHandlesGone(st, st1) && newParent in st.kids && newParent !in st.handles && st.kids[d][0] in st1.kids
    ensures var c := st.kids[d][0];
            && Listed(st1, root, c) && c in st1.parent && st1.parent[c] == d && HasParent(st1, c)
            && d in st1.kids && d !in st1.handles && newParent in st1.kids && newParent !in st1.handles
  {
    var c := st.kids[d][0];
    FirstChildListed(st, root, d);
    hide Tree, References;
    StillListed(st, st1, root, c);
    ListedHasParent(st1, root, c);
    OwnerStays(st, st1, d);
    OwnerStays(st, st1, newParent);
  }

  lemma HandedOverThere(st: State, st1: State, root: nat, d: nat, newParent: nat, st': State)
    requires HandsOver(st, d) && newParent == FirstOwnerOf(st, root, st.kids[d][0])
    requires var c := st.kids[d][0];
             && st1 == Dropped(st, st.refs[c][..Leading(st, c, st.refs[c]) + 1]) && HasParent(st1, c) && c in st1.parent && st1.parent[c] == d
             && HandedTo(st1, root, d, newParent) in st1.kids && st' == Stolen(st1, HandedTo(st1, root, d, newParent), c)
    ensures st' == HandedOver(st, root, d)
  {
    hide Dropped, Leading, HandedTo, FirstOwnerOf, HasParent, Stolen;
  }

  /** One turn: a child with a reference that does not come from below is handed over, any other one is freed; out of the
  zone nothing changes, and where references are fair only d stops being an owner of who lives on. */
  ghost predicate Turn(st: State, st': State, root: nat, d: nat, zone: set<nat>, rank: nat -> nat)
    requires d in st.kids && st.kids[d] != []
  {
    && Steady(st, st') && d !in st'.handles
    && (if HandsOver(st, d) then st' == HandedOver(st, root, d) && d in st'.kids else st.kids[d][0] !in st'.kids)
    && (Drains(st, root, zone, d) ==> Drains(st', root, zone, d) && Local(st, st', zone))
    && (Drains(st, root, zone, d) && Fair(st, root, zone, rank) ==> Fair(st', root, zone, rank) && Accounted(st, st', root, d, rank))
  }

  ghost predicate TriedFirst(st: State, st': State, root: nat, d: nat, zone: set<nat>, rank: nat -> nat)
    requires d in st.kids && st.kids[d] != []
  {
    st.kids[d][0] in st.refs && Tried(st, st', root, zone, rank, st.kids[d][0])
  }

  /** What a turn does, whether the child was freed or handed over. */
  lemma TurnDone(st: State, st': State, root: nat, d: nat, zone: set<nat>, rank: nat -> nat)
    requires Shape(st, root) && Shape(st', root) && d in st.kids && d !in st.handles && st.kids[d] != []
    requires if HandsOver(st, d) then st' == HandedOver(st, root, d) && d in st'.kids else TriedFirst(st, st', root, d, zone, rank)
    ensures Turn(st, st', root, d, zone, rank)
  {
    hide Tree, References, Fair, Zoned, Local, Steady, Accounted, HandedOver, HandsOver, FreeResult, Drains;
    if HandsOver(st, d) {
      HandedOverKeeps(st, root, d, zone);
      if Drains(st, root, zone, d) && Fair(st, root, zone, rank) {
        HandedOverFair(st, root, d, zone, rank);
      }
    } else {
      ChildFreedFair(st, st', root, d, zone, rank);
    }
    SteadySame(st, st');
    if Drains(st, root, zone, d) {
      DrainsStill(st, root, zone, d, st');
    }
  }

  lemma SteadySame(st: State, st': State)
    requires Steady(st, st')
    ensures st'.dying == st.dying && st'.handles.Keys <= st.handles.Keys
  {
  }

  lemma ChildFreedFair(st: State, st': State, root: nat, d: nat, zone: set<nat>, rank: nat -> nat)
    requires Shape(st, root) && d in st.kids && st.kids[d] != [] && !HandsOver(st, d)
    requires TriedFirst(st, st', root, d, zone, rank)
    ensures Steady(st, st') && st.kids[d][0] !in st'.kids
    ensures Drains(st, root, zone, d) ==> Zoned(st', root, zone) && Local(st, st', zone)
    ensures Drains(st, root, zone, d) && Fair(st, root, zone, rank) ==> Fair(st', root, zone, rank) && Accounted(st, st', root, d, rank)
  {
    hide Tree, References, Fair, Zoned, Local, Steady, Accounted, FreeResult, Leading;
    var c := st.kids[d][0];
    FirstChildListed(st, root, d);
    assert c in st.kids[d];
    if Drains(st, root, zone, d) && Fair(st, root, zone, rank) {
      if c in st.handles {
        HandleFreedAccounted(st, root, c, rank);
      } else {
        OwnersFromBelow(st, root, zone, rank, c);
        FreeResultAccounted(st, st', root, c, rank);
      }
    }
  }

  /** Turn after turn. */
  lemma OneTurn(st: State, before: State, st': State, root: nat, d: nat, zone: set<nat>, rank: nat -> nat)
    requires Shape(before, root) && Shape(st', root) && d in before.kids && before.kids[d] != [] && d !in before.handles
    requires Steady(st, before)
    requires Drains(st, root, zone, d) ==> Drains(before, root, zone, d) && Local(st, before, zone)
    requires Drains(st, root, zone, d) && Fair(st, root, zone, rank) ==> Fair(before, root, zone, rank) && Accounted(st, before, root, d, rank)
    requires LoneKept(st, root, d) ==> before == st || before == HandedOver(st, root, d)
    requires Turn(before, st', root, d, zone, rank)
    ensures Steady(st, st') && d !in st'.handles
    ensures d in st.dying || Drains(st, root, zone, d) ==> d in st'.kids
    ensures Drains(st, root, zone, d) ==> Drains(st', root, zone, d) && Local(st, st', zone)
    ensures Drains(st, root, zone, d) && Fair(st, root, zone, rank) ==> Fair(st', root, zone, rank) && Accounted(st, st', root, d, rank)
    ensures LoneKept(st, root, d) ==> st' == HandedOver(st, root, d)
  {
    hide Tree, References, Fair, Zoned, Local, Steady, Accounted, HandsOver, HandedOver, Drains;
    SteadyTwice(st, before, st');
    SteadySame(st, st');
    if d in st.dying {
      DyingLive(st', root, d);
    }
    if Drains(st, root, zone, d) {
      LocalTwice(st, before, st', zone);
      DrainsLive(st', root, zone, d);
      if Fair(st, root, zone, rank) {
        AccountedTwice(st, before, st', root, d, rank);
      }
    }
  }

  lemma DrainsLive(st: State, root: nat, zone: set<nat>, d: nat)
    requires Drains(st, root, zone, d)
    ensures d in st.kids
  {
  }

  /** In a zone, the parent left in the header of a chunk being freed is there. */
  lemma NeverStale(st: State, root: nat, zone: set<nat>, d: nat)
    requires Shape(st, root) && d in st.kids
    ensures Zoned(st, root, zone) ==> d in st.parent && (st.parent[d] == NULL || st.parent[d] in st.kids)
  {
    if d in st.dying {
      assert Zoned(st, root, zone) && d in st.parent ==> Above(st, zone, st.parent[d]);
    } else if d != root {
      ListedHasParent(st, root, d);
    }
  }

  lemma LoneHandsOver(st: State, root: nat, d: nat)
    ensures LoneKept(st, root, d) ==> HandsOver(st, d)
  {
  }

  lemma StolenKeys(st: State, q: nat, c: nat)
    requires HasParent(st, c) && q in st.kids
    ensures Stolen(st, q, c).kids.Keys == st.kids.Keys && Stolen(st, q, c).handles == st.handles
    ensures Freeable(Stolen(st, q, c)) == Freeable(st)
  {
  }

  lemma Refused(st: State, st': State, root: nat, zone: set<nat>, rank: nat -> nat, d: nat)
    requires d in st.kids && st.kids[d] != [] && st.kids[d][0] in st.refs && Tried(st, st', root, zone, rank, st.kids[d][0])
    ensures var c := st.kids[d][0]; HandsOver(st, d) <==> c in st'.kids
    ensures var c := st.kids[d][0];
            HandsOver(st, d) ==> st' == Dropped(st, st.refs[c][..Leading(st, c, st.refs[c]) + 1]) && OnlyHandlesGone(st, st')
    ensures !HandsOver(st, d) ==> TriedFirst(st, st', root, d, zone, rank)
  {
    hide Steady, Fair, Zoned, Local, FreeResult, Entered, Dropped, OnlyHandlesGone;
  }


  // ----- What a program may call -----

  lemma KeepsNew(mem0: Headers, mem1: Headers, mem2: Headers, kids0: Kids, kids1: Kids, c: nat)
    requires KeepsLoose(mem0, mem1, kids0, c) && KeepsLoose(mem1, mem2, kids1, c) && mem0.Keys <= mem1.Keys
    requires kids1 == kids0[c := []]
    ensures KeepsLoose(mem0, mem2, kids0, c)
  {
    forall x | Loose(kids0, x) ensures Loose(kids1, x) {
    }
    hide Loose;
  }

  lemma AllocatedLinked(mem: Headers, mem': Headers, st: State, root: nat, context: nat, c: nat)
    requires Linked(mem, st, root) && Shape(st, root) && Usable(st, context) && c !in mem && c != NULL
    requires mem'.Keys == mem.Keys + {c} && Represents(mem', Allocated(st, context, c).kids)
    requires KeepsLoose(mem, mem', st.kids, c)
    ensures Linked(mem', Allocated(st, context, c), root) && Shape(Allocated(st, context, c), root)
  {
    hide Linked, Shape, Represents, KeepsLoose, Loose, Allocated;
    SameKeys(mem, st, root);
    AllocatedShape(st, root, context, c);
    AllocatedKids(st, context, c);
    LinkedAgain(mem, mem', st, Allocated(st, context, c), root, c);
  }

  lemma AllocatedKids(st: State, context: nat, c: nat)
    requires context in st.kids && c !in st.kids
    ensures Allocated(st, context, c) ==
            State(st.kids[c := []][context := [c] + st.kids[context]], st.parent[c := context], st.refs[c := []], st.handles, st.dying)
    ensures Allocated(st, context, c).kids.Keys == st.kids.Keys + {c}
  {
    assert Allocated(st, context, c).kids == st.kids[c := []][context := [c] + st.kids[context]];
  }

  lemma ReferencedParts(st: State, context: nat, ptr: nat, h: nat)
    requires context in st.kids && ptr in st.refs && h !in st.kids && h != ptr
    ensures var a := Allocated(st, context, h);
            && a.refs == st.refs[h := []] && ptr in a.refs && a.handles == st.handles
            && Referenced(st, context, ptr, h) == State(a.kids, a.parent, a.refs[ptr := [h] + a.refs[ptr]], st.handles[h := ptr], a.dying)
  {
    assert st.refs[h := []][ptr := [h] + st.refs[ptr]] == st.refs[ptr := [h] + st.refs[ptr]][h := []];
  }

  lemma SameLinks(mem: Headers, st: State, st': State, root: nat)
    requires Linked(mem, st, root) && st'.kids == st.kids && st'.parent == st.parent && st'.dying == st.dying
    ensures Linked(mem, st', root)
  {
    hide Represents;
    forall x | x == root || x in st'.dying ensures Alone(mem, st', x) {
      assert Alone(mem, st, x);
    }
  }

  /** What talloc_free() does to a chunk without references. */
  ghost predicate IsFreed(st: State, st': State, root: nat, zone: set<nat>, rank: nat -> nat, c: nat) {
    && c !in st'.kids
    && (Zoned(st, root, zone) && Entered(st, zone, c) ==> Zoned(st', root, zone) && Local(st, st', zone))
    && (Fair(st, root, zone, rank) && Entered(st, zone, c) ==> Fair(st', root, zone, rank) && FreeResult(st, st', root, c, rank))
    && (HasParent(st, c) && st.kids[st.parent[c]] != [] && LoneKept(Killed(st, c), root, c) ==>
          st' == Deleted(HandedOver(Killed(st, c), root, c), c))
  }

  lemma UnreferencedSteady(st: State, root: nat, ptr: nat, context: nat)
    requires Shape(st, root) && ptr in st.refs
    ensures var h := FirstOf(st, st.refs[ptr], context);
            h.Some? ==> HasParent(st, h.value) && h.value in st.handles && st.handles[h.value] in st.refs && Steady(st, HandleFreed(st, h.value))
  {
    hide Shape, FirstOf, HandleFreed, Steady;
    var h := FirstOf(st, st.refs[ptr], context);
    if h.Some? {
      HandleOfRefs(st, root, ptr, h.value);
      HandleFreedZoned(st, root, h.value, {});
    }
  }

  /** The owner of the first reference takes over. */
  lemma TakesOver(mem: Headers, st1: State, st: State, root: nat, c: nat, h: nat)
    requires Shape(st, root) && Linked(mem, st1, root) && Shape(st1, root) && Listed(st, root, c) && c !in st.handles
    requires c in st.refs && h in st.refs[c] && h == st.refs[c][0] && HandleIsFreed(st, st1, h)
    ensures Listed(st1, root, c) && c !in st1.handles && HasParent(st1, c)
    ensures h in st.parent && st.parent[h] in st1.kids && st.parent[h] in mem && st.parent[h] !in st1.handles
    ensures FirstReferenceTakesOver(st, Stolen(st1, st.parent[h], c), c) && Steady(st1, Stolen(st1, st.parent[h], c))
    ensures Steady(st, Stolen(st1, st.parent[h], c))
  {
    hide Tree, References, Linked, HandleFreed;
    HandleOfRefs(st, root, c, h);
    HandleParent(st, root, h);
    HandleOnlyGone(st, h);
    OwnerStays(st, st1, st.parent[h]);
    StillThere(st, st1, root, c, h);
    ListedHasParent(st1, root, c);
    SameKeys(mem, st1, root);
    StolenZoned(st1, root, st.parent[h], c, {});
    HandleFreedZoned(st, root, h, {});
    hide Stolen;
    SteadyTwice(st, st1, Stolen(st1, st.parent[h], c));
  }

  /** Where a chunk that moves was. */
  lemma MovesFrom(mem: Headers, st: State, root: nat, c: nat, c': nat) returns (p: nat, i: nat)
    requires Linked(mem, st, root) && Shape(st, root) && Listed(st, root, c) && c' !in mem && c' != NULL
    ensures Represents(mem, st.kids) && p in st.kids && i < |st.kids[p]| && st.kids[p][i] == c && p !in st.kids[p]
    ensures c in st.kids && c !in st.kids[c] && c in mem && Once(st.kids)
    ensures var tc := mem[c]; forall x :: x in {tc.parent, tc.child, tc.prev, tc.next} && x != NULL ==> x in mem && x != c
  {
    Sibling(mem, st, root, c);
    p := st.parent[c];
    i :| 0 <= i < |st.kids[p]| && st.kids[p][i] == c;
    assert c in st.kids[c] ==> Child(st, root, c, c);
    hide Tree, References, Linked;
    MovedNeighbours(mem, st.kids, p, i, c);
  }

  lemma RelocatedRest(st: State, c: nat, c': nat)
    requires c in st.kids && c in st.parent && c' !in st.kids && c' !in st.parent
    ensures var st' := Relocated(st, c, c'); st'.refs == st.refs[c' := []] - {c} && st'.handles == st.handles && st'.dying == st.dying
  {
  }

  lemma MovedLinked(mem: Headers, mem': Headers, st: State, root: nat, c: nat, c': nat)
    requires Linked(mem, st, root) && Shape(st, root) && Listed(st, root, c) && c' !in mem && c' != NULL && st.dying == {}
    requires c in mem
    requires var tc := mem[c]; forall x :: x in {tc.parent, tc.child, tc.prev, tc.next} && x != NULL ==> x in mem && x != c
    requires mem' == MovedHeaders(mem, c, c')
    ensures c in st.parent && c in st.kids && c' !in st.kids && c' !in st.parent && Linked(mem', Relocated(st, c, c'), root)
  {
    hide Represents, MovedHeaders, Tree, References, Moved, KeepsLoose, Loose;
    SameKeys(mem, st, root);
    var p, i := MovesFrom(mem, st, root, c, c');
    MovedLinks(mem, st.kids, p, i, c');
    MovedKeeps(mem, st.kids, p, i, c');
    RelocatedKids(st, root, c, c', p, i);
    RootSame(st, root, c, c');
    hide Relocated;
    StillLinked(mem, mem', st, Relocated(st, c, c'), root, c');
  }

  lemma RootSame(st: State, root: nat, c: nat, c': nat)
    requires Tree(st, root) && Listed(st, root, c) && c' !in st.kids && c' != NULL && st.dying == {}
    ensures c in st.parent && c' !in st.parent && c' != root
    ensures var st' := Relocated(st, c, c'); SameParent(st, st', root) && st'.dying == {} && st'.kids.Keys == st.kids.Keys - {c} + {c'}
  {
    ListedHasParent(st, root, c);
  }

  // ----- Runs -----

  ghost predicate Unused(st: State, x: nat) {
    x !in st.kids && x != NULL
  }

  /** What an operation does to what the links stand for. */
  ghost predicate Does(st: State, st': State, root: nat, op: Op) {
    match op
    case New(context, at) =>
      if Usable(st, context) && Unused(st, at) then st' == Allocated(st, context, at) else st' == st
    case Refer(context, ptr, at) =>
      if Usable(st, context) && Usable(st, ptr) && Unused(st, at) then ptr in st.refs && st' == Referenced(st, context, ptr, at) else st' == st
    case StealTo(context, ptr) =>
      if Usable(st, context) && Usable(st, ptr) && ptr != root then HasParent(st, ptr) && st' == Stolen(st, context, ptr) else st' == st
    case UnlinkFrom(context, ptr) =>
      if Usable(st, context) && Usable(st, ptr) && ptr != root then Unlinked(st, st', root, context, ptr) else st' == st
    case FreeChunk(ptr) =>
      if !(Usable(st, ptr) && ptr != root && ptr in st.refs && ptr in st.parent) then st' == st
      else if st.refs[ptr] == [] then ChunkFreed(st, st', root, ptr)
      else if st.parent[ptr] == root && |st.refs[ptr]| == 1 then
        HandleIsFreed(st, st', st.refs[ptr][0]) || FirstReferenceTakesOver(st, st', ptr)
      else st' == st
    case FreeChildrenOf(context) =>
      if Usable(st, context) then ContextEmptied(st, st', root, context) else st' == st
    case Resize(ptr, at) =>
      if Usable(st, ptr) && ptr != root && Unused(st, at) && ptr in st.refs && st.refs[ptr] == [] then
        ptr in st.parent && at !in st.parent && st' == Relocated(st, ptr, at)
      else st' == st
  }

  ghost predicate Unlinked(st: State, st': State, root: nat, context: nat, ptr: nat) {
    && ptr in st.refs && ptr in st.parent
    && var h := FirstOf(st, st.refs[ptr], context);
       if h.Some? then HandleIsFreed(st, st', h.value)
       else if st.parent[ptr] != context then st' == st
       else if st.refs[ptr] == [] then ChunkFreed(st, st', root, ptr)
       else FirstReferenceTakesOver(st, st', ptr)
  }

  /** A chunk that is not under itself takes nothing along but what is under it, and handles of that; and all of it when
  nothing refers to it. */
  ghost predicate ChunkFreed(st: State, st': State, root: nat, c: nat) {
    && c !in st'.kids
    && (Rooted(st, root, c) ==> Local(st, st', Subtree(st, c)))
    && (Rooted(st, root, c) && Unreferenced(st, Subtree(st, c)) ==> forall x :: x in st.kids ==> (x !in st'.kids <==> Under(st, x, c)))
  }

  ghost predicate ContextEmptied(st: State, st': State, root: nat, d: nat) {
    && (d in st'.kids ==> st'.kids[d] == [])
    && (Context(st, root, d) ==> d in st'.kids && Local(st, st', Beneath(st, d)))
    && (Context(st, root, d) && Unreferenced(st, Beneath(st, d)) ==> forall x :: x in st.kids ==> (x !in st'.kids <==> x in Beneath(st, d)))
  }

  lemma FreedDone(st: State, st': State, root: nat, c: nat)
    requires Shape(st, root) && Shape(st', root) && st.dying == {} && c in st.kids && c !in st.handles
    requires IsFreed(st, st', root, Subtree(st, c), RankIn(st, c), c)
    ensures ChunkFreed(st, st', root, c)
  {
    hide Shape, Fair, Zoned, Entered, Local, FreeResult, Subtree, RankIn, Unreferenced, Rooted, Enclosed;
    if Rooted(st, root, c) {
      SubtreeZoned(st, root, c);
      if Unreferenced(st, Subtree(st, c)) {
        SubtreeFair(st, root, c);
        forall x | x in st.kids ensures x !in st'.kids <==> Under(st, x, c) {
          SubtreeFreed(st, st', root, c, x);
        }
      }
    }
  }

  lemma FreeDone(st: State, st': State, root: nat, c: nat)
    requires Shape(st, root) && Shape(st', root) && st.dying == {} && Listed(st, root, c) && c !in st.handles
    requires c in st.refs && c in st.parent
    requires if st.refs[c] == [] then IsFreed(st, st', root, Subtree(st, c), RankIn(st, c), c)
             else if st.parent[c] == root && |st.refs[c]| == 1 then
               HandleIsFreed(st, st', st.refs[c][0]) || FirstReferenceTakesOver(st, st', c)
             else st' == st
    ensures Does(st, st', root, FreeChunk(c))
  {
    hide Shape, IsFreed, ChunkFreed, HandleFreed, Stolen, Subtree, RankIn, FirstReferenceTakesOver;
    if st.refs[c] == [] {
      FreedDone(st, st', root, c);
    }
  }

  lemma UnlinkDone(st: State, st': State, root: nat, context: nat, c: nat)
    requires Shape(st, root) && Shape(st', root) && st.dying == {} && Listed(st, root, c) && c !in st.handles
    requires c in st.refs && c in st.parent
    requires var h := FirstOf(st, st.refs[c], context);
             if h.Some? then HandleIsFreed(st, st', h.value)
             else if st.parent[c] != context then st' == st
             else if st.refs[c] == [] then IsFreed(st, st', root, Subtree(st, c), RankIn(st, c), c)
             else FirstReferenceTakesOver(st, st', c)
    ensures Unlinked(st, st', root, context, c)
  {
    hide Shape, IsFreed, ChunkFreed, HandleFreed, Stolen, Subtree, RankIn, FirstReferenceTakesOver, FirstOf;
    if FirstOf(st, st.refs[c], context).None? && st.parent[c] == context && st.refs[c] == [] {
      FreedDone(st, st', root, c);
    }
  }

  lemma EmptyDone(st: State, st': State, root: nat, d: nat)
    requires Shape(st, root) && Shape(st', root) && st.dying == {} && Usable(st, d) && (d in st'.kids ==> st'.kids[d] == [])
    requires Drains(st, root, Beneath(st, d), d) ==> d in st'.kids && Local(st, st', Beneath(st, d))
    requires Drains(st, root, Beneath(st, d), d) && Fair(st, root, Beneath(st, d), RankIn(st, d)) ==> Accounted(st, st', root, d, RankIn(st, d))
    ensures ContextEmptied(st, st', root, d)
  {
    hide Shape, Fair, Drains, Local, Accounted, Beneath, RankIn, Unreferenced, Context;
    if Context(st, root, d) {
      BeneathDrains(st, root, d);
      if Unreferenced(st, Beneath(st, d)) {
        BeneathFair(st, root, d);
        forall x | x in st.kids ensures x !in st'.kids <==> x in Beneath(st, d) {
          BeneathFreed(st, st', root, d, x);
        }
      }
    }
  }
}
