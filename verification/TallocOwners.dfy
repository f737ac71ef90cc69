/** Ownership in talloc (talloc/talloc.c): structural parents, references, and what its steps do to owners.

A chunk is known by its address.  Sibling lists and reference lists are sequences here; module TallocLists shows how
links represent the former, and module TallocArena holds the operations. */
module TallocOwners {
  import opened Basics

  /** The null pointer. */
  const NULL: nat := 0

  /** The live chunks, with their children and the handles of their references, first ones first.  `parent` is what
  talloc_parent_chunk() finds: for a chunk being freed (TALLOC_FLAG_LOOP), what was left in its header.  `handles` are
  the reference handles, with what they refer to. */
  datatype State = State(kids: map<nat, seq<nat>>, parent: map<nat, nat>, refs: map<nat, seq<nat>>,
                         handles: map<nat, nat>, dying: set<nat>)

  /** Every element but one. */
  function Without(s: seq<nat>, x: nat): (r: seq<nat>)
    ensures forall y :: y in r <==> y in s && y != x
  {
    if s == [] then [] else (if s[0] == x then [] else [s[0]]) + Without(s[1..], x)
  }

  ghost predicate Distinct(s: seq<nat>) {
    forall i, j :: 0 <= i < j < |s| ==> s[i] != s[j]
  }

  lemma {:induction false} WithoutDistinct(s: seq<nat>, x: nat)
    requires Distinct(s)
    ensures Distinct(Without(s, x))
  {
    if s != [] {
      WithoutDistinct(s[1..], x);
      assert s[0] !in s[1..];
      var r := Without(s[1..], x);
      assert Without(s, x) == if s[0] == x then r else [s[0]] + r;
      assert forall i :: 0 <= i < |r| ==> r[i] in r;
    }
  }

  lemma {:induction false} WithoutNone(s: seq<nat>, x: nat)
    requires x !in s
    ensures Without(s, x) == s
  {
    if s != [] {
      WithoutNone(s[1..], x);
    }
  }

  lemma WithoutFirst(s: seq<nat>)
    requires Distinct(s) && s != []
    ensures Without(s, s[0]) == s[1..]
  {
    WithoutNone(s[1..], s[0]);
  }

  // ----- Well-formed states -----

  ghost predicate Child(st: State, root: nat, p: nat, c: nat) {
    c in st.kids && c !in st.dying && c != root && c in st.parent && st.parent[c] == p && c != p
  }

  ghost predicate HasParent(st: State, c: nat) {
    c in st.parent && st.parent[c] in st.kids && c in st.kids[st.parent[c]]
  }

  /** The sibling lists form a tree over the chunks that are not being freed, under the null context. */
  ghost predicate Tree(st: State, root: nat) {
    && st.parent.Keys == st.kids.Keys && st.refs.Keys == st.kids.Keys && NULL !in st.kids
    && root in st.kids && root !in st.dying && st.parent[root] == NULL
    && st.dying <= st.kids.Keys
    && (forall p, c :: p in st.kids && c in st.kids[p] ==> Child(st, root, p, c))
    && (forall c :: c in st.kids && c !in st.dying && c != root ==> HasParent(st, c))
  }

  ghost predicate HandleOk(st: State, root: nat, h: nat) {
    && h in st.kids && h !in st.dying && h != root && st.kids[h] == []
    && h in st.refs && st.refs[h] == []
    && h in st.handles && st.handles[h] in st.refs && h in st.refs[st.handles[h]]
  }

  ghost predicate Refers(st: State, h: nat, x: nat) {
    h in st.handles && st.handles[h] == x
  }

  /** The handles of a chunk are exactly those in its list, once; nothing refers to a handle or to a chunk being
  freed. */
  ghost predicate References(st: State, root: nat) {
    && (forall h :: h in st.handles ==> HandleOk(st, root, h))
    && (forall x, h :: x in st.refs && h in st.refs[x] ==> Refers(st, h, x))
    && (forall x :: x in st.refs ==> Distinct(st.refs[x]))
    && (forall d :: d in st.dying ==> Dying(st, d))
  }

  ghost predicate Dying(st: State, d: nat) {
    d in st.refs && st.refs[d] == [] && d !in st.handles && d in st.parent && st.parent[d] !in st.handles
  }

  ghost predicate Shape(st: State, root: nat) {
    Tree(st, root) && References(st, root)
  }

  // ----- Owners -----

  /** A chunk is owned by its parent, and by the parent of each of its reference handles. */
  ghost predicate Owns(st: State, o: nat, x: nat) {
    && x in st.parent && x in st.refs
    && (st.parent[x] == o || exists h :: h in st.refs[x] && h in st.parent && st.parent[h] == o)
  }

  /** The chunks whose owners matter: not handles, and not being freed. */
  ghost predicate Proper(st: State, root: nat, x: nat) {
    x in st.kids && x !in st.dying && x !in st.handles && x != root
  }

  ghost predicate Freed(st: State, st': State, x: nat) {
    x in st.kids && x !in st'.kids
  }

  /** Chunks are only freed, and what is left of handles and of chunks being freed does not move. */
  ghost predicate OnlyFrees(st: State, st': State) {
    && st'.kids.Keys <= st.kids.Keys && st'.dying == st.dying && st'.handles.Keys <= st.handles.Keys
    && (forall h :: h in st'.handles ==> st'.handles[h] == st.handles[h] && h in st.parent && h in st'.parent && st'.parent[h] == st.parent[h])
    && (forall h :: h in st.handles && h in st'.kids ==> h in st'.handles)
    && (forall x :: x in st.dying ==> x in st.parent && x in st'.parent && st'.parent[x] == st.parent[x])
  }

  /** No chunk gets a new owner. */
  ghost predicate NoNewOwner(st: State, st': State, root: nat) {
    forall o, x :: Proper(st', root, x) && Owns(st', o, x) ==> Owns(st, o, x)
  }

  /** A surviving chunk loses no other owners than those freed, and the one whose children go. */
  ghost predicate OnlyFreedDropped(st: State, st': State, root: nat, d: nat) {
    forall o, x :: Proper(st', root, x) && Owns(st, o, x) ==> Owns(st', o, x) || o == d || Freed(st, st', o)
  }

  /** A freed chunk had no other owners than those, but for some that come after it in the order. */
  ghost predicate NoneLeft(st: State, st': State, root: nat, d: nat, rank: nat -> nat) {
    forall o, x :: Proper(st, root, x) && x !in st'.kids && Owns(st, o, x) && rank(o) < rank(x) ==> o == d || Freed(st, st', o)
  }

  /** What freeing the children of d does to owners. */
  ghost predicate Accounted(st: State, st': State, root: nat, d: nat, rank: nat -> nat) {
    OnlyFrees(st, st') && NoNewOwner(st, st', root) && OnlyFreedDropped(st, st', root, d) && NoneLeft(st, st', root, d, rank)
  }

  lemma AccountedSelf(st: State, root: nat, d: nat, rank: nat -> nat)
    requires Shape(st, root)
    ensures Accounted(st, st, root, d, rank)
  {
  }

  lemma OnlyFreesTwice(st0: State, st1: State, st2: State)
    requires OnlyFrees(st0, st1) && OnlyFrees(st1, st2)
    ensures OnlyFrees(st0, st2)
  {
  }

  lemma ProperBefore(st: State, st': State, root: nat, x: nat)
    requires OnlyFrees(st, st')
    ensures Proper(st', root, x) ==> Proper(st, root, x)
    ensures Proper(st, root, x) && x in st'.kids ==> Proper(st', root, x)
  {
  }

  lemma FreedTwice(st0: State, st1: State, st2: State, o: nat)
    requires OnlyFrees(st0, st1) && OnlyFrees(st1, st2)
    ensures Freed(st0, st1, o) || Freed(st1, st2, o) ==> Freed(st0, st2, o)
  {
  }

  lemma AccountedTwice(st0: State, st1: State, st2: State, root: nat, d: nat, rank: nat -> nat)
    requires Accounted(st0, st1, root, d, rank) && Accounted(st1, st2, root, d, rank)
    ensures Accounted(st0, st2, root, d, rank)
  {
    hide Owns, Proper, OnlyFrees, Freed;
    OnlyFreesTwice(st0, st1, st2);
    forall o, x | Proper(st2, root, x) && Owns(st2, o, x) ensures Owns(st0, o, x) {
      ProperBefore(st1, st2, root, x);
    }
    forall o, x | Proper(st2, root, x) && Owns(st0, o, x) ensures Owns(st2, o, x) || o == d || Freed(st0, st2, o) {
      ProperBefore(st1, st2, root, x);
      FreedTwice(st0, st1, st2, o);
      assert Owns(st1, o, x) || o == d || Freed(st0, st1, o);
    }
    forall o, x | Proper(st0, root, x) && x !in st2.kids && Owns(st0, o, x) && rank(o) < rank(x)
      ensures o == d || Freed(st0, st2, o)
    {
      ProperBefore(st0, st1, root, x);
      FreedTwice(st0, st1, st2, o);
      if x in st1.kids {
        assert Owns(st1, o, x) || o == d || Freed(st0, st1, o);
      }
    }
  }

  // ----- The steps of a free -----

  /** Out of the list of its parent: what stays in the header is the parent when it was the first child, and else
  nothing. */
  function Detached(st: State, c: nat): State
    requires c in st.parent && st.parent[c] in st.kids && st.kids[st.parent[c]] != []
  {
    var p := st.parent[c];
    st.(kids := st.kids[p := Without(st.kids[p], c)], parent := st.parent[c := if st.kids[p][0] == c then p else NULL])
  }

  /** _talloc_steal_internal(). */
  function Stolen(st: State, q: nat, c: nat): State
    requires c in st.parent && st.parent[c] in st.kids && q in st.kids
  {
    if q == c then st
    else
      var p := st.parent[c];
      var kids := st.kids[p := Without(st.kids[p], c)];
      st.(kids := kids[q := [c] + kids[q]], parent := st.parent[c := q])
  }

  /** The free of a reference handle: its destructor takes it out of the list of what it refers to. */
  function HandleFreed(st: State, h: nat): State
    requires h in st.parent && st.parent[h] in st.kids && h in st.handles && st.handles[h] in st.refs
  {
    var p, t := st.parent[h], st.handles[h];
    State(st.kids[p := Without(st.kids[p], h)] - {h}, st.parent - {h}, st.refs[t := Without(st.refs[t], h)] - {h},
          st.handles - {h}, st.dying)
  }

  /** The beginning of a free: out of its list, and marked. */
  function Killed(st: State, c: nat): State
    requires c in st.parent && st.parent[c] in st.kids && st.kids[st.parent[c]] != []
  {
    Detached(st, c).(dying := st.dying + {c})
  }

  /** Its end. */
  function Deleted(st: State, d: nat): State {
    st.(kids := st.kids - {d}, parent := st.parent - {d}, refs := st.refs - {d}, dying := st.dying - {d})
  }

  /** A chunk that can be in a list, and is. */
  ghost predicate Listed(st: State, root: nat, c: nat) {
    c in st.kids && c !in st.dying && c != root
  }

  lemma ListedHasParent(st: State, root: nat, c: nat)
    requires Tree(st, root) && Listed(st, root, c)
    ensures HasParent(st, c) && st.kids[st.parent[c]] != []
    ensures c in st.refs && c != NULL && st.parent[c] != NULL
  {
  }

  lemma StolenTree(st: State, root: nat, q: nat, c: nat)
    requires Tree(st, root) && Listed(st, root, c) && q in st.kids
    ensures HasParent(st, c) && Tree(Stolen(st, q, c), root)
  {
    ListedHasParent(st, root, c);
    if q != c {
      var st', p := Stolen(st, q, c), st.parent[c];
      forall p', c' | p' in st'.kids && c' in st'.kids[p'] ensures Child(st', root, p', c') {
        assert c' != c ==> c' in st.kids[p'] && Child(st, root, p', c');
        assert c' == c ==> p' == q;
      }
      forall c' | c' in st'.kids && c' !in st'.dying && c' != root ensures HasParent(st', c') {
        assert HasParent(st, c');
      }
    }
  }

  lemma StolenShape(st: State, root: nat, q: nat, c: nat)
    requires Shape(st, root) && Listed(st, root, c) && q in st.kids && q !in st.handles
    ensures HasParent(st, c) && Shape(Stolen(st, q, c), root)
  {
    hide Tree;
    StolenTree(st, root, q, c);
    var st' := Stolen(st, q, c);
    forall h | h in st'.handles ensures HandleOk(st', root, h) {
      assert HandleOk(st, root, h);
    }
    forall x, h | x in st'.refs && h in st'.refs[x] ensures Refers(st', h, x) {
      assert Refers(st, h, x);
    }
  }

  lemma KilledTree(st: State, root: nat, c: nat)
    requires Tree(st, root) && Listed(st, root, c)
    ensures HasParent(st, c) && st.kids[st.parent[c]] != [] && Tree(Killed(st, c), root)
    ensures Killed(st, c).kids.Keys - Killed(st, c).dying == st.kids.Keys - st.dying - {c}
  {
    ListedHasParent(st, root, c);
    var st', p := Killed(st, c), st.parent[c];
    assert Child(st, root, p, c);
    forall p', c' | p' in st'.kids && c' in st'.kids[p'] ensures Child(st', root, p', c') {
      assert c' in st.kids[p'] && Child(st, root, p', c');
    }
    forall c' | c' in st'.kids && c' !in st'.dying && c' != root ensures HasParent(st', c') {
      assert HasParent(st, c');
    }
  }

  lemma KilledReferences(st: State, root: nat, c: nat)
    requires References(st, root) && HasParent(st, c) && st.kids[st.parent[c]] != []
    requires c !in st.handles && c in st.refs && st.refs[c] == [] && NULL !in st.kids
    ensures References(Killed(st, c), root)
  {
    hide Distinct;
    var st' := Killed(st, c);
    forall h | h in st'.handles ensures HandleOk(st', root, h) {
      assert HandleOk(st, root, h);
    }
    forall x, h | x in st'.refs && h in st'.refs[x] ensures Refers(st', h, x) {
      assert Refers(st, h, x);
    }
    assert st.parent[c] in st.handles ==> HandleOk(st, root, st.parent[c]);
    assert NULL in st.handles ==> HandleOk(st, root, NULL);
    forall d | d in st'.dying ensures Dying(st', d) {
      assert d != c ==> Dying(st, d);
    }
  }

  lemma NullIsNone(st: State, root: nat)
    requires Tree(st, root)
    ensures NULL !in st.kids
  {
  }

  lemma KilledShape(st: State, root: nat, c: nat)
    requires Shape(st, root) && Listed(st, root, c) && c !in st.handles && c in st.refs && st.refs[c] == []
    ensures HasParent(st, c) && st.kids[st.parent[c]] != [] && Shape(Killed(st, c), root)
    ensures Killed(st, c).kids.Keys - Killed(st, c).dying == st.kids.Keys - st.dying - {c}
  {
    hide Tree, References;
    NullIsNone(st, root);
    KilledTree(st, root, c);
    KilledReferences(st, root, c);
  }

  lemma DeletedTree(st: State, root: nat, d: nat)
    requires Tree(st, root) && d in st.dying && st.kids[d] == []
    ensures Tree(Deleted(st, d), root)
    ensures Deleted(st, d).kids.Keys - Deleted(st, d).dying == st.kids.Keys - st.dying
  {
    var st' := Deleted(st, d);
    forall p, c | p in st'.kids && c in st'.kids[p] ensures Child(st', root, p, c) {
      assert Child(st, root, p, c);
    }
    forall c | c in st'.kids && c !in st'.dying && c != root ensures HasParent(st', c) {
      assert HasParent(st, c);
    }
  }

  lemma DeletedReferences(st: State, root: nat, d: nat)
    requires References(st, root) && d in st.dying && d in st.kids && st.kids[d] == []
    ensures References(Deleted(st, d), root)
  {
    hide Distinct;
    var st' := Deleted(st, d);
    assert Dying(st, d);
    forall h | h in st'.handles ensures HandleOk(st', root, h) {
      assert HandleOk(st, root, h);
    }
    forall x, h | x in st'.refs && h in st'.refs[x] ensures Refers(st', h, x) {
      assert Refers(st, h, x);
    }
    forall x | x in st'.dying ensures Dying(st', x) {
      assert Dying(st, x);
    }
  }

  lemma DyingKept(st: State, root: nat, d: nat)
    requires Tree(st, root) && d in st.dying
    ensures d in st.kids
  {
  }

  lemma DeletedShape(st: State, root: nat, d: nat)
    requires Shape(st, root) && d in st.dying && st.kids[d] == []
    ensures Shape(Deleted(st, d), root)
    ensures Deleted(st, d).kids.Keys - Deleted(st, d).dying == st.kids.Keys - st.dying
  {
    hide Tree, References;
    DyingKept(st, root, d);
    DeletedTree(st, root, d);
    DeletedReferences(st, root, d);
  }

  lemma HandleFreedTree(st: State, root: nat, h: nat)
    requires Shape(st, root) && h in st.handles
    ensures HasParent(st, h) && st.handles[h] in st.refs && Tree(HandleFreed(st, h), root)
    ensures HandleFreed(st, h).kids.Keys == st.kids.Keys - {h}
  {
    assert HandleOk(st, root, h);
    ListedHasParent(st, root, h);
    var st', p, t := HandleFreed(st, h), st.parent[h], st.handles[h];
    assert Child(st, root, p, h);
    forall p', c | p' in st'.kids && c in st'.kids[p'] ensures Child(st', root, p', c) {
      assert c in st.kids[p'] && Child(st, root, p', c);
    }
    forall c | c in st'.kids && c !in st'.dying && c != root ensures HasParent(st', c) {
      assert HasParent(st, c);
      assert st.parent[c] != h;
    }
  }

  lemma HandleFreedShape(st: State, root: nat, h: nat)
    requires Shape(st, root) && h in st.handles
    ensures HasParent(st, h) && st.handles[h] in st.refs && Shape(HandleFreed(st, h), root)
    ensures HandleFreed(st, h).kids.Keys == st.kids.Keys - {h}
  {
    hide Tree, Distinct;
    HandleFreedTree(st, root, h);
    HandleOkStays(st, root, h);
    var st', t := HandleFreed(st, h), st.handles[h];
    assert Refers(st, h, t);
    WithoutDistinct(st.refs[t], h);
    forall x, h' | x in st'.refs && h' in st'.refs[x] ensures Refers(st', h', x) {
      assert h' in st.refs[x] && Refers(st, h', x);
    }
    hide HandleOk;
  }

  lemma HandleOkStays(st: State, root: nat, h: nat)
    requires References(st, root) && h in st.handles && HasParent(st, h)
    ensures st.handles[h] in st.refs
    ensures forall h' :: h' in HandleFreed(st, h).handles ==> HandleOk(HandleFreed(st, h), root, h')
  {
    assert HandleOk(st, root, h);
    forall h' | h' in HandleFreed(st, h).handles ensures HandleOk(HandleFreed(st, h), root, h') {
      assert HandleOk(st, root, h');
    }
  }

  // ----- The walk up -----

  const TALLOC_MAX_DEPTH: nat := 10000

  /** The walk up from x meets c, in so many chunks.  Memory that was freed is not read: `Zoned` below says where none
  would be. */
  ghost predicate Meets(st: State, x: nat, c: nat, depth: nat)
    decreases depth
  {
    depth > 0 && x != NULL && x in st.parent && (x == c || Meets(st, st.parent[x], c, depth - 1))
  }

  /** talloc_is_parent(): a chunk that is c, or is found under it. */
  ghost predicate Below(st: State, x: nat, c: nat) {
    Meets(st, x, c, TALLOC_MAX_DEPTH)
  }

  /** How many references come from below the chunk before one that does not. */
  ghost function Leading(st: State, c: nat, rs: seq<nat>): (k: nat)
    ensures k <= |rs|
    ensures forall i :: 0 <= i < k ==> Below(st, rs[i], c)
    ensures k < |rs| ==> !Below(st, rs[k], c)
  {
    if rs == [] || !Below(st, rs[0], c) then 0 else 1 + Leading(st, c, rs[1..])
  }

  /** These handles are freed, in that order. */
  ghost function Dropped(st: State, hs: seq<nat>): State
    decreases hs
  {
    if hs == [] then st
    else if HasParent(st, hs[0]) && hs[0] in st.handles && st.handles[hs[0]] in st.refs then
      Dropped(HandleFreed(st, hs[0]), hs[1..])
    else Dropped(st, hs[1..])
  }

  /** The first child of d has a reference that does not come from below: it is not freed. */
  ghost predicate HandsOver(st: State, d: nat) {
    && d in st.kids && st.kids[d] != []
    && var c := st.kids[d][0]; c in st.refs && Leading(st, c, st.refs[c]) < |st.refs[c]|
  }

  /** Who gets an abandoned child of d: the null context stands for nobody, and then what was left of d's parent. */
  ghost function HandedTo(st: State, root: nat, d: nat, newParent: nat): nat {
    if newParent == root && d in st.parent && st.parent[d] != NULL && st.parent[d] in st.kids then st.parent[d] else newParent
  }

  /** The owner of the first reference, before any goes. */
  ghost function FirstOwnerOf(st: State, root: nat, c: nat): nat {
    if c in st.refs && st.refs[c] != [] && st.refs[c][0] in st.parent then st.parent[st.refs[c][0]] else root
  }

  /** The first child of d, once its references from below are gone, and the next one, is stolen. */
  ghost function HandedOver(st: State, root: nat, d: nat): State
    requires HandsOver(st, d)
  {
    var c := st.kids[d][0];
    var st1 := Dropped(st, st.refs[c][..Leading(st, c, st.refs[c]) + 1]);
    var q := HandedTo(st1, root, d, FirstOwnerOf(st, root, c));
    if HasParent(st1, c) && q in st1.kids then Stolen(st1, q, c) else st1
  }

  /** No child but one, which is handed over to another chunk. */
  ghost predicate LoneKept(st: State, root: nat, d: nat) {
    HandsOver(st, d) && var st' := HandedOver(st, root, d); d in st'.kids && st'.kids[d] == []
  }

  // ----- Where a free can reach -----

  /** A chunk of the zone that is not being freed yet. */
  ghost predicate Within(st: State, zone: set<nat>, x: nat) {
    x in zone && x !in st.dying
  }

  /** A zone holds whatever is below one of its chunks, and a chunk being freed has nobody of the zone above it but chunks
  being freed, all of them there still. */
  ghost predicate Zoned(st: State, root: nat, zone: set<nat>) {
    && root !in zone && NULL !in zone
    && (forall x :: x in st.parent && x !in zone ==> st.parent[x] !in zone)
    && (forall d :: d in st.dying && d in st.parent ==> Above(st, zone, st.parent[d]))
  }

  ghost predicate Above(st: State, zone: set<nat>, p: nat) {
    !Within(st, zone, p) && (p == NULL || p in st.kids)
  }

  /** A chunk of the zone that can be freed first. */
  ghost predicate Entered(st: State, zone: set<nat>, c: nat) {
    c in zone && c in st.parent && !Within(st, zone, st.parent[c])
  }

  /** A chunk whose children can be freed: being freed, or out of the zone that holds its children. */
  ghost predicate Drains(st: State, root: nat, zone: set<nat>, d: nat) {
    Zoned(st, root, zone) && d in st.kids && (forall c :: c in st.kids[d] ==> c in zone) && !Within(st, zone, d)
  }

  /** Out of the zone nothing is freed but handles of chunks in the zone, and nothing is moved. */
  ghost predicate Local(st: State, st': State, zone: set<nat>) {
    && st'.kids.Keys <= st.kids.Keys
    && (forall x :: x in st.kids && x !in zone && x !in st.handles ==> x in st'.kids && x !in st'.handles)
    && (forall h :: h in st.handles && h !in zone && st.handles[h] !in zone ==> h in st'.kids && SameHandle(st, st', h))
    && (forall x :: x in st'.kids && x !in zone ==> x in st.parent && x in st'.parent && st'.parent[x] == st.parent[x])
  }

  ghost predicate SameHandle(st: State, st': State, h: nat) {
    h in st.handles && h in st'.handles && st'.handles[h] == st.handles[h]
  }

  /** The same chunks are being freed, with the same parents left; no chunk becomes a handle. */
  ghost predicate Steady(st: State, st': State) {
    && st'.dying == st.dying && st'.handles.Keys <= st.handles.Keys
    && (forall d :: d in st.dying ==> d in st.parent && d in st'.parent && st'.parent[d] == st.parent[d])
  }

  lemma LocalTwice(st0: State, st1: State, st2: State, zone: set<nat>)
    requires Local(st0, st1, zone) && Local(st1, st2, zone)
    ensures Local(st0, st2, zone)
  {
    forall h | h in st0.handles && h !in zone && st0.handles[h] !in zone ensures h in st2.kids && SameHandle(st0, st2, h) {
      assert SameHandle(st0, st1, h);
    }
  }

  lemma LocalSelf(st: State, root: nat, zone: set<nat>)
    requires Shape(st, root)
    ensures Local(st, st, zone) && Steady(st, st)
  {
  }

  lemma HandleFreedZoned(st: State, root: nat, h: nat, zone: set<nat>)
    requires Shape(st, root) && h in st.handles
    ensures HasParent(st, h) && st.handles[h] in st.refs
    ensures h in zone || st.handles[h] in zone ==> Local(st, HandleFreed(st, h), zone)
    ensures Steady(st, HandleFreed(st, h))
    ensures Zoned(st, root, zone) ==> Zoned(HandleFreed(st, h), root, zone)
  {
    hide Tree;
    HandleFreedTree(st, root, h);
    assert HandleOk(st, root, h);
    forall d | d in st.dying ensures d != h && d in st.parent && st.parent[d] != h {
      assert Dying(st, d);
    }
    hide HandleOk, References;
  }

  lemma DyingParents(st: State, root: nat)
    requires Shape(st, root)
    ensures forall d :: d in st.dying ==> d in st.parent
  {
  }

  lemma ParentsOfKids(st: State, root: nat)
    requires Tree(st, root)
    ensures st.parent.Keys == st.kids.Keys && st.refs.Keys == st.kids.Keys
  {
  }

  lemma StolenZoned(st: State, root: nat, q: nat, c: nat, zone: set<nat>)
    requires Shape(st, root) && Listed(st, root, c) && q in st.kids
    ensures HasParent(st, c) && Steady(st, Stolen(st, q, c))
    ensures c in zone ==> Local(st, Stolen(st, q, c), zone)
    ensures c in zone && Zoned(st, root, zone) ==> Zoned(Stolen(st, q, c), root, zone)
  {
    hide Tree, References;
    ListedHasParent(st, root, c);
    DyingParents(st, root);
    ParentsOfKids(st, root);
    HandlesHaveParents(st, root);
  }

  lemma KilledZoned(st: State, root: nat, c: nat, zone: set<nat>)
    requires Shape(st, root) && Listed(st, root, c)
    ensures HasParent(st, c) && st.kids[st.parent[c]] != []
    ensures c in zone ==> Local(st, Killed(st, c), zone)
    ensures Zoned(st, root, zone) && Entered(st, zone, c) ==> Zoned(Killed(st, c), root, zone)
  {
    hide Tree, References, Local;
    ListedHasParent(st, root, c);
    ParentsOfKids(st, root);
    HandlesHaveParents(st, root);
    KilledLocal(st, c, zone);
    var st' := Killed(st, c);
    if Zoned(st, root, zone) && Entered(st, zone, c) {
      forall d | d in st'.dying && d in st'.parent ensures Above(st', zone, st'.parent[d]) {
        assert d != c ==> Above(st, zone, st.parent[d]);
      }
    }
  }

  lemma KilledLocal(st: State, c: nat, zone: set<nat>)
    requires HasParent(st, c) && st.kids[st.parent[c]] != []
    requires st.parent.Keys == st.kids.Keys && forall h :: h in st.handles ==> h in st.parent
    ensures c in zone ==> Local(st, Killed(st, c), zone)
  {
  }

  /** Nobody being freed was below it. */
  ghost predicate Lowest(st: State, c: nat) {
    forall d :: d in st.dying && d in st.parent && d != c ==> st.parent[d] != c
  }

  lemma DeletedZoned(st: State, root: nat, c: nat, zone: set<nat>)
    requires Shape(st, root) && c in st.dying
    ensures c in zone ==> Local(st, Deleted(st, c), zone)
    ensures c in zone && Zoned(st, root, zone) && Lowest(st, c) ==> Zoned(Deleted(st, c), root, zone)
  {
    hide Tree, References, Local;
    ParentsOfKids(st, root);
    HandlesHaveParents(st, root);
    DyingNoHandle(st, root, c);
    DeletedLocal(st, c, zone);
    var st' := Deleted(st, c);
    if c in zone && Zoned(st, root, zone) && Lowest(st, c) {
      forall d | d in st'.dying && d in st'.parent ensures Above(st', zone, st'.parent[d]) {
        assert Above(st, zone, st.parent[d]);
      }
    }
  }

  lemma DyingNoHandle(st: State, root: nat, c: nat)
    requires References(st, root) && c in st.dying
    ensures c !in st.handles
  {
    assert Dying(st, c);
  }

  lemma DeletedLocal(st: State, c: nat, zone: set<nat>)
    requires st.parent.Keys == st.kids.Keys && c !in st.handles && forall h :: h in st.handles ==> h in st.parent
    ensures c in zone ==> Local(st, Deleted(st, c), zone)
  {
  }

  lemma KilledLowest(st: State, root: nat, c: nat, zone: set<nat>, st': State)
    requires Shape(st, root) && Listed(st, root, c) && HasParent(st, c) && st.kids[st.parent[c]] != []
    requires Zoned(st, root, zone) && Entered(st, zone, c) && Steady(Killed(st, c), st')
    ensures Lowest(st', c)
  {
    forall d | d in st'.dying && d in st'.parent && d != c ensures st'.parent[d] != c {
      assert Above(st, zone, st.parent[d]);
    }
  }

  /** The children of a chunk being freed, and of one out of the zone, stay those that can be freed. */
  lemma DrainsStill(st: State, root: nat, zone: set<nat>, d: nat, st': State)
    requires Shape(st, root) && Shape(st', root) && Drains(st, root, zone, d) && Zoned(st', root, zone)
    requires Local(st, st', zone)
    requires st'.dying == st.dying && (d in st.dying || d !in st.handles)
    ensures Drains(st', root, zone, d)
  {
    assert d in st.dying ==> d in st'.kids;
    forall c | c in st'.kids[d] ensures c in zone {
      assert Child(st', root, d, c);
      if c !in zone {
        ListedHasParent(st, root, c);
      }
    }
  }

  // ----- Fair references -----

  /** Inside the zone owners come first in some order: parents do. */
  ghost predicate Rising(st: State, zone: set<nat>, rank: nat -> nat) {
    forall x :: x in st.parent && Within(st, zone, x) ==> rank(st.parent[x]) < rank(x)
  }

  /** So do the owners of references, but for references that come from below; none hangs off the null context. */
  ghost predicate FairRef(st: State, root: nat, h: nat, x: nat, rank: nat -> nat) {
    Below(st, h, x) || (h in st.parent && st.parent[h] != root && rank(st.parent[h]) < rank(x))
  }

  /** References from below come last. */
  ghost predicate BelowLast(st: State, x: nat, rs: seq<nat>) {
    rs == [] || ((Below(st, rs[0], x) ==> forall h :: h in rs ==> Below(st, h, x)) && BelowLast(st, x, rs[1..]))
  }

  ghost predicate FairRefs(st: State, root: nat, x: nat, rank: nat -> nat)
    requires x in st.refs
  {
    (forall h :: h in st.refs[x] ==> FairRef(st, root, h, x, rank)) && BelowLast(st, x, st.refs[x])
  }

  /** What the laws of ownership need of the chunks that may be freed. */
  ghost predicate Fair(st: State, root: nat, zone: set<nat>, rank: nat -> nat) {
    && Zoned(st, root, zone) && Rising(st, zone, rank)
    && (forall x :: x in st.refs && Within(st, zone, x) ==> FairRefs(st, root, x, rank))
  }

  /** A walk that ends in the zone was in it all the way. */
  lemma {:induction false} MeetsWithin(st: State, root: nat, zone: set<nat>, y: nat, x: nat, depth: nat)
    requires Zoned(st, root, zone) && Within(st, zone, x) && Meets(st, y, x, depth)
    ensures y in st.parent && Within(st, zone, y)
    decreases depth
  {
    if y != x {
      MeetsWithin(st, root, zone, st.parent[y], x, depth - 1);
      assert y in st.dying ==> Above(st, zone, st.parent[y]);
    }
  }

  /** What is found below comes after in the order. */
  lemma {:induction false} MeetsRank(st: State, root: nat, zone: set<nat>, rank: nat -> nat, y: nat, x: nat, depth: nat)
    requires Zoned(st, root, zone) && Rising(st, zone, rank) && Within(st, zone, x) && Meets(st, y, x, depth)
    ensures rank(x) <= rank(y)
    decreases depth
  {
    if y != x {
      MeetsRank(st, root, zone, rank, st.parent[y], x, depth - 1);
      MeetsWithin(st, root, zone, y, x, depth);
    }
  }

  /** A reference from below has an owner that comes after, or the chunk itself. */
  lemma BelowRank(st: State, root: nat, zone: set<nat>, rank: nat -> nat, h: nat, x: nat)
    requires Zoned(st, root, zone) && Rising(st, zone, rank) && Within(st, zone, x) && Below(st, h, x) && h != x
    ensures h in st.parent && rank(x) <= rank(st.parent[h])
  {
    MeetsRank(st, root, zone, rank, st.parent[h], x, TALLOC_MAX_DEPTH - 1);
  }

  /** Walks in the zone do not notice what happens to a chunk that has nobody of the zone above it. */
  lemma {:induction false} MeetsSame(st: State, st': State, root: nat, zone: set<nat>, c: nat, y: nat, x: nat, depth: nat)
    requires Zoned(st, root, zone) && Within(st, zone, x) && Meets(st, y, x, depth)
    requires c in st.parent ==> !Within(st, zone, st.parent[c])
    requires forall z :: z in st.parent && z != c ==> z in st'.parent && st'.parent[z] == st.parent[z]
    requires x in st'.parent
    ensures Meets(st', y, x, depth)
    decreases depth
  {
    if y != x {
      MeetsWithin(st, root, zone, st.parent[y], x, depth - 1);
      MeetsSame(st, st', root, zone, c, st.parent[y], x, depth - 1);
    }
  }

  /** Nor those that a handle is not on. */
  lemma {:induction false} MeetsWithout(st: State, h: nat, y: nat, x: nat, depth: nat)
    requires HasParent(st, h) && h in st.handles && st.handles[h] in st.refs && y != h
    requires forall z :: z in st.parent ==> st.parent[z] != h
    ensures Meets(st, y, x, depth) <==> Meets(HandleFreed(st, h), y, x, depth)
    decreases depth
  {
    if depth > 0 && y in st.parent {
      MeetsWithout(st, h, st.parent[y], x, depth - 1);
    }
  }

  lemma NobodyUnderHandle(st: State, root: nat, h: nat)
    requires Shape(st, root) && h in st.handles
    ensures forall z :: z in st.parent ==> st.parent[z] != h
  {
    assert HandleOk(st, root, h);
    forall z | z in st.parent ensures st.parent[z] != h {
      if z in st.dying {
        assert Dying(st, z);
      } else if z != root {
        assert HasParent(st, z);
      }
    }
  }

  lemma BelowWithout(st: State, root: nat, h: nat, y: nat, x: nat)
    requires Shape(st, root) && h in st.handles && y != h
    ensures HasParent(st, h) && st.handles[h] in st.refs
    ensures Below(st, y, x) <==> Below(HandleFreed(st, h), y, x)
  {
    HandleFreedTree(st, root, h);
    NobodyUnderHandle(st, root, h);
    hide Shape, HandleFreed;
    MeetsWithout(st, h, y, x, TALLOC_MAX_DEPTH);
  }

  lemma {:induction false} LeadingWithout(st: State, root: nat, h: nat, c: nat, rs: seq<nat>)
    requires Shape(st, root) && h in st.handles && h !in rs
    ensures HasParent(st, h) && st.handles[h] in st.refs
    ensures Leading(HandleFreed(st, h), c, rs) == Leading(st, c, rs)
    decreases rs
  {
    HandleFreedTree(st, root, h);
    hide Shape, HandleFreed, Below;
    if rs != [] {
      BelowWithout(st, root, h, rs[0], c);
      LeadingWithout(st, root, h, c, rs[1..]);
    }
  }

  lemma KilledBelow(st: State, root: nat, c: nat, zone: set<nat>, y: nat, x: nat)
    requires Shape(st, root) && Listed(st, root, c) && c !in st.handles && Zoned(st, root, zone) && Entered(st, zone, c)
    requires x in st.parent && Within(st, zone, x) && x != c
    ensures HasParent(st, c) && st.kids[st.parent[c]] != []
    ensures Below(st, y, x) <==> Below(Killed(st, c), y, x)
  {
    hide Shape;
    KilledZoned(st, root, c, zone);
    var st' := Killed(st, c);
    if Below(st, y, x) {
      MeetsSame(st, st', root, zone, c, y, x, TALLOC_MAX_DEPTH);
    }
    if Below(st', y, x) {
      assert Above(st', zone, st'.parent[c]);
      MeetsSame(st', st, root, zone, c, y, x, TALLOC_MAX_DEPTH);
    }
  }

  lemma DeletedBelow(st: State, root: nat, c: nat, zone: set<nat>, y: nat, x: nat)
    requires Shape(st, root) && c in st.dying && c in zone && Lowest(st, c) && Zoned(st, root, zone)
    requires x in st.parent && Within(st, zone, x)
    ensures Below(st, y, x) <==> Below(Deleted(st, c), y, x)
  {
    hide Shape, Lowest;
    DeletedZoned(st, root, c, zone);
    var st' := Deleted(st, c);
    if Below(st, y, x) {
      assert c in st.parent ==> Above(st, zone, st.parent[c]);
      MeetsSame(st, st', root, zone, c, y, x, TALLOC_MAX_DEPTH);
    }
    if Below(st', y, x) {
      MeetsSame(st', st, root, zone, c, y, x, TALLOC_MAX_DEPTH);
    }
  }

  lemma StolenRising(st: State, q: nat, c: nat, zone: set<nat>, rank: nat -> nat)
    requires HasParent(st, c) && q in st.kids && rank(q) < rank(c) && Rising(st, zone, rank)
    ensures Rising(Stolen(st, q, c), zone, rank)
  {
  }

  /** A chunk that moves takes what is below it along, and comes below nothing that its new owner does not come after. */
  lemma StolenBelow(st: State, root: nat, q: nat, c: nat, zone: set<nat>, rank: nat -> nat, y: nat, x: nat)
    requires Shape(st, root) && Listed(st, root, c) && Entered(st, zone, c) && q in st.kids && rank(q) < rank(c)
    requires Zoned(st, root, zone) && Rising(st, zone, rank) && x in st.parent && Within(st, zone, x)
    requires y in st.parent && y != c && y != x && FairRef(st, root, y, x, rank)
    ensures HasParent(st, c) && (Below(st, y, x) <==> Below(Stolen(st, q, c), y, x))
  {
    hide Shape, Rising, Zoned;
    StolenZoned(st, root, q, c, zone);
    StolenRising(st, q, c, zone, rank);
    var st' := Stolen(st, q, c);
    if Below(st, y, x) {
      MeetsSame(st, st', root, zone, c, y, x, TALLOC_MAX_DEPTH);
    }
    if Below(st', y, x) {
      BelowRank(st', root, zone, rank, y, x);
    }
  }

  // ----- The steps keep references fair -----

  lemma {:induction false} BelowLastSame(st: State, st': State, x: nat, rs: seq<nat>)
    requires forall h :: h in rs ==> (Below(st, h, x) <==> Below(st', h, x))
    ensures BelowLast(st, x, rs) <==> BelowLast(st', x, rs)
    decreases rs
  {
    hide Below;
    if rs != [] {
      BelowLastSame(st, st', x, rs[1..]);
    }
  }

  lemma {:induction false} BelowLastWithout(st: State, x: nat, rs: seq<nat>, h: nat)
    requires BelowLast(st, x, rs)
    ensures BelowLast(st, x, Without(rs, h))
    decreases rs
  {
    hide Below;
    if rs != [] {
      BelowLastWithout(st, x, rs[1..], h);
      var r := Without(rs[1..], h);
      assert Without(rs, h) == if rs[0] == h then r else [rs[0]] + r;
      assert rs[0] != h ==> ([rs[0]] + r)[1..] == r;
    }
  }

  /** All references come from below, or the first does not. */
  lemma {:induction false} BelowLastLeading(st: State, x: nat, rs: seq<nat>)
    requires BelowLast(st, x, rs)
    ensures Leading(st, x, rs) == 0 || Leading(st, x, rs) == |rs|
    decreases rs
  {
    hide Below;
    if rs != [] && Below(st, rs[0], x) {
      BelowLastLeading(st, x, rs[1..]);
      assert rs[1..] != [] ==> rs[1..][0] in rs;
    }
  }

  lemma FairRefsSame(st: State, st': State, root: nat, x: nat, rank: nat -> nat)
    requires x in st.refs && x in st'.refs && st'.refs[x] == st.refs[x] && FairRefs(st, root, x, rank)
    requires forall h :: h in st.refs[x] ==> (Below(st, h, x) <==> Below(st', h, x)) && SameParent(st, st', h)
    ensures FairRefs(st', root, x, rank)
  {
    hide Below, BelowLast;
    BelowLastSame(st, st', x, st.refs[x]);
  }

  ghost predicate SameParent(st: State, st': State, h: nat) {
    h in st.parent && h in st'.parent && st'.parent[h] == st.parent[h]
  }

  lemma HandleFreedFairRefs(st: State, root: nat, h: nat, x: nat, rank: nat -> nat)
    requires Shape(st, root) && h in st.handles && x in st.refs && x != h && FairRefs(st, root, x, rank)
    ensures HasParent(st, h) && st.handles[h] in st.refs
    ensures x in HandleFreed(st, h).refs && FairRefs(HandleFreed(st, h), root, x, rank)
  {
    HandleFreedTree(st, root, h);
    HandleAlone(st, root, h, x);
    hide Shape, Below, BelowLast;
    var st' := HandleFreed(st, h);
    var rs := st'.refs[x];
    forall y | y in rs ensures Below(st, y, x) <==> Below(st', y, x) {
      BelowWithout(st, root, h, y, x);
    }
    BelowLastSame(st, st', x, rs);
    BelowLastWithout(st, x, st.refs[x], h);
  }

  lemma HandleAlone(st: State, root: nat, h: nat, x: nat)
    requires Shape(st, root) && h in st.handles && x in st.refs && x != h
    ensures HasParent(st, h) && st.handles[h] in st.refs
    ensures x in HandleFreed(st, h).refs && HandleFreed(st, h).refs[x] == Without(st.refs[x], h)
    ensures forall y :: y in st.refs[x] && y != h ==> SameParent(st, HandleFreed(st, h), y)
  {
    hide Shape, HandleFreed, SameParent, HasParent;
    HandleSettled(st, root, h);
    HandleFreedAt(st, h, x);
    if x != st.handles[h] {
      forall y | y in st.refs[x] ensures y != h {
        HandleOfRefs(st, root, x, y);
      }
      WithoutNone(st.refs[x], h);
    }
    forall y | y in st.refs[x] && y != h ensures SameParent(st, HandleFreed(st, h), y) {
      HandleOfRefs(st, root, x, y);
      HandleFreedParent(st, h, y);
    }
  }

  lemma HandleFreedAt(st: State, h: nat, x: nat)
    requires HasParent(st, h) && h in st.handles && st.handles[h] in st.refs && x in st.refs && x != h
    ensures x in HandleFreed(st, h).refs
    ensures HandleFreed(st, h).refs[x] == if x == st.handles[h] then Without(st.refs[x], h) else st.refs[x]
  {
  }

  lemma HandleFreedParent(st: State, h: nat, y: nat)
    requires HasParent(st, h) && h in st.handles && st.handles[h] in st.refs && y in st.parent && y != h
    ensures SameParent(st, HandleFreed(st, h), y)
  {
  }

  lemma HandleSettled(st: State, root: nat, h: nat)
    requires Shape(st, root) && h in st.handles
    ensures HasParent(st, h) && st.handles[h] in st.refs
  {
    assert HandleOk(st, root, h);
  }

  lemma HandleOfRefs(st: State, root: nat, x: nat, h: nat)
    requires Shape(st, root) && x in st.refs && h in st.refs[x]
    ensures h in st.handles && st.handles[h] == x && h in st.parent && h in st.kids && h != x && h !in st.dying && h != root
  {
    assert Refers(st, h, x);
    assert HandleOk(st, root, h);
  }

  lemma HandleFreedRising(st: State, h: nat, zone: set<nat>, rank: nat -> nat)
    requires HasParent(st, h) && h in st.handles && st.handles[h] in st.refs && Rising(st, zone, rank)
    ensures Rising(HandleFreed(st, h), zone, rank)
  {
  }

  lemma HandleFreedFair(st: State, root: nat, h: nat, zone: set<nat>, rank: nat -> nat)
    requires Shape(st, root) && h in st.handles && Fair(st, root, zone, rank)
    ensures HasParent(st, h) && st.handles[h] in st.refs && Fair(HandleFreed(st, h), root, zone, rank)
  {
    hide Shape, FairRefs, Zoned, Rising;
    HandleFreedZoned(st, root, h, zone);
    HandleFreedRising(st, h, zone, rank);
    var st' := HandleFreed(st, h);
    forall x | x in st'.refs && Within(st', zone, x) ensures FairRefs(st', root, x, rank) {
      HandleFreedFairRefs(st, root, h, x, rank);
    }
  }

  lemma KilledFairRefs(st: State, root: nat, c: nat, zone: set<nat>, rank: nat -> nat, x: nat)
    requires Shape(st, root) && Listed(st, root, c) && c !in st.handles && Fair(st, root, zone, rank) && Entered(st, zone, c)
    requires x in st.refs && Within(st, zone, x) && x != c
    ensures HasParent(st, c) && st.kids[st.parent[c]] != [] && x in Killed(st, c).refs
    ensures FairRefs(Killed(st, c), root, x, rank)
  {
    hide Below, BelowLast, FairRef, Tree, References;
    KilledZoned(st, root, c, zone);
    InRefs(st, root, x);
    var st' := Killed(st, c);
    forall h | h in st.refs[x] ensures (Below(st, h, x) <==> Below(st', h, x)) && SameParent(st, st', h) {
      HandleOfRefs(st, root, x, h);
      KilledBelow(st, root, c, zone, h, x);
    }
    FairRefsSame(st, st', root, x, rank);
  }

  lemma KilledFair(st: State, root: nat, c: nat, zone: set<nat>, rank: nat -> nat)
    requires Shape(st, root) && Listed(st, root, c) && c !in st.handles && Fair(st, root, zone, rank) && Entered(st, zone, c)
    ensures HasParent(st, c) && st.kids[st.parent[c]] != [] && Fair(Killed(st, c), root, zone, rank)
  {
    hide Shape, FairRefs, Zoned, Entered;
    KilledZoned(st, root, c, zone);
    var st' := Killed(st, c);
    forall x | x in st'.refs && Within(st', zone, x) ensures FairRefs(st', root, x, rank) {
      KilledFairRefs(st, root, c, zone, rank, x);
    }
  }

  lemma DeletedFairRefs(st: State, root: nat, c: nat, zone: set<nat>, rank: nat -> nat, x: nat)
    requires Shape(st, root) && c in st.dying && c in zone && Lowest(st, c) && Fair(st, root, zone, rank)
    requires x in st.refs && Within(st, zone, x)
    ensures x in Deleted(st, c).refs && FairRefs(Deleted(st, c), root, x, rank)
  {
    hide Below, BelowLast, FairRef, Tree, References;
    DeletedZoned(st, root, c, zone);
    InRefs(st, root, x);
    var st' := Deleted(st, c);
    forall h | h in st.refs[x] ensures (Below(st, h, x) <==> Below(st', h, x)) && SameParent(st, st', h) {
      HandleOfRefs(st, root, x, h);
      DeletedBelow(st, root, c, zone, h, x);
    }
    FairRefsSame(st, st', root, x, rank);
  }

  lemma DeletedFair(st: State, root: nat, c: nat, zone: set<nat>, rank: nat -> nat)
    requires Shape(st, root) && c in st.dying && c in zone && Lowest(st, c) && Fair(st, root, zone, rank)
    ensures Fair(Deleted(st, c), root, zone, rank)
  {
    hide Shape, FairRefs, Zoned, Entered;
    DeletedZoned(st, root, c, zone);
    var st' := Deleted(st, c);
    forall x | x in st'.refs && Within(st', zone, x) ensures FairRefs(st', root, x, rank) {
      DeletedFairRefs(st, root, c, zone, rank, x);
    }
  }

  lemma EnteredZone(st: State, zone: set<nat>, c: nat)
    ensures Entered(st, zone, c) ==> c in zone
  {
  }

  lemma EnteredIn(st: State, zone: set<nat>, c: nat)
    requires Entered(st, zone, c)
    ensures c in zone && c in st.parent && !Within(st, zone, st.parent[c])
  {
  }

  lemma StolenFairRefs(st: State, root: nat, q: nat, c: nat, zone: set<nat>, rank: nat -> nat, x: nat)
    requires Shape(st, root) && Listed(st, root, c) && c !in st.handles && Entered(st, zone, c)
    requires Fair(st, root, zone, rank) && q in st.kids && rank(q) < rank(c)
    requires x in st.refs && Within(st, zone, x)
    ensures HasParent(st, c) && x in Stolen(st, q, c).refs && FairRefs(Stolen(st, q, c), root, x, rank)
  {
    hide Below, BelowLast, FairRef, Tree, References;
    StolenZoned(st, root, q, c, zone);
    InRefs(st, root, x);
    var st' := Stolen(st, q, c);
    forall h | h in st.refs[x] ensures (Below(st, h, x) <==> Below(st', h, x)) && SameParent(st, st', h) {
      HandleOfRefs(st, root, x, h);
      StolenBelow(st, root, q, c, zone, rank, h, x);
    }
    FairRefsSame(st, st', root, x, rank);
  }

  lemma StolenFair(st: State, root: nat, q: nat, c: nat, zone: set<nat>, rank: nat -> nat)
    requires Shape(st, root) && Listed(st, root, c) && c !in st.handles && Entered(st, zone, c)
    requires Fair(st, root, zone, rank) && q in st.kids && rank(q) < rank(c)
    ensures HasParent(st, c) && Fair(Stolen(st, q, c), root, zone, rank)
  {
    hide Shape, FairRefs, Zoned, Entered, Rising;
    EnteredIn(st, zone, c);
    StolenZoned(st, root, q, c, zone);
    StolenRising(st, q, c, zone, rank);
    var st' := Stolen(st, q, c);
    forall x | x in st'.refs && Within(st', zone, x) ensures FairRefs(st', root, x, rank) {
      StolenFairRefs(st, root, q, c, zone, rank, x);
    }
  }

  lemma InRefs(st: State, root: nat, x: nat)
    requires Tree(st, root) && (x in st.kids || x in st.refs)
    ensures x in st.refs && x in st.parent && x in st.kids
  {
  }

  // ----- What the steps do to owners -----

  /** Freeing a child of d that is a reference handle. */
  lemma HandleFreedAccounted(st: State, root: nat, h: nat, rank: nat -> nat)
    requires Shape(st, root) && h in st.handles
    ensures HasParent(st, h) && st.handles[h] in st.refs
    ensures Accounted(st, HandleFreed(st, h), root, st.parent[h], rank)
  {
    hide Owns, Tree, References;
    HandleFreedTree(st, root, h);
    HandleOwners(st, root, h);
    HandleFreedFrees(st, root, h);
    hide HandleFreed, OnlyFrees;
  }

  lemma HandleFreedFrees(st: State, root: nat, h: nat)
    requires Shape(st, root) && h in st.handles && HasParent(st, h) && st.handles[h] in st.refs
    ensures OnlyFrees(st, HandleFreed(st, h))
  {
    forall h' | h' in st.handles ensures h' in st.parent {
      assert HandleOk(st, root, h');
    }
    assert HandleOk(st, root, h);
  }

  /** A handle is an owner of what it refers to only. */
  lemma HandleOwners(st: State, root: nat, h: nat)
    requires Shape(st, root) && h in st.handles && HasParent(st, h) && st.handles[h] in st.refs
    ensures forall o, x :: Proper(HandleFreed(st, h), root, x) && Owns(HandleFreed(st, h), o, x) ==> Owns(st, o, x)
    ensures forall o, x :: Proper(HandleFreed(st, h), root, x) && Owns(st, o, x) ==>
              Owns(HandleFreed(st, h), o, x) || (o == st.parent[h] && x == st.handles[h])
  {
    hide Shape, Proper, Owns, HandleFreed;
    var st' := HandleFreed(st, h);
    forall o, x | Proper(st', root, x) && Owns(st', o, x) ensures Owns(st, o, x) {
      HandleKeepsOwner(st, h, o, x);
    }
    forall o, x | Proper(st', root, x) && Owns(st, o, x) ensures Owns(st', o, x) || (o == st.parent[h] && x == st.handles[h]) {
      HandleDropsOwner(st, root, h, o, x);
    }
  }

  lemma HandleKeepsOwner(st: State, h: nat, o: nat, x: nat)
    requires h in st.handles && HasParent(st, h) && st.handles[h] in st.refs && Owns(HandleFreed(st, h), o, x)
    ensures Owns(st, o, x)
  {
  }

  lemma HandleDropsOwner(st: State, root: nat, h: nat, o: nat, x: nat)
    requires Shape(st, root) && h in st.handles && HasParent(st, h) && st.handles[h] in st.refs
    requires Proper(HandleFreed(st, h), root, x) && Owns(st, o, x)
    ensures Owns(HandleFreed(st, h), o, x) || (o == st.parent[h] && x == st.handles[h])
  {
    var st' := HandleFreed(st, h);
    if st.parent[x] != o {
      var h' :| h' in st.refs[x] && h' in st.parent && st.parent[h'] == o;
      HandleOfRefs(st, root, x, h');
      HandleSettled(st, root, h);
      hide Shape;
      assert h' != h ==> h' in st'.refs[x];
    }
  }

  /** Handing a child of d over to the owner of its first reference: it loses d, and nobody else. */
  lemma HandedOverAccounted(st: State, root: nat, c: nat, rank: nat -> nat)
    requires Shape(st, root) && Listed(st, root, c) && c in st.refs && st.refs[c] != [] && Proper(st, root, c)
    requires var h := st.refs[c][0]; h in st.parent ==> st.parent[h] != c
    ensures var h := st.refs[c][0];
            && h in st.handles && HasParent(st, h) && st.handles[h] in st.refs && st.parent[h] in HandleFreed(st, h).kids
            && HasParent(st, c) && c in HandleFreed(st, h).parent && st.parent[c] in HandleFreed(st, h).kids
            && Accounted(st, Stolen(HandleFreed(st, h), st.parent[h], c), root, st.parent[c], rank)
  {
    hide Owns, Tree, References;
    var h := st.refs[c][0];
    FirstReference(st, root, c);
    HandleFreedShape(st, root, h);
    ListedHasParent(st, root, c);
    HandleFreedFrees(st, root, h);
    HandleOwners(st, root, h);
    HandedOwners(st, root, c, h);
  }

  lemma FirstReference(st: State, root: nat, c: nat)
    requires References(st, root) && c in st.refs && st.refs[c] != []
    ensures var h := st.refs[c][0]; h in st.refs[c] && Refers(st, h, c) && HandleOk(st, root, h)
  {
    assert Refers(st, st.refs[c][0], c);
  }

  /** Moving a chunk changes its own owners only. */
  lemma StolenOwners(st: State, root: nat, q: nat, c: nat, o: nat, x: nat)
    requires References(st, root) && c in st.kids && c !in st.handles && HasParent(st, c) && q in st.kids && q != c
    ensures Owns(Stolen(st, q, c), o, x) ==> Owns(st, o, x) || (x == c && o == q)
    ensures Owns(st, o, x) ==> Owns(Stolen(st, q, c), o, x) || (x == c && o == st.parent[c])
    ensures c in st.refs ==> Owns(Stolen(st, q, c), q, c)
  {
    var st' := Stolen(st, q, c);
    if x in st.refs {
      forall h | h in st.refs[x] ensures h != c {
        assert Refers(st, h, x);
      }
    }
  }

  lemma HandedOwners(st: State, root: nat, c: nat, h: nat)
    requires Shape(st, root) && Proper(st, root, c) && Refers(st, h, c) && HasParent(st, h) && HasParent(st, c)
    requires h in st.refs[c]
    requires st.parent[h] != c && References(HandleFreed(st, h), root) && c in st.refs && HasParent(HandleFreed(st, h), c)
    requires st.parent[h] in HandleFreed(st, h).kids
    requires forall o, x :: Proper(HandleFreed(st, h), root, x) && Owns(HandleFreed(st, h), o, x) ==> Owns(st, o, x)
    requires forall o, x :: Proper(HandleFreed(st, h), root, x) && Owns(st, o, x) ==>
              Owns(HandleFreed(st, h), o, x) || (o == st.parent[h] && x == st.handles[h])
    ensures var st2 := Stolen(HandleFreed(st, h), st.parent[h], c);
            && NoNewOwner(st, st2, root) && OnlyFreedDropped(st, st2, root, st.parent[c])
  {
    var q, d, st1 := st.parent[h], st.parent[c], HandleFreed(st, h);
    var st2 := Stolen(st1, q, c);
    assert Owns(st, q, c);
    forall x | Proper(st2, root, x) ensures Proper(st1, root, x) {
    }
    assert st1.parent[c] == d && c in st1.refs && c !in st1.handles;
    hide Owns, Proper, References, Tree, HasParent, HandleFreed, Stolen;
    forall o, x | Proper(st2, root, x) && Owns(st2, o, x) ensures Owns(st, o, x) {
      StolenOwners(st1, root, q, c, o, x);
    }
    forall o, x | Proper(st2, root, x) && Owns(st, o, x) ensures Owns(st2, o, x) || o == d {
      StolenOwners(st1, root, q, c, o, x);
    }
  }

  /** Owners are found from the references of a chunk. */
  lemma SameOwners(st: State, st': State, o: nat, x: nat)
    requires (x in st.parent <==> x in st'.parent) && (x in st.refs <==> x in st'.refs)
    requires x in st.parent ==> st'.parent[x] == st.parent[x]
    requires x in st.refs ==> st'.refs[x] == st.refs[x]
    requires x in st.refs ==> forall h :: h in st.refs[x] ==> (h in st.parent <==> h in st'.parent) && (h in st.parent ==> st'.parent[h] == st.parent[h])
    ensures Owns(st, o, x) <==> Owns(st', o, x)
  {
  }

  /** Nothing refers to a chunk without references: it is no owner's handle either. */
  lemma KilledOwners(st: State, root: nat, c: nat, o: nat, x: nat)
    requires References(st, root) && c !in st.handles && HasParent(st, c) && st.kids[st.parent[c]] != [] && x != c
    ensures Owns(Killed(st, c), o, x) <==> Owns(st, o, x)
  {
    if x in st.refs {
      forall h | h in st.refs[x] ensures h != c {
        assert Refers(st, h, x);
      }
    }
    hide References;
    SameOwners(st, Killed(st, c), o, x);
  }

  lemma DeletedOwners(st: State, root: nat, c: nat, o: nat, x: nat)
    requires References(st, root) && c !in st.handles && x != c
    ensures Owns(Deleted(st, c), o, x) <==> Owns(st, o, x)
  {
    if x in st.refs {
      forall h | h in st.refs[x] ensures h != c {
        assert Refers(st, h, x);
      }
    }
    hide References;
    SameOwners(st, Deleted(st, c), o, x);
  }

  /** What freeing a chunk does to owners: survivors lose those that were freed and get no new one, and besides the
  chunk itself only chunks all of whose owners were freed are freed, but for owners that come after them. */
  ghost predicate FreeResult(st: State, st': State, root: nat, c: nat, rank: nat -> nat) {
    && OnlyFrees(st, st') && NoNewOwner(st, st', root) && c !in st'.kids
    && (forall o, x :: Proper(st', root, x) && Owns(st, o, x) ==> Owns(st', o, x) || Freed(st, st', o))
    && (forall o, x :: Proper(st, root, x) && x !in st'.kids && x != c && Owns(st, o, x) && rank(o) < rank(x) ==> Freed(st, st', o))
  }

  /** A child of d, without references, whose own children were freed, and which is freed in turn. */
  lemma FreedAccounted(st: State, root: nat, c: nat, st2: State, rank: nat -> nat)
    requires Shape(st, root) && Proper(st, root, c) && c in st.refs && st.refs[c] == []
    requires HasParent(st, c) && st.kids[st.parent[c]] != []
    requires Accounted(Killed(st, c), st2, root, c, rank) && References(st2, root)
    ensures FreeResult(st, Deleted(st2, c), root, c, rank)
  {
    hide Owns, Tree, References;
    var d, stk, st3 := st.parent[c], Killed(st, c), Deleted(st2, c);
    FreedOnlyFrees(st, root, c, st2);
    OnlyParent(st, c);
    hide Killed, Deleted, OnlyFrees, Proper;
    forall o, x | Proper(st3, root, x) && Owns(st3, o, x) ensures Owns(st, o, x) {
      ProperThrough(st, root, c, st2, x);
      DeletedOwners(st2, root, c, o, x);
      KilledOwners(st, root, c, o, x);
    }
    forall o, x | Proper(st3, root, x) && Owns(st, o, x) ensures Owns(st3, o, x) || Freed(st, st3, o) {
      ProperThrough(st, root, c, st2, x);
      KilledOwners(st, root, c, o, x);
      DeletedOwners(st2, root, c, o, x);
      FreedThrough(st, root, c, st2, o);
      assert Owns(st2, o, x) || o == c || Freed(stk, st2, o);
    }
    forall o, x | Proper(st, root, x) && x !in st3.kids && x != c && Owns(st, o, x) && rank(o) < rank(x)
      ensures Freed(st, st3, o)
    {
      ProperThrough(st, root, c, st2, x);
      KilledOwners(st, root, c, o, x);
      FreedThrough(st, root, c, st2, o);
    }
  }

  /** A chunk whose references come from below has one owner that comes before it. */
  lemma OnlyParent(st: State, c: nat)
    requires c in st.parent && c in st.refs && st.refs[c] == []
    ensures forall o :: Owns(st, o, c) ==> o == st.parent[c]
  {
  }

  lemma OwnersFromBelow(st: State, root: nat, zone: set<nat>, rank: nat -> nat, c: nat)
    requires Shape(st, root) && Fair(st, root, zone, rank) && Within(st, zone, c) && c in st.refs && c in st.parent
    requires Leading(st, c, st.refs[c]) == |st.refs[c]|
    ensures forall o :: Owns(st, o, c) && rank(o) < rank(c) ==> o == st.parent[c]
  {
    hide Tree, References, FairRefs, Below;
    forall o | Owns(st, o, c) && rank(o) < rank(c) ensures o == st.parent[c] {
      if o != st.parent[c] {
        var h :| h in st.refs[c] && h in st.parent && st.parent[h] == o;
        HandleOfRefs(st, root, c, h);
        var i :| 0 <= i < |st.refs[c]| && st.refs[c][i] == h;
        BelowRank(st, root, zone, rank, h, c);
      }
    }
  }

  lemma FreeResultAccounted(st: State, st': State, root: nat, c: nat, rank: nat -> nat)
    requires FreeResult(st, st', root, c, rank) && c in st.parent
    requires forall o :: Owns(st, o, c) && rank(o) < rank(c) ==> o == st.parent[c]
    ensures Accounted(st, st', root, st.parent[c], rank)
  {
    hide Proper, OnlyFrees, Owns;
  }

  /** A reference less to a chunk that is freed afterwards. */
  lemma FreeResultThrough(st: State, root: nat, h: nat, st': State, c: nat, rank: nat -> nat)
    requires Shape(st, root) && h in st.handles && HasParent(st, h) && st.handles[h] in st.refs && st.handles[h] == c
    requires FreeResult(HandleFreed(st, h), st', root, c, rank)
    ensures FreeResult(st, st', root, c, rank)
  {
    hide Owns, Proper, OnlyFrees, Tree, References;
    var st1 := HandleFreed(st, h);
    HandleFreedFrees(st, root, h);
    OnlyFreesTwice(st, st1, st');
    HandleOwners(st, root, h);
    forall x ensures (Proper(st', root, x) ==> Proper(st1, root, x)) && (Proper(st, root, x) ==> x != h) {
      ProperBefore(st1, st', root, x);
      ProperNotHandle(st, root, x);
    }
    ProperAgain(st, root, h);
    hide HandleFreed;
    forall o, x | Proper(st, root, x) && x !in st'.kids && x != c && Owns(st, o, x) && rank(o) < rank(x)
      ensures Freed(st, st', o)
    {
      FreedTwice(st, st1, st', o);
    }
    forall o, x | Proper(st', root, x) && Owns(st, o, x) ensures Owns(st', o, x) || Freed(st, st', o) {
      ProperNotHandle(st', root, x);
      FreedTwice(st, st1, st', o);
    }
  }

  lemma ProperNotHandle(st: State, root: nat, x: nat)
    ensures Proper(st, root, x) ==> x !in st.handles && x in st.kids
  {
  }

  lemma ProperAgain(st: State, root: nat, h: nat)
    requires HasParent(st, h) && h in st.handles && st.handles[h] in st.refs
    ensures forall x :: Proper(st, root, x) ==> Proper(HandleFreed(st, h), root, x)
  {
  }

  lemma FreedOnlyFrees(st: State, root: nat, c: nat, st2: State)
    requires Shape(st, root) && Proper(st, root, c) && HasParent(st, c) && st.kids[st.parent[c]] != []
    requires OnlyFrees(Killed(st, c), st2)
    ensures OnlyFrees(st, Deleted(st2, c))
  {
    hide Shape;
    HandlesHaveParents(st, root);
  }

  lemma HandlesHaveParents(st: State, root: nat)
    requires Shape(st, root)
    ensures (forall h :: h in st.handles ==> h in st.parent) && (forall d :: d in st.dying ==> d in st.parent)
  {
    forall h | h in st.handles ensures h in st.parent {
      assert HandleOk(st, root, h);
    }
  }

  lemma ProperThrough(st: State, root: nat, c: nat, st2: State, x: nat)
    requires Proper(st, root, c) && HasParent(st, c) && st.kids[st.parent[c]] != []
    requires OnlyFrees(Killed(st, c), st2)
    ensures Proper(Deleted(st2, c), root, x) ==> x != c && Proper(st2, root, x) && Proper(Killed(st, c), root, x)
    ensures Proper(st, root, x) && x != c ==> Proper(Killed(st, c), root, x)
    ensures x != c && x !in Deleted(st2, c).kids ==> x !in st2.kids
  {
  }

  lemma FreedThrough(st: State, root: nat, c: nat, st2: State, o: nat)
    requires Proper(st, root, c) && HasParent(st, c) && st.kids[st.parent[c]] != []
    requires OnlyFrees(Killed(st, c), st2)
    ensures o == c || Freed(Killed(st, c), st2, o) ==> Freed(st, Deleted(st2, c), o)
  {
  }

  // ----- One turn of the loop that frees children -----

  /** What can still be freed: the measure of the recursion. */
  ghost function Freeable(st: State): nat {
    |st.kids.Keys - st.dying|
  }

  /** What a free that was refused leaves: handles of the chunk were freed, and nothing else changed. */
  ghost predicate OnlyHandlesGone(st: State, st': State) {
    && st'.kids.Keys <= st.kids.Keys && st'.dying == st.dying
    && (forall x :: x in st.kids && x !in st.handles ==> x in st'.kids)
    && (forall x :: x in st'.handles ==> x in st.handles)
    && (forall x :: x in st'.parent ==> x in st.parent && st'.parent[x] == st.parent[x])
  }

  ghost predicate HandleIsFreed(st: State, st': State, h: nat) {
    HasParent(st, h) && h in st.handles && st.handles[h] in st.refs && st' == HandleFreed(st, h)
  }

  lemma ShapeParts(st: State, root: nat)
    requires Shape(st, root)
    ensures Tree(st, root) && References(st, root)
  {
  }

  lemma SmallerBy(a: set<nat>, b: set<nat>, x: nat)
    requires b <= a - {x} && x in a
    ensures |b| < |a|
  {
    SubsetSize(b, a - {x});
  }

  /** A handle less is something less to free. */
  lemma HandleCounts(st: State, root: nat, h: nat)
    requires Shape(st, root) && h in st.handles
    ensures HasParent(st, h) && st.handles[h] in st.refs
    ensures Freeable(HandleFreed(st, h)) < Freeable(st)
  {
    assert HandleOk(st, root, h);
    HandleFreedTree(st, root, h);
    SmallerBy(st.kids.Keys - st.dying, HandleFreed(st, h).kids.Keys - st.dying, h);
  }

  lemma KilledCounts(st: State, c: nat)
    requires HasParent(st, c) && st.kids[st.parent[c]] != [] && c in st.kids && c !in st.dying
    ensures Freeable(Killed(st, c)) < Freeable(st)
  {
    SmallerBy(st.kids.Keys - st.dying, Killed(st, c).kids.Keys - Killed(st, c).dying, c);
  }

  lemma DeletedCounts(st: State, d: nat)
    requires d in st.dying
    ensures Freeable(Deleted(st, d)) == Freeable(st)
  {
    assert Deleted(st, d).kids.Keys - Deleted(st, d).dying == st.kids.Keys - st.dying;
  }

  lemma HandleOnlyGone(st: State, h: nat)
    requires HasParent(st, h) && h in st.handles && st.handles[h] in st.refs
    ensures OnlyHandlesGone(st, HandleFreed(st, h))
  {
  }

  lemma OnlyHandlesGoneTwice(st0: State, st1: State, st2: State)
    requires OnlyHandlesGone(st0, st1) && OnlyHandlesGone(st1, st2)
    ensures OnlyHandlesGone(st0, st2)
  {
  }

  lemma DyingLive(st: State, root: nat, d: nat)
    requires Shape(st, root) && d in st.dying
    ensures d in st.kids && d in st.parent && d in st.refs
  {
  }

  lemma FirstChildListed(st: State, root: nat, d: nat)
    requires Shape(st, root) && d in st.kids && st.kids[d] != []
    ensures var c := st.kids[d][0]; Listed(st, root, c) && c in st.parent && st.parent[c] == d && c in st.refs
  {
    assert Child(st, root, d, st.kids[d][0]);
  }

  lemma HandleParent(st: State, root: nat, h: nat)
    requires Shape(st, root) && h in st.handles
    ensures h in st.parent && st.parent[h] in st.kids && st.parent[h] !in st.handles
  {
    assert HandleOk(st, root, h);
    ListedHasParent(st, root, h);
    assert st.parent[h] in st.handles ==> HandleOk(st, root, st.parent[h]);
  }

  lemma RootParent(st: State, root: nat)
    requires Shape(st, root)
    ensures root in st.kids && root !in st.handles
    ensures forall d :: d in st.dying ==> d in st.parent && st.parent[d] !in st.handles
  {
    assert root in st.handles ==> HandleOk(st, root, root);
    forall d | d in st.dying ensures d in st.parent && st.parent[d] !in st.handles {
      assert Dying(st, d);
    }
  }

  lemma OwnerStays(st: State, st': State, p: nat)
    requires OnlyHandlesGone(st, st') && p in st.kids && p !in st.handles
    ensures p in st'.kids && p !in st'.handles
  {
  }

  lemma StillListed(st: State, st': State, root: nat, c: nat)
    requires OnlyHandlesGone(st, st') && Listed(st, root, c) && c in st'.kids
    ensures Listed(st', root, c)
  {
  }

  lemma {:induction false} DroppedKeeps(st: State, root: nat, c: nat, n: nat, zone: set<nat>, rank: nat -> nat)
    requires Shape(st, root) && c in st.kids && c !in st.handles && c in st.refs && n <= |st.refs[c]|
    ensures var st' := Dropped(st, st.refs[c][..n]);
            && Shape(st', root) && OnlyHandlesGone(st, st') && Steady(st, st') && (c in zone ==> Local(st, st', zone))
            && (Zoned(st, root, zone) ==> Zoned(st', root, zone))
            && (Fair(st, root, zone, rank) ==> Fair(st', root, zone, rank))
            && c in st'.kids && c !in st'.handles && c in st'.refs && st'.refs[c] == st.refs[c][n..]
    decreases n
  {
    hide Tree, References, Zoned, Rising, FairRefs, Local, HandleFreed, OnlyHandlesGone, Steady, Fair;
    if n == 0 {
      assert st.refs[c][..0] == [] && st.refs[c][0..] == st.refs[c];
      LocalSelf(st, root, zone);
      OnlyHandlesSelf(st, root);
    } else {
      DropOne(st, root, c, n, zone, rank);
      var h := st.refs[c][0];
      var st1 := HandleFreed(st, h);
      assert st1.refs[c][..n - 1] == st.refs[c][..n][1..] && st1.refs[c][n - 1..] == st.refs[c][n..];
      DroppedKeeps(st1, root, c, n - 1, zone, rank);
      var st' := Dropped(st1, st1.refs[c][..n - 1]);
      if c in zone {
        LocalTwice(st, st1, st', zone);
      }
      SteadyTwice(st, st1, st');
      OnlyHandlesGoneTwice(st, st1, st');
    }
  }

  lemma OnlyHandlesSelf(st: State, root: nat)
    requires Shape(st, root)
    ensures OnlyHandlesGone(st, st)
  {
  }

  lemma SteadyTwice(st0: State, st1: State, st2: State)
    requires Steady(st0, st1) && Steady(st1, st2)
    ensures Steady(st0, st2)
  {
  }

  /** The first reference of a chunk goes. */
  lemma DropOne(st: State, root: nat, c: nat, n: nat, zone: set<nat>, rank: nat -> nat)
    requires Shape(st, root) && c in st.kids && c !in st.handles && c in st.refs && 0 < n <= |st.refs[c]|
    ensures var h := st.refs[c][0];
            && h in st.handles && HasParent(st, h) && st.handles[h] == c && st.handles[h] in st.refs
            && var st1 := HandleFreed(st, h);
               && Shape(st1, root) && OnlyHandlesGone(st, st1) && Steady(st, st1) && (c in zone ==> Local(st, st1, zone))
               && (Zoned(st, root, zone) ==> Zoned(st1, root, zone))
               && (Fair(st, root, zone, rank) ==> Fair(st1, root, zone, rank))
               && c in st1.kids && c !in st1.handles && c in st1.refs && st1.refs[c] == st.refs[c][1..]
               && Dropped(st, st.refs[c][..n]) == Dropped(st1, st.refs[c][..n][1..])
  {
    hide Tree, References, Zoned, Fair, Local, OnlyHandlesGone, Steady;
    var h := st.refs[c][0];
    HandleOfRefs(st, root, c, h);
    HandleFreedShape(st, root, h);
    HandleFreedZoned(st, root, h, zone);
    HandleAlone(st, root, h, c);
    WithoutFirst(st.refs[c]) by { RefsDistinct(st, root, c); }
    HandleOnlyGone(st, h);
    if Fair(st, root, zone, rank) {
      HandleFreedFair(st, root, h, zone, rank);
    }
  }

  lemma RefsDistinct(st: State, root: nat, c: nat)
    requires Shape(st, root) && c in st.refs
    ensures Distinct(st.refs[c])
  {
  }

  /** The child that is handed over, and what happens to it. */
  lemma HandedOverKeeps(st: State, root: nat, d: nat, zone: set<nat>)
    requires Shape(st, root) && HandsOver(st, d) && (d in st.dying || d !in st.handles)
    ensures var c, st' := st.kids[d][0], HandedOver(st, root, d);
            Steady(st, st') && (Drains(st, root, zone, d) ==> Zoned(st', root, zone) && Local(st, st', zone))
  {
    hide Shape, Zoned, Local, Steady, Dropped, Leading, FirstOwnerOf, HandedTo;
    var c := st.kids[d][0];
    var n := Leading(st, c, st.refs[c]) + 1;
    var st1 := Dropped(st, st.refs[c][..n]);
    FirstChildListed(st, root, d);
    ReferencedNoHandle(st, root, c);
    DroppedKeeps(st, root, c, n, zone, x => 0);
    StillListed(st, st1, root, c);
    var q := HandedTo(st1, root, d, FirstOwnerOf(st, root, c));
    if HasParent(st1, c) && q in st1.kids {
      StolenZoned(st1, root, q, c, zone);
      SteadyTwice(st, st1, Stolen(st1, q, c));
      if c in zone {
        LocalTwice(st, st1, Stolen(st1, q, c), zone);
      }
    }
  }

  lemma ReferencedNoHandle(st: State, root: nat, c: nat)
    requires Shape(st, root) && c in st.refs && st.refs[c] != []
    ensures c !in st.handles
  {
    assert c in st.handles ==> HandleOk(st, root, c);
  }

  lemma HandedOverIs(st: State, root: nat, d: nat, c: nat, st1: State, q: nat)
    requires HandsOver(st, d) && c == st.kids[d][0] && Leading(st, c, st.refs[c]) == 0 && Dropped(st, st.refs[c][..1]) == st1
    requires FirstOwnerOf(st, root, c) == q && q != root && HasParent(st1, c) && q in st1.kids
    ensures HandedOver(st, root, d) == Stolen(st1, q, c)
  {
    hide Leading, Dropped, FirstOwnerOf, HasParent;
  }

  lemma FirstDropped(st: State, root: nat, c: nat, zone: set<nat>, rank: nat -> nat)
    requires Shape(st, root) && Fair(st, root, zone, rank) && Listed(st, root, c) && c !in st.handles
    requires c in st.refs && st.refs[c] != []
    ensures var h := st.refs[c][0];
            && h in st.handles && HasParent(st, h) && st.handles[h] in st.refs
            && var st1 := HandleFreed(st, h);
               && Dropped(st, st.refs[c][..1]) == st1 && Shape(st1, root) && Fair(st1, root, zone, rank)
               && Listed(st1, root, c) && c !in st1.handles && HasParent(st1, c) && st.parent[h] in st1.kids
               && OnlyHandlesGone(st, st1) && FirstOwnerOf(st, root, c) == st.parent[h]
  {
    hide Tree, References, Fair, OnlyHandlesGone, Local, Steady;
    var h := st.refs[c][0];
    assert st.refs[c][..1] == [h] && st.refs[c][..1][1..] == [];
    DropOne(st, root, c, 1, zone, rank);
    var st1 := HandleFreed(st, h);
    assert Dropped(st1, []) == st1;
    OwnerOfHandleStays(st, root, h);
    StillListed(st, st1, root, c);
    hide HandleFreed;
    ListedHasParent(st1, root, c);
  }

  /** When references are fair, the owner of the first one gets the child... */
  lemma HandedToFirst(st: State, root: nat, d: nat, zone: set<nat>, rank: nat -> nat)
    requires Shape(st, root) && HandsOver(st, d) && Fair(st, root, zone, rank) && Drains(st, root, zone, d)
    ensures d in st.kids && st.kids[d] != []
    ensures var c := st.kids[d][0];
            && Listed(st, root, c) && c !in st.handles && Proper(st, root, c) && HasParent(st, c) && st.parent[c] == d
            && c in st.refs && st.refs[c] != []
            && var h := st.refs[c][0];
               && h in st.handles && HasParent(st, h) && st.handles[h] in st.refs && rank(st.parent[h]) < rank(c)
               && var st1 := HandleFreed(st, h);
                  && Shape(st1, root) && Fair(st1, root, zone, rank) && Listed(st1, root, c) && c !in st1.handles
                  && Entered(st1, zone, c) && HasParent(st1, c) && st.parent[h] in st1.kids
                  && HandedOver(st, root, d) == Stolen(st1, st.parent[h], c)
  {
    hide Tree, References, Below, Fair, Leading, Entered, HandleFreed, OnlyHandlesGone, FirstOwnerOf, HandedOver;
    var c := st.kids[d][0];
    FirstChildListed(st, root, d);
    ReferencedNoHandle(st, root, c);
    FirstIsFair(st, root, zone, rank, c);
    FirstDropped(st, root, c, zone, rank);
    var h := st.refs[c][0];
    ListedHasParent(st, root, c);
    EnteredStill(st, HandleFreed(st, h), zone, c, d);
    HandedOverIs(st, root, d, c, HandleFreed(st, h), st.parent[h]);
  }

  lemma OwnerOfHandleStays(st: State, root: nat, h: nat)
    requires Shape(st, root) && h in st.handles
    ensures HasParent(st, h) && st.handles[h] in st.refs && st.parent[h] in HandleFreed(st, h).kids
  {
    HandleFreedTree(st, root, h);
    HandleParent(st, root, h);
  }

  /** ...and no other owner loses it. */
  lemma HandedOverFair(st: State, root: nat, d: nat, zone: set<nat>, rank: nat -> nat)
    requires Shape(st, root) && HandsOver(st, d) && Fair(st, root, zone, rank) && Drains(st, root, zone, d)
    ensures Accounted(st, HandedOver(st, root, d), root, d, rank) && Fair(HandedOver(st, root, d), root, zone, rank)
  {
    hide Shape, Accounted, Fair, HandedOver, Stolen, HandleFreed, Entered, Drains, HandsOver;
    HandedToFirst(st, root, d, zone, rank);
    var c := st.kids[d][0];
    var h := st.refs[c][0];
    HandedOverAccounted(st, root, c, rank);
    StolenFair(HandleFreed(st, h), root, st.parent[h], c, zone, rank);
  }

  lemma FirstIsFair(st: State, root: nat, zone: set<nat>, rank: nat -> nat, c: nat)
    requires Shape(st, root) && Fair(st, root, zone, rank) && Within(st, zone, c) && c in st.refs
    requires Leading(st, c, st.refs[c]) < |st.refs[c]|
    ensures Leading(st, c, st.refs[c]) == 0
    ensures var h := st.refs[c][0]; h in st.handles && h in st.parent && st.parent[h] != root && rank(st.parent[h]) < rank(c)
  {
    hide Tree, References, Below;
    BelowLastLeading(st, c, st.refs[c]);
    var h := st.refs[c][0];
    assert FairRef(st, root, h, c, rank);
    HandleOfRefs(st, root, c, h);
  }

  lemma EnteredStill(st: State, st1: State, zone: set<nat>, c: nat, d: nat)
    requires OnlyHandlesGone(st, st1) && c in st1.parent && c in st.parent && st.parent[c] == d && c in zone
    requires !Within(st, zone, d)
    ensures Entered(st1, zone, c) && st1.parent[c] == d
  {
  }

  /** A new reference handle, first among the children of its context and among the references. */
  function Referenced(st: State, context: nat, ptr: nat, h: nat): State
    requires context in st.kids && ptr in st.refs
  {
    State(st.kids[context := [h] + st.kids[context]][h := []], st.parent[h := context],
          st.refs[ptr := [h] + st.refs[ptr]][h := []], st.handles[h := ptr], st.dying)
  }

  /** A new chunk, first among the children of its context. */
  function Allocated(st: State, context: nat, c: nat): State
    requires context in st.kids
  {
    st.(kids := st.kids[context := [c] + st.kids[context]][c := []], parent := st.parent[c := context], refs := st.refs[c := []])
  }

  /** A live context or pointer, as a user knows them. */
  ghost predicate Usable(st: State, x: nat) {
    x in st.kids && x !in st.dying && x !in st.handles
  }

  lemma ReferencedShape(st: State, root: nat, context: nat, ptr: nat, h: nat)
    requires Shape(st, root) && Usable(st, context) && Usable(st, ptr) && h !in st.kids && h != NULL && st.dying == {}
    ensures ptr in st.refs && Shape(Referenced(st, context, ptr, h), root)
  {
    ReferencedTree(st, root, context, ptr, h);
    ReferencedHandles(st, root, context, ptr, h);
    hide Tree, References, Referenced;
  }

  /** To the sibling lists, a new handle is a new chunk. */
  lemma ReferencedTree(st: State, root: nat, context: nat, ptr: nat, h: nat)
    requires Tree(st, root) && Usable(st, context) && Usable(st, ptr) && h !in st.kids && h != NULL && st.dying == {}
    ensures ptr in st.refs && Tree(Referenced(st, context, ptr, h), root)
  {
    hide Tree;
    InRefs(st, root, ptr);
    AllocatedTree(st, root, context, h);
    SameTree(Allocated(st, context, h), Referenced(st, context, ptr, h), root);
  }

  lemma SameTree(st: State, st': State, root: nat)
    requires Tree(st, root) && st'.kids == st.kids && st'.parent == st.parent && st'.dying == st.dying
    requires st'.refs.Keys == st.refs.Keys
    ensures Tree(st', root)
  {
    forall p, c | p in st'.kids && c in st'.kids[p] ensures Child(st', root, p, c) {
      assert Child(st, root, p, c);
    }
    forall c | c in st'.kids && c !in st'.dying && c != root ensures HasParent(st', c) {
      assert HasParent(st, c);
    }
  }

  lemma HandlesLive(st: State, root: nat)
    requires Shape(st, root)
    ensures forall x, h :: x in st.refs && h in st.refs[x] ==> h in st.kids
    ensures forall x :: x in st.refs ==> Distinct(st.refs[x])
  {
    forall x, h | x in st.refs && h in st.refs[x] ensures h in st.kids {
      HandleOfRefs(st, root, x, h);
    }
  }

  lemma ReferencedHandles(st: State, root: nat, context: nat, ptr: nat, h: nat)
    requires Shape(st, root) && Usable(st, context) && Usable(st, ptr) && h !in st.kids && h != NULL
    requires ptr in st.refs && st.dying == {}
    ensures References(Referenced(st, context, ptr, h), root)
  {
    hide Tree, Distinct;
    var st' := Referenced(st, context, ptr, h);
    HandlesLive(st, root);
    RootParent(st, root);
    ParentsOfKids(st, root);
    DistinctLonger(h, st.refs[ptr]);
    forall h' | h' in st'.handles ensures HandleOk(st', root, h') {
      assert h' != h ==> HandleOk(st, root, h');
    }
    forall x, h' | x in st'.refs && h' in st'.refs[x] ensures Refers(st', h', x) {
      if h' != h {
        assert h' in st.refs[x] && Refers(st, h', x);
      }
    }
    hide HandleOk;
    assert Distinct([]) by { DistinctNone(); }
  }

  lemma DistinctNone()
    ensures Distinct([])
  {
  }

  lemma DistinctLonger(x: nat, s: seq<nat>)
    requires Distinct(s) && x !in s
    ensures Distinct([x] + s)
  {
  }

  /** A reference adds one owner. */
  lemma ReferencedOwners(st: State, root: nat, context: nat, ptr: nat, h: nat, o: nat, x: nat)
    requires Shape(st, root) && Usable(st, context) && Usable(st, ptr) && h !in st.kids && ptr in st.refs && x in st.kids
    ensures Owns(Referenced(st, context, ptr, h), o, x) <==> Owns(st, o, x) || (o == context && x == ptr)
  {
    var st' := Referenced(st, context, ptr, h);
    forall h' | h' in st.refs[x] ensures h' in st.kids && h' != h {
      assert Refers(st, h', x);
      assert HandleOk(st, root, h');
    }
    hide Shape;
    if Owns(st, o, x) && st.parent[x] != o {
      var h' :| h' in st.refs[x] && h' in st.parent && st.parent[h'] == o;
      assert h' in st'.refs[x] && st'.parent[h'] == o;
    }
    if x == ptr {
      assert h in st'.refs[x] && st'.parent[h] == context;
    }
    if Owns(st', o, x) && st'.parent[x] != o {
      var h' :| h' in st'.refs[x] && h' in st'.parent && st'.parent[h'] == o;
      assert h' == h || h' in st.refs[x];
    }
  }

  lemma AllocatedShape(st: State, root: nat, context: nat, c: nat)
    requires Shape(st, root) && Usable(st, context) && c !in st.kids && c != NULL
    ensures Shape(Allocated(st, context, c), root)
  {
    AllocatedTree(st, root, context, c);
    AllocatedHandles(st, root, context, c);
    hide Tree, References, Allocated;
  }

  lemma AllocatedHandles(st: State, root: nat, context: nat, c: nat)
    requires Shape(st, root) && Usable(st, context) && c !in st.kids && c != NULL
    ensures References(Allocated(st, context, c), root)
  {
    var st' := Allocated(st, context, c);
    forall h | h in st'.handles ensures HandleOk(st', root, h) {
      assert HandleOk(st, root, h);
    }
    forall x, h | x in st'.refs && h in st'.refs[x] ensures Refers(st', h, x) {
      assert x != c && Refers(st, h, x);
    }
    forall d | d in st'.dying ensures Dying(st', d) {
      assert Dying(st, d);
    }
  }

  lemma AllocatedTree(st: State, root: nat, context: nat, c: nat)
    requires Tree(st, root) && Usable(st, context) && c !in st.kids && c != NULL
    ensures Tree(Allocated(st, context, c), root)
  {
    var st' := Allocated(st, context, c);
    forall p, c' | p in st'.kids && c' in st'.kids[p] ensures Child(st', root, p, c') {
      assert c' != c ==> c' in st.kids[p] && Child(st, root, p, c');
    }
    forall c' | c' in st'.kids && c' !in st'.dying && c' != root ensures HasParent(st', c') {
      assert c' != c ==> HasParent(st, c');
    }
  }

  /** The first reference a context holds. */
  function FirstOf(st: State, refs: seq<nat>, context: nat): (r: Option<nat>)
    ensures r.Some? ==> r.value in refs && r.value in st.parent && st.parent[r.value] == context
    ensures r.None? ==> forall h :: h in refs && h in st.parent ==> st.parent[h] != context
  {
    if refs == [] then None
    else if refs[0] in st.parent && st.parent[refs[0]] == context then Some(refs[0])
    else FirstOf(st, refs[1..], context)
  }

  /** Nobody else comes before the owner of the first reference. */
  lemma FirstIsFirst(st: State, ptr: nat)
    requires ptr in st.refs && st.refs[ptr] != [] && st.refs[ptr][0] in st.parent
    ensures FirstOf(st, st.refs[ptr], st.parent[st.refs[ptr][0]]) == Some(st.refs[ptr][0])
  {
  }

  /** Without its first reference, a chunk is where it was. */
  lemma StillThere(st: State, st': State, root: nat, c: nat, h: nat)
    requires HandleIsFreed(st, st', h) && Listed(st, root, c) && c !in st.handles
    ensures Listed(st', root, c)
  {
  }

  /** The owner of the first reference becomes the parent, in place of that reference. */
  ghost predicate FirstReferenceTakesOver(st: State, st': State, c: nat) {
    && c in st.refs && st.refs[c] != []
    && var h := st.refs[c][0];
       && HasParent(st, h) && h in st.handles && st.handles[h] in st.refs
       && c in HandleFreed(st, h).parent && HandleFreed(st, h).parent[c] in HandleFreed(st, h).kids
       && st.parent[h] in HandleFreed(st, h).kids
       && st' == Stolen(HandleFreed(st, h), st.parent[h], c)
  }


  lemma NeverHandle(st: State, root: nat, d: nat)
    requires Shape(st, root) && d in st.kids && d in st.parent
    ensures st.parent[d] !in st.handles
  {
    RootParent(st, root);
    if d !in st.dying && d != root {
      ListedHasParent(st, root, d);
      assert st.parent[d] in st.handles ==> HandleOk(st, root, st.parent[d]);
    } else if d == root {
      assert NULL in st.handles ==> HandleOk(st, root, NULL);
    }
  }
}
