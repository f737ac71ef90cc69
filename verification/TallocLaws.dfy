/** The laws of ownership in talloc, over the states before and after an operation. */
module TallocLaws {
  import opened Basics
  import opened TallocOwners

  // ----- talloc_free -----

  /** An owner is a live context. */
  lemma OwnerLive(st: State, root: nat, o: nat, x: nat)
    requires Shape(st, root) && Proper(st, root, x) && Owns(st, o, x)
    ensures o in st.kids && o !in st.handles
  {
    ListedHasParent(st, root, x);
    if st.parent[x] == o {
      assert o in st.handles ==> HandleOk(st, root, o);
    } else {
      var h :| h in st.refs[x] && h in st.parent && st.parent[h] == o;
      HandleOfRefs(st, root, x, h);
      HandleParent(st, root, h);
    }
  }

  /** An owner that is not below the chunk: its parent, or the owner of a reference that does not come from below. */
  ghost predicate OwnsFromOutside(st: State, o: nat, x: nat) {
    && x in st.parent && x in st.refs
    && (st.parent[x] == o || exists h :: h in st.refs[x] && h in st.parent && st.parent[h] == o && !Below(st, h, x))
  }

  /** Where references are fair, those are the owners that come before. */
  lemma OutsideComesBefore(st: State, root: nat, zone: set<nat>, rank: nat -> nat, o: nat, x: nat)
    requires Shape(st, root) && Fair(st, root, zone, rank) && Within(st, zone, x) && x in st.kids
    ensures OwnsFromOutside(st, o, x) <==> Owns(st, o, x) && rank(o) < rank(x)
  {
    InRefs(st, root, x);
    hide Tree, References, Below;
    assert FairRefs(st, root, x, rank);
    if OwnsFromOutside(st, o, x) && st.parent[x] != o {
      var h :| h in st.refs[x] && h in st.parent && st.parent[h] == o && !Below(st, h, x);
      assert FairRef(st, root, h, x, rank);
    }
    if Owns(st, o, x) && rank(o) < rank(x) && st.parent[x] != o {
      var h :| h in st.refs[x] && h in st.parent && st.parent[h] == o;
      HandleOfRefs(st, root, x, h);
      if Below(st, h, x) {
        BelowRank(st, root, zone, rank, h, x);
      }
    }
  }

  /** What a free of c promises. */
  ghost predicate FreeOf(st: State, st': State, root: nat, zone: set<nat>, rank: nat -> nat, c: nat) {
    && Shape(st, root) && Shape(st', root) && st.dying == {}
    && Fair(st, root, zone, rank) && Fair(st', root, zone, rank) && Local(st, st', zone) && FreeResult(st, st', root, c, rank)
  }

  /** Freeing a chunk frees exactly the chunks that nobody outside of their own subtree owns any more: another one is freed
  if and only if it may be, and all its owners from outside were. */
  lemma FreedWhenUnowned(st: State, st': State, root: nat, zone: set<nat>, rank: nat -> nat, c: nat, x: nat)
    requires FreeOf(st, st', root, zone, rank, c) && Proper(st, root, x) && x != c
    ensures x !in st'.kids <==> x in zone && forall o :: OwnsFromOutside(st, o, x) ==> Freed(st, st', o)
  {
    hide Tree, References, OwnsFromOutside, Zoned, FairRefs, Owns;
    if x in zone {
      forall o ensures OwnsFromOutside(st, o, x) <==> Owns(st, o, x) && rank(o) < rank(x) {
        OutsideComesBefore(st, root, zone, rank, o, x);
      }
      if x in st'.kids {
        SurvivorParent(st, st', root, c, rank, x);
        var p := st'.parent[x];
        assert Owns(st, p, x) && rank(p) < rank(x);
      }
    }
  }

  /** A survivor has a parent, which owned it before. */
  lemma SurvivorParent(st: State, st': State, root: nat, c: nat, rank: nat -> nat, x: nat)
    requires Shape(st, root) && Shape(st', root) && FreeResult(st, st', root, c, rank) && Proper(st, root, x) && x in st'.kids
    ensures Proper(st', root, x) && x in st'.parent && st'.parent[x] in st'.kids
    ensures Owns(st, st'.parent[x], x) && Owns(st', st'.parent[x], x)
  {
    hide References;
    ProperBefore(st, st', root, x);
    ListedHasParent(st', root, x);
    assert Owns(st', st'.parent[x], x) by { InRefs(st', root, x); }
  }

  /** A survivor keeps exactly its owners that were not freed, and it has one. */
  lemma SurvivorOwners(st: State, st': State, root: nat, c: nat, rank: nat -> nat, x: nat)
    requires Shape(st, root) && Shape(st', root) && FreeResult(st, st', root, c, rank) && Proper(st', root, x)
    ensures forall o :: Owns(st', o, x) <==> Owns(st, o, x) && !Freed(st, st', o)
    ensures x in st'.parent && Owns(st', st'.parent[x], x)
  {
    ProperBefore(st, st', root, x);
    SurvivorParent(st, st', root, c, rank, x);
    forall o | Owns(st', o, x) ensures !Freed(st, st', o) {
      OwnerLive(st', root, o, x);
    }
  }

  /** A set of chunks that holds c and what has all its owners from outside in the set, and nothing else. */
  ghost predicate Closed(st: State, root: nat, zone: set<nat>, c: nat, gone: set<nat>) {
    && c in gone && root !in gone
    && (forall x :: Proper(st, root, x) && x != c ==> (x in gone <==> x in zone && forall o :: OwnsFromOutside(st, o, x) ==> o in gone))
  }

  /** There is only one such set: the chunks freed. */
  lemma {:induction false} FreedIsClosure(st: State, st': State, root: nat, zone: set<nat>, rank: nat -> nat, c: nat,
                                          gone: set<nat>, x: nat)
    requires FreeOf(st, st', root, zone, rank, c) && Closed(st, root, zone, c, gone) && Proper(st, root, x)
    ensures x in gone <==> Freed(st, st', x)
    decreases rank(x)
  {
    hide Shape, Fair, Local, OwnsFromOutside;
    if x != c {
      if x in zone {
        forall o | OwnsFromOutside(st, o, x) ensures o in gone <==> Freed(st, st', o) {
          OutsideComesBefore(st, root, zone, rank, o, x);
          OwnerLive(st, root, o, x);
          if o == root {
            RootParent(st', root);
          } else {
            FreedIsClosure(st, st', root, zone, rank, c, gone, o);
          }
        }
      }
      FreedWhenUnowned(st, st', root, zone, rank, c, x);
    }
  }

  // ----- Subtrees -----

  /** Every owner from outside of a chunk of the zone is in the zone: nobody else keeps one. */
  ghost predicate Enclosed(st: State, root: nat, zone: set<nat>, c: nat) {
    forall o, x :: Proper(st, root, x) && x in zone && x != c && OwnsFromOutside(st, o, x) ==> o in zone
  }

  /** Then all of the zone is freed, whatever its chunks refer to. */
  lemma {:induction false} ZoneFreed(st: State, st': State, root: nat, zone: set<nat>, rank: nat -> nat, c: nat, x: nat)
    requires FreeOf(st, st', root, zone, rank, c) && Enclosed(st, root, zone, c) && Proper(st, root, x) && c in zone
    ensures Freed(st, st', x) <==> x in zone
    decreases rank(x)
  {
    hide Shape, Fair, OwnsFromOutside;
    if x != c {
      if x in zone {
        forall o | OwnsFromOutside(st, o, x) ensures Freed(st, st', o) {
          OutsideComesBefore(st, root, zone, rank, o, x);
          OwnerLive(st, root, o, x);
          RootNotIn(st, root, zone, rank);
          ZoneFreed(st, st', root, zone, rank, c, o);
        }
      }
      FreedWhenUnowned(st, st', root, zone, rank, c, x);
    }
  }

  lemma RootNotIn(st: State, root: nat, zone: set<nat>, rank: nat -> nat)
    requires Fair(st, root, zone, rank)
    ensures root !in zone
  {
  }

  /** The n-th chunk above another. */
  ghost function Up(st: State, x: nat, n: nat): nat
    decreases n
  {
    if n == 0 || x !in st.parent then x else Up(st, st.parent[x], n - 1)
  }

  ghost predicate Under(st: State, x: nat, c: nat) {
    exists n: nat :: Up(st, x, n) == c
  }

  lemma {:induction false} NothingAboveRoot(st: State, root: nat, n: nat)
    requires Tree(st, root)
    ensures Up(st, root, n) == root || Up(st, root, n) == NULL
  {
    if n > 0 {
      assert Up(st, root, n) == Up(st, NULL, n - 1);
      assert NULL !in st.parent;
    }
  }

  lemma UnderParent(st: State, root: nat, x: nat, c: nat)
    requires Tree(st, root) && Listed(st, root, x) && x != c
    ensures x in st.parent && (Under(st, x, c) <==> Under(st, st.parent[x], c))
  {
    ListedHasParent(st, root, x);
    if Under(st, x, c) {
      var n: nat :| Up(st, x, n) == c;
      assert n > 0 && Up(st, st.parent[x], n - 1) == c;
    }
    if Under(st, st.parent[x], c) {
      var n: nat :| Up(st, st.parent[x], n) == c;
      assert Up(st, x, n + 1) == c;
    }
  }

  /** A chunk with all that is under it. */
  ghost function Subtree(st: State, c: nat): set<nat> {
    set x | x in st.kids && Under(st, x, c)
  }

  /** The chunk is not under itself. */
  ghost predicate Rooted(st: State, root: nat, c: nat) {
    Listed(st, root, c) && c in st.parent && !Under(st, st.parent[c], c)
  }

  lemma SubtreeZoned(st: State, root: nat, c: nat)
    requires Shape(st, root) && st.dying == {} && Rooted(st, root, c)
    ensures Zoned(st, root, Subtree(st, c)) && Entered(st, Subtree(st, c), c)
  {
    ParentsOfKids(st, root);
    NullIsNone(st, root);
    RootNotUnder(st, root, c);
    assert Up(st, c, 0) == c;
    forall x | x in st.parent && st.parent[x] in Subtree(st, c) ensures x in Subtree(st, c) {
      UnderAlso(st, x, c);
    }
  }

  lemma UnderAlso(st: State, x: nat, c: nat)
    requires x in st.parent && Under(st, st.parent[x], c)
    ensures Under(st, x, c)
  {
    var n: nat :| Up(st, st.parent[x], n) == c;
    assert Up(st, x, n + 1) == c;
  }

  lemma RootNotUnder(st: State, root: nat, c: nat)
    requires Tree(st, root) && c != root && c != NULL
    ensures !Under(st, root, c)
  {
    forall n: nat ensures Up(st, root, n) != c {
      NothingAboveRoot(st, root, n);
    }
  }

  /** How deep under it. */
  ghost function Depth(st: State, c: nat, x: nat, n: nat): nat
    decreases n
  {
    if x == c || n == 0 || x !in st.parent then 0 else 1 + Depth(st, c, st.parent[x], n - 1)
  }

  lemma {:induction false} DepthSame(st: State, c: nat, x: nat, n: nat, m: nat)
    requires Up(st, x, n) == c && Up(st, x, m) == c
    ensures Depth(st, c, x, n) == Depth(st, c, x, m)
    decreases n
  {
    if x != c {
      DepthSame(st, c, st.parent[x], n - 1, m - 1);
    }
  }

  ghost function Rank(st: State, c: nat, x: nat): nat {
    if Under(st, x, c) then var n: nat :| Up(st, x, n) == c; 1 + Depth(st, c, x, n) else 0
  }

  ghost function RankIn(st: State, c: nat): nat -> nat {
    (x: nat) => Rank(st, c, x)
  }

  lemma DeeperBelow(st: State, root: nat, c: nat, x: nat)
    requires Tree(st, root) && Listed(st, root, x) && Under(st, x, c) && x != c
    ensures x in st.parent && Rank(st, c, st.parent[x]) < Rank(st, c, x)
  {
    ListedHasParent(st, root, x);
    UnderParent(st, root, x, c);
    var n: nat :| Up(st, x, n) == c;
    var m: nat :| Up(st, st.parent[x], m) == c;
    DepthRank(st, c, x, n);
    DepthRank(st, c, st.parent[x], m);
    assert Up(st, x, m + 1) == c;
    DepthSame(st, c, x, n, m + 1);
  }

  lemma DeeperThanParent(st: State, root: nat, c: nat, x: nat)
    requires Tree(st, root) && Rooted(st, root, c) && Listed(st, root, x) && Under(st, x, c)
    ensures x in st.parent && Rank(st, c, st.parent[x]) < Rank(st, c, x)
  {
    if x != c {
      DeeperBelow(st, root, c, x);
    } else {
      ListedHasParent(st, root, c);
    }
  }

  lemma DepthRank(st: State, c: nat, x: nat, n: nat)
    requires Up(st, x, n) == c
    ensures Rank(st, c, x) == 1 + Depth(st, c, x, n)
  {
    forall m: nat | Up(st, x, m) == c ensures Depth(st, c, x, m) == Depth(st, c, x, n) {
      DepthSame(st, c, x, n, m);
    }
  }

  /** No reference into the zone. */
  ghost predicate Unreferenced(st: State, zone: set<nat>) {
    forall x :: x in st.refs && x in zone ==> st.refs[x] == []
  }

  lemma SubtreeEnclosed(st: State, root: nat, c: nat)
    requires Shape(st, root) && Rooted(st, root, c) && Unreferenced(st, Subtree(st, c))
    ensures Enclosed(st, root, Subtree(st, c), c)
  {
    hide Tree, References, Below;
    var zone := Subtree(st, c);
    forall o, x | Proper(st, root, x) && x in zone && x != c && OwnsFromOutside(st, o, x) ensures o in zone {
      ListedHasParent(st, root, x);
      UnderParent(st, root, x, c);
    }
  }

  lemma UnreferencedFair(st: State, root: nat, zone: set<nat>, rank: nat -> nat)
    requires Unreferenced(st, zone)
    ensures forall x :: x in st.refs && Within(st, zone, x) ==> FairRefs(st, root, x, rank)
  {
  }

  /** A subtree that nothing refers to is fair, by its depth. */
  lemma SubtreeFair(st: State, root: nat, c: nat)
    requires Shape(st, root) && st.dying == {} && Rooted(st, root, c) && Unreferenced(st, Subtree(st, c))
    ensures Fair(st, root, Subtree(st, c), RankIn(st, c)) && Entered(st, Subtree(st, c), c)
    ensures Enclosed(st, root, Subtree(st, c), c)
  {
    hide Shape, Zoned, Rising, Unreferenced, FairRefs, Rooted, Subtree, Entered, Enclosed, RankIn;
    SubtreeZoned(st, root, c);
    RisingSubtree(st, root, c);
    SubtreeEnclosed(st, root, c);
    UnreferencedFair(st, root, Subtree(st, c), RankIn(st, c));
  }

  lemma RisingSubtree(st: State, root: nat, c: nat)
    requires Shape(st, root) && st.dying == {} && Rooted(st, root, c)
    ensures Rising(st, Subtree(st, c), RankIn(st, c))
  {
    RootNotUnder(st, root, c);
    forall x | x in st.parent && Within(st, Subtree(st, c), x) ensures RankIn(st, c)(st.parent[x]) < RankIn(st, c)(x) {
      DeeperThanParent(st, root, c, x);
    }
  }

  /** When nothing refers into it, freeing a chunk frees exactly its subtree, handles included. */
  lemma SubtreeFreed(st: State, st': State, root: nat, c: nat, x: nat)
    requires Rooted(st, root, c) && c !in st.handles && Unreferenced(st, Subtree(st, c)) && x in st.kids
    requires FreeOf(st, st', root, Subtree(st, c), RankIn(st, c), c)
    ensures x !in st'.kids <==> Under(st, x, c)
  {
    hide Tree, References, Zoned, Rising, Fair, Unreferenced, Enclosed, Local, FreeResult;
    SubtreeFair(st, root, c);
    if x == root {
      NullIsNone(st, root);
      RootNotUnder(st, root, c);
      RootParent(st', root);
    } else if x in st.handles {
      HandleSubtree(st, st', root, c, x);
    } else {
      ZoneFreed(st, st', root, Subtree(st, c), RankIn(st, c), c, x);
    }
  }

  lemma HandleSubtree(st: State, st': State, root: nat, c: nat, h: nat)
    requires Rooted(st, root, c) && Unreferenced(st, Subtree(st, c)) && h in st.handles && c !in st.handles
    requires FreeOf(st, st', root, Subtree(st, c), RankIn(st, c), c)
    ensures h !in st'.kids <==> Under(st, h, c)
  {
    var zone := Subtree(st, c);
    assert HandleOk(st, root, h);
    UnderParent(st, root, h, c);
    HandleParent(st, root, h);
    var p := st.parent[h];
    if Under(st, h, c) {
      if h in st'.kids {
        assert h in st'.handles && st'.parent[h] == p;
        HandleParent(st', root, h);
        ParentFreed(st, st', root, c, p);
      }
    } else {
      assert st.handles[h] !in zone;
    }
  }

  lemma ParentFreed(st: State, st': State, root: nat, c: nat, p: nat)
    requires Rooted(st, root, c) && Unreferenced(st, Subtree(st, c)) && p in st.kids && p !in st.handles && Under(st, p, c)
    requires FreeOf(st, st', root, Subtree(st, c), RankIn(st, c), c)
    ensures p !in st'.kids
  {
    SubtreeFair(st, root, c);
    RootNotUnder(st, root, c);
    ZoneFreed(st, st', root, Subtree(st, c), RankIn(st, c), c, p);
  }

  /** All that is under a chunk. */
  ghost function Beneath(st: State, d: nat): set<nat> {
    Subtree(st, d) - {d}
  }

  /** A context that is not under itself. */
  ghost predicate Context(st: State, root: nat, d: nat) {
    Usable(st, d) && (d == root || Rooted(st, root, d))
  }

  lemma BeneathDrains(st: State, root: nat, d: nat)
    requires Shape(st, root) && st.dying == {} && Context(st, root, d)
    ensures Drains(st, root, Beneath(st, d), d)
  {
    ParentsOfKids(st, root);
    NullIsNone(st, root);
    RootNotBeneath(st, root, d);
    forall x | x in st.parent && st.parent[x] in Beneath(st, d) ensures x in Beneath(st, d) {
      UnderAlso(st, x, d);
      NotBeneath(st, root, d, x);
    }
    forall c | c in st.kids[d] ensures c in Beneath(st, d) {
      ParentOfChild(st, root, d, c);
      assert Up(st, d, 0) == d;
      UnderAlso(st, c, d);
    }
  }

  lemma RootNotBeneath(st: State, root: nat, d: nat)
    requires Tree(st, root) && d in st.kids
    ensures root !in Beneath(st, d)
  {
    if d != root {
      NullIsNone(st, root);
      RootNotUnder(st, root, d);
    }
  }

  /** Nobody beneath d is its parent. */
  lemma NotBeneath(st: State, root: nat, d: nat, x: nat)
    requires Shape(st, root) && Context(st, root, d) && x in st.parent && st.parent[x] in Beneath(st, d)
    ensures x != d
  {
    if d == root {
      RootTop(st, root);
    }
  }

  lemma ParentOfChild(st: State, root: nat, d: nat, c: nat)
    requires Tree(st, root) && d in st.kids && c in st.kids[d]
    ensures Child(st, root, d, c)
  {
  }

  lemma RootTop(st: State, root: nat)
    requires Tree(st, root)
    ensures root in st.parent && st.parent[root] == NULL && root != NULL && root in st.kids && NULL !in st.kids
  {
  }

  lemma BeneathFair(st: State, root: nat, d: nat)
    requires Shape(st, root) && st.dying == {} && Context(st, root, d) && Unreferenced(st, Beneath(st, d))
    ensures Fair(st, root, Beneath(st, d), RankIn(st, d)) && Drains(st, root, Beneath(st, d), d)
  {
    hide References, Zoned, FairRefs, Unreferenced;
    var zone := Beneath(st, d);
    BeneathDrains(st, root, d);
    UnreferencedFair(st, root, zone, RankIn(st, d));
    RootNotBeneath(st, root, d);
    forall x | x in st.parent && Within(st, zone, x) ensures RankIn(st, d)(st.parent[x]) < RankIn(st, d)(x) {
      DeeperBelow(st, root, d, x);
    }
  }

  /** What freeing the children of d promises. */
  ghost predicate ChildrenOf(st: State, st': State, root: nat, d: nat) {
    && Shape(st, root) && Shape(st', root) && st.dying == {} && Context(st, root, d) && d in st'.kids && st'.kids[d] == []
    && Local(st, st', Beneath(st, d)) && Accounted(st, st', root, d, RankIn(st, d))
  }

  /** When nothing refers to what is under a context, freeing its children frees exactly that. */
  lemma BeneathFreed(st: State, st': State, root: nat, d: nat, x: nat)
    requires ChildrenOf(st, st', root, d) && Unreferenced(st, Beneath(st, d)) && x in st.kids
    ensures x !in st'.kids <==> x in Beneath(st, d)
  {
    hide Tree, References, Unreferenced, Local, Accounted;
    if x == root {
      RootNotBeneath(st, root, d);
      RootParent(st', root);
    } else if x in st.handles {
      HandleBeneath(st, st', root, d, x);
    } else if x in Beneath(st, d) {
      ProperBeneath(st, st', root, d, x);
    } else {
      OutOfZone(st, st', Beneath(st, d), x);
    }
  }

  lemma OutOfZone(st: State, st': State, zone: set<nat>, x: nat)
    requires Local(st, st', zone) && x in st.kids && x !in zone && (x !in st.handles || st.handles[x] !in zone)
    ensures x in st'.kids
  {
  }

  lemma {:induction false} ProperBeneath(st: State, st': State, root: nat, d: nat, x: nat)
    requires ChildrenOf(st, st', root, d) && Unreferenced(st, Beneath(st, d)) && x in Beneath(st, d) && x !in st.handles
    ensures x !in st'.kids
    decreases Rank(st, d, x)
  {
    hide Tree, References, Local, Accounted, Unreferenced;
    RootNotBeneath(st, root, d);
    DeeperBelow(st, root, d, x);
    ListedHasParent(st, root, x);
    UnderParent(st, root, x, d);
    var p := st.parent[x];
    if p != d {
      ContextOf(st, root, x);
      ProperBeneath(st, st', root, d, p);
    }
    SurvivorStays(st, st', root, d, x);
  }

  lemma ContextOf(st: State, root: nat, x: nat)
    requires Shape(st, root) && Listed(st, root, x) && x in st.parent
    ensures st.parent[x] in st.kids && st.parent[x] !in st.handles
  {
    ListedHasParent(st, root, x);
    assert st.parent[x] in st.handles ==> HandleOk(st, root, st.parent[x]);
  }

  /** A survivor that nothing refers to has the parent it had. */
  lemma SurvivorStays(st: State, st': State, root: nat, d: nat, x: nat)
    requires ChildrenOf(st, st', root, d) && Unreferenced(st, Beneath(st, d)) && x in Beneath(st, d)
    requires x !in st.handles && x != root
    ensures x in st'.kids ==> x in st.parent && st.parent[x] in st'.kids && st.parent[x] != d
  {
    if x in st'.kids {
      ProperBefore(st, st', root, x);
      ListedHasParent(st', root, x);
      InRefs(st', root, x);
      InRefs(st, root, x);
      assert Owns(st', st'.parent[x], x);
      OnlyParent(st, x);
    }
  }

  lemma HandleBeneath(st: State, st': State, root: nat, d: nat, h: nat)
    requires ChildrenOf(st, st', root, d) && Unreferenced(st, Beneath(st, d)) && h in st.handles
    ensures h !in st'.kids <==> h in Beneath(st, d)
  {
    hide Tree, References, Unreferenced, Local, Accounted;
    HandleRefersOut(st, root, Beneath(st, d), h);
    ContextOf(st, root, h);
    UnderParent(st, root, h, d);
    var p := st.parent[h];
    if h in Beneath(st, d) {
      if p != d {
        ProperBeneath(st, st', root, d, p);
      }
      HandleStays(st, st', root, d, h);
    } else {
      OutOfZone(st, st', Beneath(st, d), h);
    }
  }

  lemma HandleRefersOut(st: State, root: nat, zone: set<nat>, h: nat)
    requires Shape(st, root) && h in st.handles && Unreferenced(st, zone)
    ensures Listed(st, root, h) && h in st.parent && st.handles[h] !in zone
  {
    assert HandleOk(st, root, h);
    ListedHasParent(st, root, h);
  }

  lemma HandleStays(st: State, st': State, root: nat, d: nat, h: nat)
    requires ChildrenOf(st, st', root, d) && h in st.handles && h in st.parent
    ensures h in st'.kids ==> st.parent[h] in st'.kids && st.parent[h] != d
  {
    if h in st'.kids {
      HandleParent(st', root, h);
      assert HandleOk(st', root, h);
      ListedHasParent(st', root, h);
    }
  }

  // ----- When no chunk owns itself -----

  /** No chunk owns itself, even through others: owners come first in some order; no reference hangs off the null context. */
  ghost predicate Ranked(st: State, root: nat, rank: nat -> nat) {
    && (forall o, x :: Proper(st, root, x) && Owns(st, o, x) ==> rank(o) < rank(x))
    && (forall x :: x in st.parent && st.parent[x] != NULL ==> rank(st.parent[x]) < rank(x))
    && (forall h :: h in st.handles ==> h in st.parent && st.parent[h] != root)
  }

  /** Then references are fair wherever a free may reach. */
  lemma RankedFair(st: State, root: nat, rank: nat -> nat, c: nat)
    requires Shape(st, root) && st.dying == {} && Listed(st, root, c) && Ranked(st, root, rank)
    ensures var zone := set x | x in st.kids && x != root && rank(c) <= rank(x); Fair(st, root, zone, rank) && Entered(st, zone, c)
  {
    var zone := set x | x in st.kids && x != root && rank(c) <= rank(x);
    RankedZoned(st, root, rank, c);
    forall x | x in st.refs && Within(st, zone, x) ensures FairRefs(st, root, x, rank) {
      forall h | h in st.refs[x] ensures FairRef(st, root, h, x, rank) && !Below(st, h, x) {
        RankedRef(st, root, rank, x, h);
        if Below(st, h, x) {
          BelowRank(st, root, zone, rank, h, x);
        }
      }
      NoneBelow(st, x, st.refs[x]);
    }
    hide Shape, Zoned, Rising;
  }

  lemma RankedZoned(st: State, root: nat, rank: nat -> nat, c: nat)
    requires Shape(st, root) && st.dying == {} && Listed(st, root, c) && Ranked(st, root, rank)
    ensures var zone := set x | x in st.kids && x != root && rank(c) <= rank(x);
            Zoned(st, root, zone) && Rising(st, zone, rank) && Entered(st, zone, c)
  {
    hide Tree, References, Ranked;
    var zone := set x | x in st.kids && x != root && rank(c) <= rank(x);
    ParentsOfKids(st, root);
    RootTop(st, root);
    forall x | x in st.parent && x != root ensures rank(st.parent[x]) < rank(x) {
      ParentRank(st, root, rank, x);
    }
    ListedHasParent(st, root, c);
  }

  lemma ParentRank(st: State, root: nat, rank: nat -> nat, x: nat)
    requires Shape(st, root) && st.dying == {} && Ranked(st, root, rank) && x in st.parent && x != root
    ensures rank(st.parent[x]) < rank(x)
  {
    hide References, Owns, Proper;
    ListedHasParent(st, root, x);
  }

  lemma RankedRef(st: State, root: nat, rank: nat -> nat, x: nat, h: nat)
    requires Shape(st, root) && Ranked(st, root, rank) && st.dying == {} && x != root && x in st.refs && h in st.refs[x]
    ensures h in st.parent && st.parent[h] != root && rank(st.parent[h]) < rank(x) && h != x
  {
    HandleOfRefs(st, root, x, h);
    InRefs(st, root, x);
    ReferencedNoHandle(st, root, x);
    hide Shape;
    assert Owns(st, st.parent[h], x) && Proper(st, root, x);
  }

  lemma {:induction false} NoneBelow(st: State, x: nat, rs: seq<nat>)
    requires forall h :: h in rs ==> !Below(st, h, x)
    ensures BelowLast(st, x, rs)
    decreases rs
  {
    hide Below;
    if rs != [] {
      NoneBelow(st, x, rs[1..]);
    }
  }

  // ----- talloc_unlink -----

  /** Unlinking a context that holds a reference removes that reference: the context stops owning the chunk unless it is
  its parent, or holds another reference to it; no other owner of any chunk changes. */
  lemma UnlinkedReference(st: State, st': State, root: nat, c: nat, h: nat, o: nat, x: nat)
    requires Shape(st, root) && c in st.refs && h in st.refs[c] && HandleIsFreed(st, st', h) && Proper(st, root, c)
    requires Proper(st', root, x)
    ensures Owns(st', o, x) ==> Owns(st, o, x)
    ensures Owns(st, o, x) ==> Owns(st', o, x) || (o == st.parent[h] && x == c)
    ensures Owns(st', st.parent[h], c) <==>
            c in st.parent && (st.parent[c] == st.parent[h] ||
              exists h' :: h' in st.refs[c] && h' != h && h' in st.parent && st.parent[h'] == st.parent[h])
  {
    hide Tree, References;
    HandleOwners(st, root, h);
    HandleOfRefs(st, root, c, h);
    ListedHasParent(st, root, c);
    if h' :| h' in st.refs[c] && h' != h && h' in st.parent && st.parent[h'] == st.parent[h] {
      assert h' in st'.refs[c];
    }
  }

  /** Unlinking the parent of a referenced chunk hands the chunk to the owner of its first reference: the parent stops
  owning it, and nothing else changes; this fails if and only if that reference hangs off the chunk itself. */
  lemma UnlinkedParent(st: State, st': State, root: nat, c: nat, o: nat, x: nat)
    requires Shape(st, root) && Proper(st, root, c) && Proper(st', root, x) && FirstReferenceTakesOver(st, st', c)
    requires c in st.parent && FirstOf(st, st.refs[c], st.parent[c]) == None
    ensures Owns(st', o, x) ==> Owns(st, o, x)
    ensures Owns(st, o, x) ==> Owns(st', o, x) || (x == c && (o == st.parent[c] || o == c))
    ensures var h := st.refs[c][0]; h in st.parent && (Owns(st', st.parent[c], c) <==> st.parent[h] == c)
    ensures var h := st.refs[c][0]; h in st.parent && (st.parent[h] != c ==> c in st'.parent && st'.parent[c] == st.parent[h])
  {
    hide Tree, References, FirstOf;
    var h, st1 := st.refs[c][0], HandleFreed(st, st.refs[c][0]);
    var q := st.parent[h];
    FirstReference(st, root, c);
    HandleFreedShape(st, root, h);
    HandleOwners(st, root, h);
    RemainingOwners(st, root, c, h);
    ListedHasParent(st1, root, c);
    hide Shape;
    if q != c {
      assert Proper(st1, root, x);
      StolenOwners(st1, root, q, c, o, x) by { ShapeParts(st1, root); }
      StolenOwners(st1, root, q, c, st.parent[c], c) by { ShapeParts(st1, root); }
      MovedAway(st1, root, q, c);
    }
  }

  /** The parent holds no reference. */
  lemma RemainingOwners(st: State, root: nat, c: nat, h: nat)
    requires Shape(st, root) && Proper(st, root, c) && c in st.refs && h in st.refs[c] && c in st.parent
    requires HasParent(st, h) && h in st.handles && st.handles[h] in st.refs
    requires FirstOf(st, st.refs[c], st.parent[c]) == None
    ensures st.parent[h] != st.parent[c]
    ensures var st1 := HandleFreed(st, h);
            && c in st1.refs && c in st1.parent && c in st1.kids && c !in st1.handles && st1.parent[c] == st.parent[c]
            && forall h' :: h' in st1.refs[c] && h' in st1.parent ==> st1.parent[h'] != st1.parent[c]
  {
    HandleOfRefs(st, root, c, h);
  }

  lemma MovedAway(st: State, root: nat, q: nat, c: nat)
    requires Shape(st, root) && c in st.kids && c !in st.handles && HasParent(st, c) && q in st.kids && q != c && c in st.refs
    requires q != st.parent[c]
    requires forall h' :: h' in st.refs[c] && h' in st.parent ==> st.parent[h'] != st.parent[c]
    ensures !Owns(Stolen(st, q, c), st.parent[c], c)
  {
    forall h | h in st.refs[c] ensures h != c {
      HandleOfRefs(st, root, c, h);
    }
  }

  // ----- talloc_free_children -----

  /** Freeing the children of a context makes it own nothing, and takes no other owner from the survivors but those
  freed. */
  lemma ChildrenFreed(st: State, st': State, root: nat, d: nat, rank: nat -> nat, o: nat, x: nat)
    requires Shape(st, root) && Shape(st', root) && Accounted(st, st', root, d, rank) && d in st'.kids && st'.kids[d] == []
    requires Proper(st', root, x)
    ensures Owns(st', o, x) <==> Owns(st, o, x) && o != d && !Freed(st, st', o)
  {
    if Owns(st', o, x) {
      OwnerLive(st', root, o, x);
      OwnsSome(st', root, o, x);
    }
  }

  lemma OwnsSome(st: State, root: nat, o: nat, x: nat)
    requires Shape(st, root) && Proper(st, root, x) && Owns(st, o, x)
    ensures o in st.kids && st.kids[o] != []
  {
    ListedHasParent(st, root, x);
    if st.parent[x] != o {
      var h :| h in st.refs[x] && h in st.parent && st.parent[h] == o;
      HandleOfRefs(st, root, x, h);
      assert HandleOk(st, root, h);
      ListedHasParent(st, root, h);
    }
  }

  // ----- Where the laws end -----

  /** Who keeps a child c of d that is handed over, with references rs of which the first k come from below: an owner from
  outside does if and only if it has a reference after the k-th, or none came from below, the first one is its own, and it
  is not the null context while d has a live parent. */
  ghost predicate Keeps(st: State, root: nat, d: nat, o: nat)
    requires HandsOver(st, d)
  {
    var c := st.kids[d][0];
    var rs := st.refs[c];
    var k := Leading(st, c, rs);
    || (exists j :: k < j < |rs| && rs[j] in st.parent && st.parent[rs[j]] == o)
    || (k == 0 && FirstOwnerOf(st, root, c) == o && HandedTo(st, root, d, o) == o)
  }

  lemma AbandonedOwners(st: State, root: nat, d: nat, i: nat)
    requires Shape(st, root) && HandsOver(st, d) && (d in st.dying || d !in st.handles) && i < |st.refs[st.kids[d][0]]|
    requires var c := st.kids[d][0]; !Below(st, st.refs[c][i], c)
    ensures var c := st.kids[d][0]; var h := st.refs[c][i];
            h in st.parent && (st.parent[h] != d ==> (Owns(HandedOver(st, root, d), st.parent[h], c) <==> Keeps(st, root, d, st.parent[h])))
  {
    var c := st.kids[d][0];
    var rs := st.refs[c];
    var k := Leading(st, c, rs);
    hide Tree, References, Below, Dropped, Leading, OnlyHandlesGone, Stolen, Owns, HandedTo, FirstOwnerOf, HasParent;
    FirstChildListed(st, root, d);
    HandleOfRefs(st, root, c, rs[i]);
    var o := st.parent[rs[i]];
    var st1 := Dropped(st, rs[..k + 1]);
    AfterDrop(st, root, d, c, rs, st1, FirstOwnerOf(st, root, c));
    var q := HandedTo(st1, root, d, FirstOwnerOf(st, root, c));
    assert HandedOver(st, root, d) == Stolen(st1, q, c);
    MovedOwners(st1, root, q, c, o);
    LaterReferences(st, root, d, o);
    FirstElsewhere(st, root, c, o, i);
  }

  /** What is left once the references from below, and the next one, are gone. */
  lemma AfterDrop(st: State, root: nat, d: nat, c: nat, rs: seq<nat>, st1: State, q: nat)
    requires Shape(st, root) && HandsOver(st, d) && (d in st.dying || d !in st.handles) && c == st.kids[d][0] && rs == st.refs[c]
    requires st1 == Dropped(st, rs[..Leading(st, c, rs) + 1]) && q == FirstOwnerOf(st, root, c)
    ensures Listed(st, root, c) && c in st.parent && st.parent[c] == d && c !in st.handles
    ensures Shape(st1, root) && OnlyHandlesGone(st, st1) && Listed(st1, root, c) && HasParent(st1, c) && st1.parent[c] == d
    ensures c !in st1.handles && c in st1.refs && st1.refs[c] == rs[Leading(st, c, rs) + 1..]
    ensures HandedTo(st1, root, d, q) in st1.kids && HandedTo(st1, root, d, q) == HandedTo(st, root, d, q)
  {
    hide Tree, References, Below, Dropped, Leading, OnlyHandlesGone, Steady, Local, Zoned, Fair;
    FirstChildListed(st, root, d);
    ReferencedNoHandle(st, root, c);
    DroppedKeeps(st, root, c, Leading(st, c, rs) + 1, {}, x => 0);
    StillListed(st, st1, root, c);
    ListedHasParent(st1, root, c);
    ParentAfterDrop(st, st1, root, c, d);
    HandleOfRefs(st, root, c, rs[0]);
    HandleParent(st, root, rs[0]);
    OwnerStays(st, st1, st.parent[rs[0]]);
  }

  lemma ParentAfterDrop(st: State, st1: State, root: nat, c: nat, d: nat)
    requires Shape(st, root) && Shape(st1, root) && OnlyHandlesGone(st, st1) && d in st.kids && (d in st.dying || d !in st.handles)
    requires c in st1.parent
    ensures c in st.parent && st1.parent[c] == st.parent[c] && d in st.parent && d in st1.parent
    ensures st1.parent[d] == st.parent[d]
    ensures st.parent[d] in st.kids <==> st.parent[d] in st1.kids
  {
    ParentsOfKids(st, root);
    ParentsOfKids(st1, root);
    DyingNotHandle(st, root, d);
    NeverHandle(st, root, d);
    hide Shape;
  }

  lemma DyingNotHandle(st: State, root: nat, d: nat)
    requires Shape(st, root) && (d in st.dying || d !in st.handles)
    ensures d !in st.handles
  {
    assert d in st.dying ==> Dying(st, d);
  }

  /** The owners of a chunk that was moved are its new parent and the owners of its references. */
  lemma MovedOwners(st1: State, root: nat, q: nat, c: nat, o: nat)
    requires Shape(st1, root) && HasParent(st1, c) && q in st1.kids && c in st1.refs && c !in st1.handles
    ensures Owns(Stolen(st1, q, c), o, c) <==>
              o == (if q == c then st1.parent[c] else q) || exists h :: h in st1.refs[c] && h in st1.parent && st1.parent[h] == o
  {
    forall h | h in st1.refs[c] ensures h != c {
      HandleOfRefs(st1, root, c, h);
    }
    hide Shape;
    var st2 := Stolen(st1, q, c);
    if h :| h in st1.refs[c] && h in st1.parent && st1.parent[h] == o {
      assert h in st2.refs[c] && st2.parent[h] == o;
    }
  }

  lemma LaterReferences(st: State, root: nat, d: nat, o: nat)
    requires Shape(st, root) && HandsOver(st, d) && (d in st.dying || d !in st.handles)
    ensures var c := st.kids[d][0]; var rs := st.refs[c]; var k := Leading(st, c, rs); var st1 := Dropped(st, rs[..k + 1]);
            c in st1.refs &&
            ((exists h :: h in st1.refs[c] && h in st1.parent && st1.parent[h] == o) <==>
             (exists j :: k < j < |rs| && rs[j] in st.parent && st.parent[rs[j]] == o))
  {
    hide Tree, References, Below, Dropped, Leading;
    var c := st.kids[d][0];
    var rs := st.refs[c];
    var k := Leading(st, c, rs);
    var st1 := Dropped(st, rs[..k + 1]);
    AfterDrop(st, root, d, c, rs, st1, FirstOwnerOf(st, root, c));
    if h :| h in st1.refs[c] && h in st1.parent && st1.parent[h] == o {
      var j :| 0 <= j < |rs[k + 1..]| && rs[k + 1..][j] == h;
      assert rs[k + 1 + j] == h;
    }
    if j :| k < j < |rs| && rs[j] in st.parent && st.parent[rs[j]] == o {
      assert st1.refs[c][j - k - 1] == rs[j];
      HandleOfRefs(st1, root, c, rs[j]);
    }
  }

  /** An owner below the chunk is no owner from outside, and not the null context. */
  lemma FirstElsewhere(st: State, root: nat, c: nat, o: nat, i: nat)
    requires Shape(st, root) && Listed(st, root, c) && c in st.refs && i < |st.refs[c]| && !Below(st, st.refs[c][i], c)
    requires st.refs[c][i] in st.parent && st.parent[st.refs[c][i]] == o
    ensures o != c
    ensures Leading(st, c, st.refs[c]) > 0 ==> FirstOwnerOf(st, root, c) != o && FirstOwnerOf(st, root, c) != root
  {
    var rs := st.refs[c];
    HandleOfRefs(st, root, c, rs[i]);
    HandleOfRefs(st, root, c, rs[0]);
    NullIsNone(st, root);
    hide References;
    var n: nat := TALLOC_MAX_DEPTH - 1;
    assert Below(st, rs[i], c) <==> Meets(st, o, c, n);
    assert Below(st, rs[0], c) <==> Meets(st, st.parent[rs[0]], c, n);
    ListedHasParent(st, root, c);
    assert o == c ==> Meets(st, o, c, n);
    assert !Meets(st, root, c, n);
  }

  /** The null context keeps a child of d if and only if d was not the first child of another context. */
  lemma NullContextKeeps(st: State, root: nat, d: nat)
    requires Shape(st, root) && Listed(st, root, d) && d !in st.handles && d in st.refs && st.refs[d] == []
    ensures HasParent(st, d) && st.kids[st.parent[d]] != []
    ensures HandedTo(Killed(st, d), root, d, root) == root <==> st.kids[st.parent[d]][0] != d || st.parent[d] == root
  {
    ListedHasParent(st, root, d);
  }

  /** What a chunk looks like once d was taken out of its list. */
  lemma KilledAt(st: State, root: nat, d: nat, x: nat)
    requires Shape(st, root) && Listed(st, root, d) && d !in st.handles && d in st.refs && st.refs[d] == [] && x in st.kids
    ensures HasParent(st, d) && st.kids[st.parent[d]] != []
    ensures var st' := Killed(st, d);
            && st'.dying == st.dying + {d} && x in st'.kids && x in st'.parent && x in st'.refs && x in st.parent && x in st.refs
            && st'.refs[x] == st.refs[x] && (x != d ==> st'.parent[x] == st.parent[x])
            && (x in st'.handles <==> x in st.handles) && (x == d ==> st'.kids[x] == st.kids[x])
  {
    ListedHasParent(st, root, d);
    assert Child(st, root, st.parent[d], d);
  }

  /** The state after an only child was handed over to another chunk. */
  lemma LoneChildLeaves(st: State, root: nat, d: nat)
    requires Shape(st, root) && HandsOver(st, d) && d in st.dying && |st.kids[d]| == 1
    requires HandedTo(st, root, d, FirstOwnerOf(st, root, st.kids[d][0])) !in {d, st.kids[d][0]}
    requires HandedTo(st, root, d, FirstOwnerOf(st, root, st.kids[d][0])) !in st.handles
    ensures LoneKept(st, root, d)
    ensures var c, st' := st.kids[d][0], HandedOver(st, root, d);
            && Shape(st', root) && c in st'.kids && c in st'.parent
            && st'.parent[c] == HandedTo(st, root, d, FirstOwnerOf(st, root, c))
            && (forall x :: x in st.kids && x !in st.handles ==> x in st'.kids && x !in st'.handles)
            && (forall x :: x in st.kids && x !in st.handles && x != c ==> x in st'.parent && x in st.parent && st'.parent[x] == st.parent[x])
  {
    hide Tree, References, Below, Dropped, Leading, HandedTo, FirstOwnerOf;
    var c := st.kids[d][0];
    var rs := st.refs[c];
    var st1 := Dropped(st, rs[..Leading(st, c, rs) + 1]);
    AfterDrop(st, root, d, c, rs, st1, FirstOwnerOf(st, root, c));
    var q := HandedTo(st1, root, d, FirstOwnerOf(st, root, c));
    assert HandedOver(st, root, d) == Stolen(st1, q, c);
    OwnerStays(st, st1, q) by { assert q !in st.handles; InBefore(st, st1, q); }
    StolenShape(st1, root, q, c);
    ParentsOfKids(st, root);
    ParentsOfKids(st1, root);
    var st' := Stolen(st1, q, c);
    ParentsOfKids(st', root);
    OnlyChildGone(st, st1, root, d, c, st');
  }

  lemma InBefore(st: State, st1: State, q: nat)
    requires OnlyHandlesGone(st, st1)
    ensures q in st1.kids ==> q in st.kids
  {
  }

  lemma WasChild(st: State, st1: State, root: nat, d: nat, c: nat, st': State, x: nat)
    requires Shape(st, root) && Shape(st', root) && OnlyHandlesGone(st, st1) && st'.kids.Keys == st1.kids.Keys
    requires st1.parent.Keys == st1.kids.Keys
    requires st'.dying == st1.dying && forall x :: x in st1.parent && x != c ==> x in st'.parent && st'.parent[x] == st1.parent[x]
    requires d in st.kids && d in st'.kids && x in st'.kids[d] && x != c
    ensures x in st.kids[d]
  {
    hide References;
    assert Child(st', root, d, x);
    ListedHasParent(st, root, x);
  }

  lemma OnlyChildGone(st: State, st1: State, root: nat, d: nat, c: nat, st': State)
    requires Shape(st, root) && Shape(st', root) && OnlyHandlesGone(st, st1) && st'.kids.Keys == st1.kids.Keys
    requires st1.parent.Keys == st1.kids.Keys
    requires st'.dying == st1.dying && forall x :: x in st1.parent && x != c ==> x in st'.parent && st'.parent[x] == st1.parent[x]
    requires d in st.kids && st.kids[d] == [c] && d in st'.kids && c in st'.parent && st'.parent[c] != d
    ensures st'.kids[d] == []
  {
    hide References, OnlyHandlesGone;
    assert st'.kids[d] != [] ==> st'.kids[d][0] in st'.kids[d];
    forall x | x in st'.kids[d] && x != c ensures x in st.kids[d] {
      WasChild(st, st1, root, d, c, st', x);
    }
    assert c in st'.kids[d] ==> Child(st', root, d, c);
  }

  /** A chunk c is the only child of d, and referenced first from its own child q, and then from another context b.  Freeing
  d loses both references, and hands the chunk to its own child: b, which lives on, has lost it, and the two are out of
  reach.  This is the state that FreeUnreferenced() leaves. */
  lemma OwnerBelowLosesOther(st: State, root: nat, d: nat, c: nat, h1: nat, h2: nat)
    requires Shape(st, root) && st.dying == {} && Proper(st, root, d) && Proper(st, root, c) && c in st.refs
    requires st.refs[c] == [h1, h2]
    requires st.kids[d] == [c] && d in st.refs && st.refs[d] == []
    requires h1 in st.parent && st.parent[h1] in st.parent && st.parent[st.parent[h1]] == c && st.parent[h1] != d
    requires h2 in st.parent && st.parent[h2] != d && st.parent[h2] in st.parent && st.parent[st.parent[h2]] == root
    ensures HasParent(st, d) && st.kids[st.parent[d]] != [] && LoneKept(Killed(st, d), root, d)
    ensures var q, b, st' := st.parent[h1], st.parent[h2], Deleted(HandedOver(Killed(st, d), root, d), d);
            && Owns(st, b, c) && b in st'.kids && c in st'.kids && !Owns(st', b, c)
            && c in st'.parent && st'.parent[c] == q && q in st'.parent && st'.parent[q] == c
  {
    hide Tree, References, Below, Dropped, Leading, Owns, HandedOver, Killed, HandsOver, LoneKept, FirstOwnerOf, HandedTo;
    ListedHasParent(st, root, d);
    var q, b, stk := st.parent[h1], st.parent[h2], Killed(st, d);
    BelowCase(st, root, d, c, h1, h2);
    LoneChildLeaves(stk, root, d);
    var st2 := HandedOver(stk, root, d);
    AbandonedOwners(stk, root, d, 1);
    DeletedOwners(st2, root, d, b, c);
  }

  lemma BelowCase(st: State, root: nat, d: nat, c: nat, h1: nat, h2: nat)
    requires Shape(st, root) && st.dying == {} && Proper(st, root, d) && Proper(st, root, c) && c in st.refs
    requires st.refs[c] == [h1, h2]
    requires st.kids[d] == [c] && d in st.refs && st.refs[d] == []
    requires h1 in st.parent && st.parent[h1] in st.parent && st.parent[st.parent[h1]] == c && st.parent[h1] != d
    requires h2 in st.parent && st.parent[h2] != d && st.parent[h2] in st.parent && st.parent[st.parent[h2]] == root
    ensures HasParent(st, d) && st.kids[st.parent[d]] != []
    ensures var q, b, stk := st.parent[h1], st.parent[h2], Killed(st, d);
            && Shape(stk, root) && d in stk.dying && d in stk.kids && stk.kids[d] == [c] && HandsOver(stk, d) && d != c && d !in stk.handles
            && c in stk.refs && stk.refs[c] == [h1, h2] && !Below(stk, h2, c) && h2 in stk.parent && stk.parent[h2] == b && b != c
            && FirstOwnerOf(stk, root, c) == q && HandedTo(stk, root, d, q) == q && q != c && q in stk.kids && q !in stk.handles
            && q in stk.parent && stk.parent[q] == c && b in stk.kids && b !in stk.handles && !Keeps(stk, root, d, b)
            && Owns(st, b, c) && c in stk.kids && c !in stk.handles
  {
    hide Tree, References, Below, Leading;
    ListedHasParent(st, root, d);
    var q, b, stk := st.parent[h1], st.parent[h2], Killed(st, d);
    assert c in st.kids[d] && h1 in st.refs[c] && h2 in st.refs[c];
    ParentOfChild(st, root, d, c);
    HandleOfRefs(st, root, c, h1);
    HandleOfRefs(st, root, c, h2);
    HandleParent(st, root, h1);
    HandleParent(st, root, h2);
    KilledShape(st, root, d);
    KilledAt(st, root, d, h1);
    KilledAt(st, root, d, h2);
    KilledAt(st, root, d, c);
    KilledAt(st, root, d, q);
    KilledAt(st, root, d, b);
    KilledAt(st, root, d, d);
    RootParent(st, root);
    KilledAt(st, root, d, root);
    RootTop(st, root);
    NullIsNone(stk, root);
    ParentsOfKids(stk, root);
    ThreeUp(stk, h1, q, c);
    OverRoot(stk, root, h2, b, c);
    assert Leading(stk, c, [h1, h2]) == 1 by { LeadingTwo(stk, c, h1, h2); }
  }

  lemma ThreeUp(st: State, h: nat, q: nat, c: nat)
    requires NULL !in st.parent && h in st.parent && st.parent[h] == q && q in st.parent && st.parent[q] == c
    requires c in st.parent
    ensures Below(st, h, c)
  {
    assert Meets(st, c, c, TALLOC_MAX_DEPTH - 2);
    assert Meets(st, q, c, TALLOC_MAX_DEPTH - 1);
  }

  lemma OverRoot(st: State, root: nat, h: nat, b: nat, c: nat)
    requires NULL !in st.parent && h in st.parent && st.parent[h] == b && b in st.parent && (b == root || st.parent[b] == root)
    requires root in st.parent && st.parent[root] == NULL && c !in {h, b, root}
    ensures !Below(st, h, c)
  {
    assert !Meets(st, root, c, TALLOC_MAX_DEPTH - 2) && !Meets(st, root, c, TALLOC_MAX_DEPTH - 1);
    assert !Meets(st, b, c, TALLOC_MAX_DEPTH - 1);
  }

  lemma LeadingTwo(st: State, c: nat, h1: nat, h2: nat)
    requires Below(st, h1, c) && !Below(st, h2, c)
    ensures Leading(st, c, [h1, h2]) == 1
  {
    assert [h1, h2][1..] == [h2];
  }

  /** A chunk c is the only child of d, and its only reference hangs off the null context; d is the first child of a.  Freeing
  d hands the chunk to a: the null context has lost it, to one that never owned it. */
  lemma NullReferenceMisplaced(st: State, root: nat, a: nat, d: nat, c: nat, h: nat)
    requires Shape(st, root) && st.dying == {} && Proper(st, root, d) && Proper(st, root, c) && c in st.refs
    requires st.refs[c] == [h]
    requires st.kids[d] == [c] && d in st.refs && st.refs[d] == []
    requires d in st.parent && st.parent[d] == a && a in st.kids && st.kids[a] != [] && st.kids[a][0] == d
    requires a != root && a != c
    requires h in st.parent && st.parent[h] == root
    ensures HasParent(st, d) && st.kids[st.parent[d]] != [] && LoneKept(Killed(st, d), root, d)
    ensures var st' := Deleted(HandedOver(Killed(st, d), root, d), d);
            c in st'.kids && Owns(st, root, c) && !Owns(st', root, c) && !Owns(st, a, c) && Owns(st', a, c)
  {
    hide Tree, References, Below, Dropped, Leading, Owns, HandedOver, Killed, HandsOver, LoneKept, FirstOwnerOf, HandedTo;
    ListedHasParent(st, root, d);
    var stk := Killed(st, d);
    NullCase(st, root, a, d, c, h);
    LoneChildLeaves(stk, root, d);
    var st2 := HandedOver(stk, root, d);
    AbandonedOwners(stk, root, d, 0);
    DeletedOwners(st2, root, d, root, c);
    DeletedOwners(st2, root, d, a, c);
    ParentOwns(st2, root, c);
  }

  lemma ParentOwns(st: State, root: nat, c: nat)
    requires Shape(st, root) && c in st.kids
    ensures c in st.parent && Owns(st, st.parent[c], c)
  {
    InRefs(st, root, c);
  }

  lemma NullCase(st: State, root: nat, a: nat, d: nat, c: nat, h: nat)
    requires Shape(st, root) && st.dying == {} && Proper(st, root, d) && Proper(st, root, c) && c in st.refs
    requires st.refs[c] == [h]
    requires st.kids[d] == [c] && d in st.refs && st.refs[d] == []
    requires d in st.parent && st.parent[d] == a && a in st.kids && st.kids[a] != [] && st.kids[a][0] == d
    requires a != root && a != c
    requires h in st.parent && st.parent[h] == root
    ensures HasParent(st, d) && st.kids[st.parent[d]] != []
    ensures var stk := Killed(st, d);
            && Shape(stk, root) && d in stk.dying && d in stk.kids && stk.kids[d] == [c] && HandsOver(stk, d) && d != c && a != d
            && c in stk.refs && stk.refs[c] == [h] && !Below(stk, h, c) && h in stk.parent && stk.parent[h] == root && root != d
            && FirstOwnerOf(stk, root, c) == root && HandedTo(stk, root, d, root) == a && a !in stk.handles
            && !Keeps(stk, root, d, root) && Owns(st, root, c) && !Owns(st, a, c) && c in stk.kids && c !in stk.handles && d !in stk.handles
  {
    hide Tree, References, Below, Leading;
    ListedHasParent(st, root, d);
    var stk := Killed(st, d);
    assert c in st.kids[d] && h in st.refs[c];
    ParentOfChild(st, root, d, c);
    HandleOfRefs(st, root, c, h);
    KilledShape(st, root, d);
    KilledAt(st, root, d, h);
    KilledAt(st, root, d, c);
    KilledAt(st, root, d, d);
    RootParent(st, root);
    KilledAt(st, root, d, root);
    RootTop(st, root);
    NeverHandle(st, root, d);
    NullIsNone(stk, root);
    ParentsOfKids(stk, root);
    ListedHasParent(st, root, d);
    ParentOfChild(st, root, a, d);
    OverRoot(stk, root, h, root, c);
    assert Leading(stk, c, [h]) == 0 by { LeadingOne(stk, c, h); }
  }

  lemma LeadingOne(st: State, c: nat, h: nat)
    requires !Below(st, h, c)
    ensures Leading(st, c, [h]) == 0
  {
  }
}
