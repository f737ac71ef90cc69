/** The sibling lists of talloc (talloc/talloc.c): doubly linked, and only the first child knows its parent. */
module TallocLists {
  import opened Basics
  import opened TallocOwners

  /** The links in a chunk header. */
  datatype Links = Links(next: nat, prev: nat, parent: nat, child: nat)

  type Headers = map<nat, Links>
  type Kids = map<nat, seq<nat>>

  ghost predicate NodeOk(mem: Headers, p: nat, s: seq<nat>, i: nat)
    requires i < |s|
  {
    && s[i] in mem && s[i] != NULL
    && mem[s[i]].prev == (if i == 0 then NULL else s[i - 1])
    && mem[s[i]].next == (if i + 1 == |s| then NULL else s[i + 1])
    && mem[s[i]].parent == (if i == 0 then p else NULL)
  }

  ghost predicate HeadOk(mem: Headers, kids: Kids, p: nat)
    requires p in kids
  {
    p in mem && p != NULL && mem[p].child == if kids[p] == [] then NULL else kids[p][0]
  }

  /** A chunk is in one list at most, once. */
  ghost predicate Once(kids: Kids) {
    forall p, q, i, j :: p in kids && q in kids && 0 <= i < |kids[p]| && 0 <= j < |kids[q]| && kids[p][i] == kids[q][j] ==>
      p == q && i == j
  }

  /** The links represent these lists of children. */
  ghost predicate Represents(mem: Headers, kids: Kids) {
    && (forall p :: p in kids ==> HeadOk(mem, kids, p))
    && (forall p, i :: p in kids && 0 <= i < |kids[p]| ==> NodeOk(mem, p, kids[p], i))
    && Once(kids)
  }

  /** The chunk is in no list: the null context, or a chunk on its way out. */
  ghost predicate Loose(kids: Kids, c: nat) {
    forall p :: p in kids ==> c !in kids[p]
  }

  // ----- Lists -----

  lemma {:induction false} WithoutAt(s: seq<nat>, i: nat)
    requires i < |s| && forall j, k :: 0 <= j < k < |s| ==> s[j] != s[k]
    ensures Without(s, s[i]) == s[..i] + s[i + 1..]
  {
    if i == 0 {
      WithoutNone(s[1..], s[0]);
    } else {
      WithoutAt(s[1..], i - 1);
      assert s[..i] + s[i + 1..] == [s[0]] + (s[1..][..i - 1] + s[1..][i..]);
    }
  }

  lemma OnceIn(kids: Kids, p: nat)
    requires Once(kids) && p in kids
    ensures forall j, k :: 0 <= j < k < |kids[p]| ==> kids[p][j] != kids[p][k]
  {
  }

  /** The links say who the parent of a chunk that is in no list was. */
  ghost predicate Alone(mem: Headers, st: State, x: nat) {
    x in mem && x in st.parent && mem[x].prev == NULL && mem[x].parent == st.parent[x]
  }

  /** The links represent a state: its lists, and what is left in the headers of chunks that are in no list. */
  ghost predicate Linked(mem: Headers, st: State, root: nat) {
    && Represents(mem, st.kids) && mem.Keys == st.kids.Keys
    && (forall x :: x == root || x in st.dying ==> Alone(mem, st, x))
  }

  /** What such chunks have in their headers stays. */
  ghost predicate KeepsLoose(mem: Headers, mem': Headers, kids: Kids, c: nat) {
    forall x :: x in mem && x in mem' && Loose(kids, x) && x != c && x != NULL ==> mem'[x].prev == mem[x].prev && mem'[x].parent == mem[x].parent
  }

  lemma LooseOnes(st: State, root: nat)
    requires Tree(st, root)
    ensures forall x :: x == root || x in st.dying ==> x in st.kids && x != NULL && Loose(st.kids, x)
  {
    forall x, p | (x == root || x in st.dying) && p in st.kids ensures x !in st.kids[p] {
      assert x in st.kids[p] ==> Child(st, root, p, x);
    }
  }

  /** Chunks that are in no list notice nothing. */
  lemma StillLinked(mem: Headers, mem': Headers, st: State, st': State, root: nat, c: nat)
    requires Linked(mem, st, root) && Tree(st, root) && Represents(mem', st'.kids) && mem'.Keys == st'.kids.Keys
    requires KeepsLoose(mem, mem', st.kids, c)
    requires forall x :: (x == root || x in st'.dying) && x != c ==> (x == root || x in st.dying) && x in mem' && SameParent(st, st', x)
    requires c == root || c in st'.dying ==> Alone(mem', st', c)
    ensures Linked(mem', st', root)
  {
    hide Represents, Tree, Loose;
    LooseOnes(st, root);
    forall x | (x == root || x in st'.dying) && x != c ensures Alone(mem', st', x) {
      assert Alone(mem, st, x);
    }
  }

  lemma HeadIsOk(mem: Headers, kids: Kids, p: nat)
    requires Represents(mem, kids) && p in kids
    ensures HeadOk(mem, kids, p)
    ensures kids[p] != [] ==> NodeOk(mem, p, kids[p], 0)
  {
  }

  lemma OnceOf(mem: Headers, kids: Kids)
    requires Represents(mem, kids)
    ensures Once(kids)
  {
  }

  /** The links once a chunk was hooked into the front. */
  function FirstPut(mem: Headers, p: nat, c: nat): Headers
    requires c in mem && p in mem && (mem[p].child != NULL ==> mem[p].child in mem)
  {
    var f := mem[p].child;
    var m1 := mem[c := mem[c].(next := f, prev := NULL, parent := p)];
    var m2 := if f != NULL then m1[f := m1[f].(prev := c, parent := NULL)] else m1;
    m2[p := m2[p].(child := c)]
  }

  lemma FirstIn(mem: Headers, kids: Kids, p: nat, c: nat)
    requires Represents(mem, kids) && Loose(kids, c) && p in kids && c in mem && c != p && c != NULL
    ensures p in mem && (mem[p].child != NULL ==> mem[p].child in mem && mem[p].child != c && mem[p].child != NULL)
    ensures Represents(FirstPut(mem, p, c), kids[p := [c] + kids[p]])
  {
    HeadIsOk(mem, kids, p);
    assert kids[p] != [] ==> kids[p][0] in kids[p];
    var kids', mem' := kids[p := [c] + kids[p]], FirstPut(mem, p, c);
    forall q | q in kids' ensures HeadOk(mem', kids', q) {
      assert HeadOk(mem, kids, q);
    }
    OnceLonger(kids, p, c);
    hide NodeOk, HeadOk, FirstPut, Once;
    forall q, j | q in kids' && 0 <= j < |kids'[q]| ensures NodeOk(mem', q, kids'[q], j) {
      PutNode(mem, kids, p, c, q, j);
    }
  }

  lemma PutNode(mem: Headers, kids: Kids, p: nat, c: nat, q: nat, j: nat)
    requires Represents(mem, kids) && Loose(kids, c) && p in kids && c in mem && c != p && c != NULL && q in kids
    requires p in mem && (mem[p].child != NULL ==> mem[p].child in mem && mem[p].child != c)
    requires j < |kids[p := [c] + kids[p]][q]|
    ensures NodeOk(FirstPut(mem, p, c), q, kids[p := [c] + kids[p]][q], j)
  {
    HeadIsOk(mem, kids, p);
    if q == p {
      assert j > 0 ==> NodeOk(mem, p, kids[p], j - 1) && kids[p][j - 1] in kids[p];
      OnceIn(kids, p);
    } else {
      assert NodeOk(mem, q, kids[q], j) && kids[q][j] in kids[q];
      assert kids[p] != [] ==> kids[q][j] != kids[p][0];
    }
  }

  lemma OnceLonger(kids: Kids, p: nat, c: nat)
    requires Once(kids) && Loose(kids, c) && p in kids
    ensures Once(kids[p := [c] + kids[p]])
  {
    var kids' := kids[p := [c] + kids[p]];
    forall q, r, i, j | q in kids' && r in kids' && 0 <= i < |kids'[q]| && 0 <= j < |kids'[r]| && kids'[q][i] == kids'[r][j]
      ensures q == r && i == j
    {
      assert q != p || i > 0 ==> kids'[q][i] == kids[q][if q == p then i - 1 else i] && kids'[q][i] in kids[q];
      assert r != p || j > 0 ==> kids'[r][j] == kids[r][if r == p then j - 1 else j] && kids'[r][j] in kids[r];
    }
  }

  /** Stealing the first child of p to p changes nothing. */
  lemma FirstAgain(st: State, c: nat)
    requires HasParent(st, c) && st.kids[st.parent[c]][0] == c && Once(st.kids)
    ensures Stolen(st, st.parent[c], c) == st
  {
    var p := st.parent[c];
    OnceIn(st.kids, p);
    WithoutAt(st.kids[p], 0);
    assert st.kids[p][..0] + st.kids[p][1..] == st.kids[p][1..] && [c] + st.kids[p][1..] == st.kids[p];
    assert st.kids[p := st.kids[p]] == st.kids && st.parent[c := p] == st.parent;
  }

  // ----- A chunk that comes and goes -----

  lemma NewChunk(mem: Headers, kids: Kids, c: nat)
    requires Represents(mem, kids) && c !in mem && c != NULL
    ensures var mem', kids' := mem[c := Links(NULL, NULL, NULL, NULL)], kids[c := []];
            Represents(mem', kids') && Loose(kids', c) && KeepsLoose(mem, mem', kids, c)
  {
    KidsMapped(mem, kids);
    var mem', kids' := mem[c := Links(NULL, NULL, NULL, NULL)], kids[c := []];
    forall p, i | p in kids && 0 <= i < |kids[p]| ensures kids[p][i] in mem {
      assert NodeOk(mem, p, kids[p], i);
    }
    forall p | p in kids' ensures HeadOk(mem', kids', p) {
      assert p != c ==> HeadOk(mem, kids, p);
    }
    forall p, i | p in kids' && 0 <= i < |kids'[p]| ensures NodeOk(mem', p, kids'[p], i) {
      assert NodeOk(mem, p, kids[p], i);
    }
  }

  lemma OldChunk(mem: Headers, kids: Kids, c: nat)
    requires Represents(mem, kids) && c in kids && Loose(kids, c) && kids[c] == []
    ensures Represents(mem - {c}, kids - {c}) && KeepsLoose(mem, mem - {c}, kids, c)
  {
    var mem', kids' := mem - {c}, kids - {c};
    forall p | p in kids' ensures HeadOk(mem', kids', p) {
      assert HeadOk(mem, kids, p);
    }
    forall p, i | p in kids' && 0 <= i < |kids'[p]| ensures NodeOk(mem', p, kids'[p], i) {
      assert NodeOk(mem, p, kids[p], i) && kids[p][i] in kids[p];
    }
  }

  // ----- A chunk that moves -----

  /** The lists once the i-th child of p lies at c'. */
  function Moved(kids: Kids, p: nat, i: nat, c': nat): Kids
    requires p in kids && i < |kids[p]|
  {
    var c := kids[p][i];
    var siblings: seq<nat> := kids[p][i := c'];
    var kids1 := kids[p := siblings];
    if c in kids1 then kids1[c' := kids1[c]] - {c} else kids1
  }

  /** The links of the neighbours follow. */
  function MovedHeaders(mem: Headers, c: nat, c': nat): Headers
    requires c in mem && c' !in mem
    requires var tc := mem[c]; forall x :: x in {tc.parent, tc.child, tc.prev, tc.next} && x != NULL ==> x in mem && x != c
  {
    var tc := mem[c];
    var m0 := mem[c' := tc] - {c};
    var m1 := if tc.parent != NULL then m0[tc.parent := m0[tc.parent].(child := c')] else m0;
    var m2 := if tc.child != NULL then m1[tc.child := m1[tc.child].(parent := c')] else m1;
    var m3 := if tc.prev != NULL then m2[tc.prev := m2[tc.prev].(next := c')] else m2;
    if tc.next != NULL then m3[tc.next := m3[tc.next].(prev := c')] else m3
  }

  /** Header by header. */
  lemma MovedHeaderAt(mem: Headers, c: nat, c': nat, x: nat)
    requires c in mem && c' !in mem && c' != NULL && NULL != x
    requires var tc := mem[c]; forall y :: y in {tc.parent, tc.child, tc.prev, tc.next} && y != NULL ==> y in mem && y != c
    ensures var tc, mem' := mem[c], MovedHeaders(mem, c, c');
            && (x in mem && x != c ==>
                  && x in mem'
                  && mem'[x] == Links(if x == tc.prev then c' else mem[x].next, if x == tc.next then c' else mem[x].prev,
                                      if x == tc.child then c' else mem[x].parent, if x == tc.parent then c' else mem[x].child))
            && c' in mem' && mem'[c'] == tc
  {
  }

  lemma MovedNeighbours(mem: Headers, kids: Kids, p: nat, i: nat, c: nat)
    requires Represents(mem, kids) && p in kids && i < |kids[p]| && kids[p][i] == c && p !in kids[p] && c in kids
    requires c !in kids[c]
    ensures c in mem
    ensures var tc := mem[c]; forall x :: x in {tc.parent, tc.child, tc.prev, tc.next} && x != NULL ==> x in mem && x != c
    ensures NodeOk(mem, p, kids[p], i) && HeadOk(mem, kids, c) && HeadOk(mem, kids, p)
  {
    InList(mem, kids, p, i);
    HeadIsOk(mem, kids, c);
    assert kids[c] != [] ==> kids[c][0] in kids[c];
  }

  lemma KidsMapped(mem: Headers, kids: Kids)
    requires Represents(mem, kids)
    ensures kids.Keys <= mem.Keys
  {
    assert forall p :: p in kids ==> HeadOk(mem, kids, p);
  }

  /** The conditions of a move. */
  ghost predicate Movable(mem: Headers, kids: Kids, p: nat, i: nat, c': nat) {
    && Represents(mem, kids) && p in kids && i < |kids[p]| && p !in kids[p]
    && kids[p][i] in kids && kids[p][i] !in kids[kids[p][i]] && c' !in mem && c' != NULL && c' !in kids
    && var c := kids[p][i];
       c in mem && forall x :: x in {mem[c].parent, mem[c].child, mem[c].prev, mem[c].next} && x != NULL ==> x in mem && x != c
  }

  lemma MovedHead(mem: Headers, kids: Kids, p: nat, i: nat, c': nat, q: nat)
    requires Movable(mem, kids, p, i, c') && q in Moved(kids, p, i, c')
    ensures HeadOk(MovedHeaders(mem, kids[p][i], c'), Moved(kids, p, i, c'), q)
  {
    var c := kids[p][i];
    var q0 := if q == c' then c else q;
    hide Represents, MovedHeaders, Moved, Once;
    assert c in kids[p];
    MovedAt(kids, p, i, c', q);
    HeadIsOk(mem, kids, q0);
    HeadIsOk(mem, kids, p);
    First(mem, kids, p, i);
    MovedHeaderAt(mem, c, c', q0);
    OnceIn(kids, p) by { OnceOf(mem, kids); }
  }

  /** What the lists hold after a move. */
  lemma MovedAt(kids: Kids, p: nat, i: nat, c': nat, q: nat)
    requires p in kids && i < |kids[p]| && kids[p][i] in kids && c' !in kids && kids[p][i] != p && q in Moved(kids, p, i, c')
    ensures var q0 := if q == c' then kids[p][i] else q;
            && q0 in kids && q != kids[p][i]
            && Moved(kids, p, i, c')[q] == if q0 == p then kids[p][i := c'] else kids[q0]
  {
  }

  lemma MovedOnce(mem: Headers, kids: Kids, p: nat, i: nat, c': nat)
    requires Movable(mem, kids, p, i, c')
    ensures Once(Moved(kids, p, i, c'))
  {
    var kids' := Moved(kids, p, i, c');
    forall q, j | q in kids && 0 <= j < |kids[q]| ensures kids[q][j] != c' {
      assert NodeOk(mem, q, kids[q], j);
    }
    assert kids[p][i] in kids[p];
    hide Represents, NodeOk, Moved;
    OnceOf(mem, kids) by { MovableRepresents(mem, kids, p, i, c'); }
    forall q, r, j, k | q in kids' && r in kids' && 0 <= j < |kids'[q]| && 0 <= k < |kids'[r]| && kids'[q][j] == kids'[r][k]
      ensures q == r && j == k
    {
      MovedAt(kids, p, i, c', q);
      MovedAt(kids, p, i, c', r);
    }
  }

  lemma MovableRepresents(mem: Headers, kids: Kids, p: nat, i: nat, c': nat)
    requires Movable(mem, kids, p, i, c')
    ensures Represents(mem, kids)
  {
  }

  lemma MovedNode(mem: Headers, kids: Kids, p: nat, i: nat, c': nat, q: nat, j: nat)
    requires Movable(mem, kids, p, i, c') && q in Moved(kids, p, i, c') && j < |Moved(kids, p, i, c')[q]|
    ensures NodeOk(MovedHeaders(mem, kids[p][i], c'), q, Moved(kids, p, i, c')[q], j)
  {
    hide Represents, Once, Moved, MovedHeaders;
    var c := kids[p][i];
    var q0 := if q == c' then c else q;
    assert c in kids[p];
    MovedAt(kids, p, i, c', q);
    Node(mem, kids, q0, j);
    var x := kids[q0][j];
    MovedHeaderAt(mem, c, c', x);
    InList(mem, kids, p, i);
    HeadIsOk(mem, kids, c);
    OnceOf(mem, kids);
    OnceIn(kids, p);
    if q0 == p {
      SiblingMoves(kids, p, i, c', j);
      assert kids[c] != [] ==> kids[c][0] != x by { Elsewhere(kids, p, c, j); }
    } else {
      OtherNode(mem, kids, p, i, q0, j);
      if q0 == c {
        OnceIn(kids, c);
      } else {
        assert kids[c] != [] ==> kids[c][0] != x by { Elsewhere(kids, q0, c, j); }
      }
    }
  }

  lemma Elsewhere(kids: Kids, q: nat, c: nat, j: nat)
    requires Once(kids) && q in kids && c in kids && q != c && j < |kids[q]|
    ensures kids[c] != [] ==> kids[c][0] != kids[q][j]
  {
  }

  lemma SiblingMoves(kids: Kids, p: nat, i: nat, c': nat, j: nat)
    requires p in kids && i < |kids[p]| && j < |kids[p]|
    requires forall j, k :: 0 <= j < k < |kids[p]| ==> kids[p][j] != kids[p][k]
    ensures var s, s' := kids[p], kids[p][i := c'];
            && s'[j] == (if j == i then c' else s[j])
            && (j > 0 ==> s'[j - 1] == if s[j - 1] == s[i] then c' else s[j - 1])
            && (j + 1 < |s| ==> s'[j + 1] == if s[j + 1] == s[i] then c' else s[j + 1])
            && (i > 0 && s[j] == s[i - 1] ==> j + 1 == i) && (i + 1 < |s| && s[j] == s[i + 1] ==> j == i + 1)
  {
  }

  lemma MovedLinks(mem: Headers, kids: Kids, p: nat, i: nat, c': nat)
    requires Represents(mem, kids) && p in kids && i < |kids[p]| && p !in kids[p]
    requires kids[p][i] in kids && kids[p][i] !in kids[kids[p][i]] && c' !in mem && c' != NULL
    ensures var c := kids[p][i];
            && c in mem
            && (var tc := mem[c]; forall x :: x in {tc.parent, tc.child, tc.prev, tc.next} && x != NULL ==> x in mem && x != c)
            && Represents(MovedHeaders(mem, c, c'), Moved(kids, p, i, c'))
  {
    var c := kids[p][i];
    MovedNeighbours(mem, kids, p, i, c);
    var mem', kids' := MovedHeaders(mem, c, c'), Moved(kids, p, i, c');
    KidsMapped(mem, kids);
    forall q | q in kids' ensures HeadOk(mem', kids', q) {
      MovedHead(mem, kids, p, i, c', q);
    }
    MovedOnce(mem, kids, p, i, c');
    hide NodeOk, HeadOk, MovedHeaders, Moved, Once;
    forall q, j | q in kids' && 0 <= j < |kids'[q]| ensures NodeOk(mem', q, kids'[q], j) {
      MovedNode(mem, kids, p, i, c', q, j);
    }
  }

  lemma Node(mem: Headers, kids: Kids, p: nat, i: nat)
    requires Represents(mem, kids) && p in kids && i < |kids[p]|
    ensures NodeOk(mem, p, kids[p], i)
  {
  }

  /** Only the first child has nobody before it. */
  lemma First(mem: Headers, kids: Kids, p: nat, i: nat)
    requires Represents(mem, kids) && p in kids && i < |kids[p]|
    ensures NodeOk(mem, p, kids[p], i) && (mem[kids[p][i]].prev == NULL <==> i == 0)
  {
    assert NodeOk(mem, p, kids[p], i);
    assert i > 0 ==> NodeOk(mem, p, kids[p], i - 1);
  }

  lemma InList(mem: Headers, kids: Kids, p: nat, i: nat)
    requires Represents(mem, kids) && p in kids && i < |kids[p]| && p !in kids[p]
    ensures HeadOk(mem, kids, p) && NodeOk(mem, p, kids[p], i)
    ensures i > 0 ==> NodeOk(mem, p, kids[p], i - 1) && kids[p][i - 1] != kids[p][i] && kids[p][0] != kids[p][i]
    ensures i + 1 < |kids[p]| ==> NodeOk(mem, p, kids[p], i + 1) && kids[p][i + 1] != kids[p][i]
    ensures 0 < i && i + 1 < |kids[p]| ==> kids[p][i - 1] != kids[p][i + 1]
  {
    OnceIn(kids, p);
  }

  /** The links once the first child of p is out. */
  function FirstTaken(mem: Headers, c: nat): Headers
    requires c in mem && mem[c].parent in mem && (mem[c].next != NULL ==> mem[c].next in mem)
  {
    var p, n := mem[c].parent, mem[c].next;
    var m1 := mem[p := mem[p].(child := n)];
    var m2 := if n != NULL then m1[n := m1[n].(prev := NULL, parent := p)] else m1;
    m2[c := m2[c].(next := NULL, prev := NULL)]
  }

  /** The links once a later child is out. */
  function LaterTaken(mem: Headers, c: nat): Headers
    requires c in mem && mem[c].prev in mem && (mem[c].next != NULL ==> mem[c].next in mem)
  {
    var v, n := mem[c].prev, mem[c].next;
    var m1 := mem[v := mem[v].(next := n)];
    var m2 := if n != NULL then m1[n := m1[n].(prev := v)] else m1;
    m2[c := m2[c].(next := NULL, prev := NULL)]
  }

  lemma FirstOut(mem: Headers, kids: Kids, p: nat, c: nat)
    requires Represents(mem, kids) && p in kids && p !in kids[p] && kids[p] != [] && kids[p][0] == c
    ensures c in mem && mem[c].parent in mem && (mem[c].next != NULL ==> mem[c].next in mem)
    ensures Represents(FirstTaken(mem, c), kids[p := Without(kids[p], c)])
    ensures Loose(kids[p := Without(kids[p], c)], c)
  {
    InList(mem, kids, p, 0);
    WithoutAt(kids[p], 0) by { OnceIn(kids, p); }
    assert kids[p][..0] + kids[p][1..] == kids[p][1..];
    var kids', mem' := kids[p := kids[p][1..]], FirstTaken(mem, c);
    OnceShorter(kids, p, 0);
    hide NodeOk, HeadOk, FirstTaken, Once;
    forall q | q in kids' ensures HeadOk(mem', kids', q) {
      HeadStays(mem, kids, p, q);
    }
    forall q, j | q in kids' && 0 <= j < |kids'[q]| ensures NodeOk(mem', q, kids'[q], j) {
      if q == p {
        FirstNode(mem, kids, p, j);
      } else {
        OtherNodeStays(mem, kids, p, q, j);
      }
    }
  }

  lemma HeadStays(mem: Headers, kids: Kids, p: nat, q: nat)
    requires Represents(mem, kids) && p in kids && p !in kids[p] && kids[p] != [] && q in kids
    requires var c := kids[p][0]; c in mem && mem[c].parent in mem && (mem[c].next != NULL ==> mem[c].next in mem)
    ensures HeadOk(FirstTaken(mem, kids[p][0]), kids[p := kids[p][1..]], q)
  {
    Node(mem, kids, p, 0);
    HeadIsOk(mem, kids, p);
    HeadIsOk(mem, kids, q);
    hide Represents;
  }

  lemma OtherNodeStays(mem: Headers, kids: Kids, p: nat, q: nat, j: nat)
    requires Represents(mem, kids) && p in kids && q in kids && q != p && kids[p] != [] && j < |kids[q]|
    requires var c := kids[p][0]; c in mem && mem[c].parent in mem && (mem[c].next != NULL ==> mem[c].next in mem)
    ensures NodeOk(FirstTaken(mem, kids[p][0]), q, kids[q], j)
  {
    OtherNode(mem, kids, p, 0, q, j);
    Node(mem, kids, p, 0);
    hide Represents;
  }

  lemma FirstNode(mem: Headers, kids: Kids, p: nat, j: nat)
    requires Represents(mem, kids) && p in kids && p !in kids[p] && j + 1 < |kids[p]|
    requires var c := kids[p][0]; c in mem && mem[c].parent in mem && (mem[c].next != NULL ==> mem[c].next in mem)
    ensures NodeOk(FirstTaken(mem, kids[p][0]), p, kids[p][1..], j)
  {
    var s := kids[p];
    OnceIn(kids, p);
    Node(mem, kids, p, 0);
    Node(mem, kids, p, 1);
    Node(mem, kids, p, j + 1);
    hide Represents;
    assert s[1..][j] == s[j + 1] && (j > 0 ==> s[1..][j - 1] == s[j]) && (j + 2 < |s| ==> s[1..][j + 1] == s[j + 2]);
  }

  /** Nodes of other lists are none of those whose links change. */
  lemma OtherNode(mem: Headers, kids: Kids, p: nat, i: nat, q: nat, j: nat)
    requires Represents(mem, kids) && p in kids && q in kids && q != p && i < |kids[p]| && j < |kids[q]|
    ensures NodeOk(mem, q, kids[q], j)
    ensures kids[q][j] != kids[p][i]
    ensures i > 0 ==> NodeOk(mem, p, kids[p], i - 1) && kids[q][j] != kids[p][i - 1]
    ensures i + 1 < |kids[p]| ==> NodeOk(mem, p, kids[p], i + 1) && kids[q][j] != kids[p][i + 1]
  {
  }

  lemma LaterOut(mem: Headers, kids: Kids, p: nat, i: nat)
    requires Represents(mem, kids) && p in kids && p !in kids[p] && 0 < i < |kids[p]|
    ensures var c := kids[p][i];
            && c in mem && mem[c].prev in mem && (mem[c].next != NULL ==> mem[c].next in mem)
            && Represents(LaterTaken(mem, c), kids[p := Without(kids[p], c)])
            && Loose(kids[p := Without(kids[p], c)], c)
  {
    var s, c := kids[p], kids[p][i];
    InList(mem, kids, p, i);
    WithoutAt(s, i) by { OnceIn(kids, p); }
    var s' := s[..i] + s[i + 1..];
    var kids', mem' := kids[p := s'], LaterTaken(mem, c);
    OnceShorter(kids, p, i);
    forall q | q in kids' ensures HeadOk(mem', kids', q) {
      assert HeadOk(mem, kids, q);
    }
    forall q, j | q in kids' && 0 <= j < |kids'[q]| ensures NodeOk(mem', q, kids'[q], j) {
      if q == p {
        LaterNode(mem, kids, p, i, j);
      } else {
        OtherNode(mem, kids, p, i, q, j);
      }
    }
  }

  lemma LaterNode(mem: Headers, kids: Kids, p: nat, i: nat, j: nat)
    requires Represents(mem, kids) && p in kids && p !in kids[p] && 0 < i < |kids[p]| && j + 1 < |kids[p]|
    requires var c := kids[p][i]; c in mem && mem[c].prev in mem && (mem[c].next != NULL ==> mem[c].next in mem)
    ensures NodeOk(LaterTaken(mem, kids[p][i]), p, kids[p][..i] + kids[p][i + 1..], j)
  {
    var s := kids[p];
    OnceIn(kids, p);
    var k := if j < i then j else j + 1;
    assert NodeOk(mem, p, s, i) && NodeOk(mem, p, s, k);
    var s' := s[..i] + s[i + 1..];
    assert s'[j] == s[k];
    assert j > 0 ==> s'[j - 1] == s[if j - 1 < i then j - 1 else j];
    assert j + 1 < |s'| ==> s'[j + 1] == s[if j + 1 < i then j + 1 else j + 2];
  }

  lemma OnceShorter(kids: Kids, p: nat, i: nat)
    requires Once(kids) && p in kids && i < |kids[p]|
    ensures Once(kids[p := kids[p][..i] + kids[p][i + 1..]])
    ensures Loose(kids[p := kids[p][..i] + kids[p][i + 1..]], kids[p][i])
  {
    var s := kids[p];
    var s' := s[..i] + s[i + 1..];
    var kids' := kids[p := s'];
    assert forall j :: 0 <= j < |s'| ==> s'[j] == s[if j < i then j else j + 1];
    forall q, j | q in kids' && 0 <= j < |kids'[q]| ensures kids'[q][j] != s[i] {
    }
  }

  lemma FirstTakenKeeps(mem: Headers, kids: Kids, p: nat, c: nat)
    requires Represents(mem, kids) && p in kids && p !in kids[p] && kids[p] != [] && kids[p][0] == c
    ensures c in mem && mem[c].parent in mem && (mem[c].next != NULL ==> mem[c].next in mem)
    ensures KeepsLoose(mem, FirstTaken(mem, c), kids, c)
    ensures var mem' := FirstTaken(mem, c); c in mem' && mem'[c].prev == NULL && mem'[c].parent == p && mem'.Keys == mem.Keys
  {
    InList(mem, kids, p, 0);
    hide Represents;
    assert |kids[p]| > 1 ==> kids[p][1] in kids[p];
  }

  lemma LaterTakenKeeps(mem: Headers, kids: Kids, p: nat, i: nat)
    requires Represents(mem, kids) && p in kids && p !in kids[p] && 0 < i < |kids[p]|
    ensures var c := kids[p][i]; c in mem && mem[c].prev in mem && (mem[c].next != NULL ==> mem[c].next in mem)
    ensures KeepsLoose(mem, LaterTaken(mem, kids[p][i]), kids, kids[p][i])
    ensures var c := kids[p][i]; var mem' := LaterTaken(mem, c); c in mem' && mem'[c].prev == NULL && mem'[c].parent == NULL && mem'.Keys == mem.Keys
  {
    InList(mem, kids, p, i);
    hide Represents;
    assert kids[p][i - 1] in kids[p] && (i + 1 < |kids[p]| ==> kids[p][i + 1] in kids[p]);
  }

  lemma FirstPutKeeps(mem: Headers, kids: Kids, p: nat, c: nat)
    requires Represents(mem, kids) && Loose(kids, c) && p in kids && c in mem && c != p && c != NULL
    ensures p in mem && (mem[p].child != NULL ==> mem[p].child in mem)
    ensures KeepsLoose(mem, FirstPut(mem, p, c), kids, c) && FirstPut(mem, p, c).Keys == mem.Keys
  {
    HeadIsOk(mem, kids, p);
    hide Represents;
    assert kids[p] != [] ==> kids[p][0] in kids[p];
  }

  lemma MovedKeeps(mem: Headers, kids: Kids, p: nat, i: nat, c': nat)
    requires Represents(mem, kids) && p in kids && i < |kids[p]| && p !in kids[p]
    requires kids[p][i] in kids && kids[p][i] !in kids[kids[p][i]] && c' !in mem && c' != NULL
    ensures var c := kids[p][i];
            && c in mem
            && (var tc := mem[c]; forall x :: x in {tc.parent, tc.child, tc.prev, tc.next} && x != NULL ==> x in mem && x != c)
            && KeepsLoose(mem, MovedHeaders(mem, c, c'), kids, c') && MovedHeaders(mem, c, c').Keys == mem.Keys - {c} + {c'}
  {
    var c := kids[p][i];
    MovedNeighbours(mem, kids, p, i, c);
    var tc := mem[c];
    assert c in kids[p] && (i + 1 < |kids[p]| ==> kids[p][i + 1] in kids[p]) && (kids[c] != [] ==> kids[c][0] in kids[c]);
    MovedKeys(mem, c, c');
    hide Represents, MovedHeaders;
    forall x | x in mem && x in MovedHeaders(mem, c, c') && Loose(kids, x) && x != c' && x != NULL
      ensures MovedHeaders(mem, c, c')[x].prev == mem[x].prev && MovedHeaders(mem, c, c')[x].parent == mem[x].parent
    {
      assert x != c && x != tc.next && x != tc.child;
      MovedHeaderAt(mem, c, c', x);
    }
  }

  lemma MovedKeys(mem: Headers, c: nat, c': nat)
    requires c in mem && c' !in mem
    requires var tc := mem[c]; forall x :: x in {tc.parent, tc.child, tc.prev, tc.next} && x != NULL ==> x in mem && x != c
    ensures MovedHeaders(mem, c, c').Keys == mem.Keys - {c} + {c'}
  {
  }

  // ----- A state with a chunk at another address -----

  function To(c: nat, c': nat, x: nat): nat {
    if x == c then c' else x
  }

  function Renamed(c: nat, c': nat, s: seq<nat>): (r: seq<nat>)
    ensures |r| == |s| && forall i :: 0 <= i < |s| ==> r[i] == To(c, c', s[i])
  {
    seq(|s|, i requires 0 <= i < |s| => To(c, c', s[i]))
  }

  /** Everybody knows it by its new address.  Nothing refers to it. */
  function Relocated(st: State, c: nat, c': nat): State
    requires c in st.kids && c in st.parent && c' !in st.kids && c' !in st.parent
  {
    State(map x | x in st.kids.Keys - {c} + {c'} :: Renamed(c, c', st.kids[To(c', c, x)]),
          map x | x in st.parent.Keys - {c} + {c'} :: To(c, c', st.parent[To(c', c, x)]),
          st.refs[c' := []] - {c}, st.handles, st.dying)
  }

  lemma RenamedHas(c: nat, c': nat, s: seq<nat>, x: nat)
    requires c' !in s
    ensures x in Renamed(c, c', s) <==> x != c && (if x == c' then c in s else x in s)
  {
    if x != c && (if x == c' then c in s else x in s) {
      var i :| 0 <= i < |s| && s[i] == if x == c' then c else x;
      assert Renamed(c, c', s)[i] == x;
    }
  }

  /** Its lists are those of the links that followed. */
  lemma RelocatedKids(st: State, root: nat, c: nat, c': nat, p: nat, i: nat)
    requires Tree(st, root) && Once(st.kids) && p in st.kids && i < |st.kids[p]| && st.kids[p][i] == c && c' !in st.kids
    ensures c in st.kids && c in st.parent && c' !in st.parent && c != p
    ensures Relocated(st, c, c').kids == Moved(st.kids, p, i, c')
  {
    assert c in st.kids[p] && Child(st, root, p, c);
    var kids1, kids2 := Relocated(st, c, c').kids, Moved(st.kids, p, i, c');
    forall x | x in kids1 ensures x in kids2 && kids1[x] == kids2[x] {
      var q := To(c', c, x);
      if q == p {
        OnceIn(st.kids, p);
        assert forall j :: 0 <= j < |st.kids[p]| ==> Renamed(c, c', st.kids[p])[j] == st.kids[p][i := c'][j];
      } else {
        assert c !in st.kids[q];
      }
    }
  }

  lemma RelocatedTree(st: State, root: nat, c: nat, c': nat)
    requires Tree(st, root) && Listed(st, root, c) && c' !in st.kids && c' != NULL
    ensures c in st.parent && c' !in st.parent && Tree(Relocated(st, c, c'), root)
  {
    ListedHasParent(st, root, c);
    var st' := Relocated(st, c, c');
    forall p, x | p in st'.kids && x in st'.kids[p] ensures Child(st', root, p, x) {
      var p0, x0 := To(c', c, p), To(c', c, x);
      RelocatedChild(st, root, c, c', p0, x);
    }
    forall x | x in st'.kids && x !in st'.dying && x != root ensures HasParent(st', x) {
      var x0 := To(c', c, x);
      assert HasParent(st, x0);
      assert Child(st, root, st.parent[x0], x0);
      NoFreshChild(st, root, c', st.parent[x0]);
      RenamedHas(c, c', st.kids[st.parent[x0]], x);
    }
  }

  lemma NoFreshChild(st: State, root: nat, c': nat, p: nat)
    requires Tree(st, root) && c' !in st.kids && p in st.kids
    ensures c' !in st.kids[p]
  {
    assert c' in st.kids[p] ==> Child(st, root, p, c');
  }

  lemma RelocatedChild(st: State, root: nat, c: nat, c': nat, p0: nat, x: nat)
    requires Tree(st, root) && Listed(st, root, c) && c in st.parent && c' !in st.kids && c' !in st.parent && c' != NULL
    requires p0 in st.kids && x in Renamed(c, c', st.kids[p0])
    ensures x != c && To(c', c, x) in st.kids[p0] && Child(st, root, p0, To(c', c, x))
  {
    NoFreshChild(st, root, c', p0);
    RenamedHas(c, c', st.kids[p0], x);
    assert Child(st, root, p0, To(c', c, x));
  }

  lemma RelocatedShape(st: State, root: nat, c: nat, c': nat)
    requires Shape(st, root) && Listed(st, root, c) && c !in st.handles && c in st.refs && st.refs[c] == []
    requires c' !in st.kids && c' != NULL && st.dying == {}
    ensures c in st.parent && c' !in st.parent && Shape(Relocated(st, c, c'), root)
  {
    RelocatedTree(st, root, c, c');
    RelocatedReferences(st, root, c, c');
    hide Tree, References, Relocated;
  }

  lemma RelocatedReferences(st: State, root: nat, c: nat, c': nat)
    requires Shape(st, root) && c in st.kids && c in st.parent && c !in st.handles && c in st.refs && st.refs[c] == []
    requires c' !in st.kids && c' !in st.parent && st.dying == {} && c != root
    ensures References(Relocated(st, c, c'), root)
  {
    hide Tree, Distinct;
    ParentsOfKids(st, root);
    RootParent(st, root);
    var st' := Relocated(st, c, c');
    forall h | h in st'.handles ensures HandleOk(st', root, h) {
      assert HandleOk(st, root, h);
    }
    forall x, h | x in st'.refs && h in st'.refs[x] ensures Refers(st', h, x) {
      assert Refers(st, h, x);
    }
    assert Distinct([]) by { DistinctNone(); }
  }

  lemma NotAsParent(st: State, root: nat, c': nat)
    requires Shape(st, root) && c' !in st.kids && c' != NULL && st.dying == {}
    ensures forall x :: x in st.parent ==> st.parent[x] != c'
  {
    forall x | x in st.parent ensures st.parent[x] != c' {
      if x != root {
        ListedHasParent(st, root, x);
      }
    }
  }

  /** It owns what it owned, and has the owners it had. */
  lemma RelocatedOwners(st: State, root: nat, c: nat, c': nat, o: nat, x: nat)
    requires Shape(st, root) && Listed(st, root, c) && c !in st.handles && c in st.refs && st.refs[c] == []
    requires c' !in st.kids && c' != NULL && st.dying == {} && x in st.kids && o in st.kids
    ensures c in st.parent && c' !in st.parent
    ensures Owns(st, o, x) <==> Owns(Relocated(st, c, c'), To(c, c', o), To(c, c', x))
  {
    hide Tree, References;
    ParentsOfKids(st, root);
    NotAsParent(st, root, c');
    var st', o', x' := Relocated(st, c, c'), To(c, c', o), To(c, c', x);
    forall h | h in st.refs[x] ensures h != c && h != c' && h in st.parent {
      HandleOfRefs(st, root, x, h);
    }
    if Owns(st, o, x) && st.parent[x] != o {
      var h :| h in st.refs[x] && h in st.parent && st.parent[h] == o;
      assert h in st'.refs[x'] && st'.parent[h] == o';
    }
    if Owns(st', o', x') && st'.parent[x'] != o' {
      var h :| h in st'.refs[x'] && h in st'.parent && st'.parent[h] == o';
      assert h in st.refs[x];
    }
  }
}
