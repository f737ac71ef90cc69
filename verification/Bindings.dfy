/** The guest/host binding lists: path/binding.c and the detranslation of path/path.c.

A binding list is the sequence of its elements.  Bindings carry the identity of their
allocation, since the source removes a binding by pointer. */
module Bindings {
  import opened Basics
  import opened Paths

  datatype Side = Guest | Host

  datatype Binding = Binding(id: nat, host: string, guest: string) {
    /** Set by insort_binding2(). */
    function NeedSubstitution(): bool
      requires host != "" && guest != ""
    {
      ComparePaths(host, guest) != PathsAreEqual
    }
  }

  /** The two lists of a file-system name-space. */
  datatype Table = Table(guest: seq<Binding>, host: seq<Binding>) {
    function List(side: Side): seq<Binding> {
      match side case Guest => guest case Host => host
    }
  }

  function PathOf(b: Binding, side: Side): string {
    match side case Guest => b.guest case Host => b.host
  }

  function Key(b: Binding, side: Side): seq<Name> {
    Components(PathOf(b, side))
  }

  ghost predicate WellFormed(b: Binding) {
    Canonical(b.host) && Canonical(b.guest)
  }

  predicate Covers(b: Binding, side: Side, path: string) {
    var c := ComparePaths(PathOf(b, side), path);
    c == PathsAreEqual || c == Path1IsPrefix
  }

  lemma CoversIsPrefix(b: Binding, side: Side, path: string)
    requires WellFormed(b) && Canonical(path)
    ensures Covers(b, side, path) <==> Prefix(Key(b, side), Components(path))
  {
    CompareCanonical(PathOf(b, side), path);
  }

  // ----- Comparing texts -----

  ghost predicate Prefix<T>(a: seq<T>, b: seq<T>) {
    a <= b
  }

  predicate IsAbsolute(path: string) {
    path != "" && path[0] == '/'
  }

  /** A path with just one final separator, if it has any but that one. */
  function Mark(path: string): string {
    if path != "" && path[|path| - 1] == '/' then path else path + "/"
  }

  function MarkOf(b: Binding, side: Side): string {
    Mark(PathOf(b, side))
  }

  lemma MarkStarts(x: string, y: string)
    ensures Prefix(x + "/", y + "/") <==> x == y || Starts(x, y)
    ensures x + "/" == y + "/" <==> x == y
  {
    var a, b := x + "/", y + "/";
    assert x == a[..|x|] && y == b[..|y|] && a[|x|] == '/';
    if |x| < |y| {
      assert b[..|x|] == y[..|x|] && b[|x|] == y[|x|];
      if y[..|x|] == x && y[|x|] == '/' {
        assert b[..|x| + 1] == b[..|x|] + [b[|x|]] == a;
      }
    }
  }

  /** Whatever its arguments are, compare_paths2() tells whether one starts the other, up to a separator. */
  lemma CompareMarks(path1: string, path2: string)
    requires path1 != "" && path2 != ""
    ensures var a, b := Mark(path1), Mark(path2);
            ComparePaths(path1, path2) ==
            if a == b then PathsAreEqual
            else if Prefix(a, b) then Path1IsPrefix
            else if Prefix(b, a) then Path2IsPrefix
            else PathsAreNotComparable
  {
    var x, y := Stripped(path1), Stripped(path2);
    CompareStripped(path1, path2);
    assert Mark(path1) == x + "/" && Mark(path2) == y + "/";
    hide Prefix, Mark, ComparePaths, Stripped, Starts;
    MarkStarts(x, y);
    MarkStarts(y, x);
  }

  /** Without its final separator. */
  function Stripped(path: string): string {
    if path != "" && path[|path| - 1] == '/' then path[..|path| - 1] else path
  }

  predicate Starts(x: string, y: string) {
    |x| < |y| && y[..|x|] == x && y[|x|] == '/'
  }

  lemma CompareStripped(path1: string, path2: string)
    requires path1 != "" && path2 != ""
    ensures var x, y := Stripped(path1), Stripped(path2);
            ComparePaths(path1, path2) ==
            if x == y then PathsAreEqual
            else if Starts(x, y) then Path1IsPrefix
            else if Starts(y, x) then Path2IsPrefix
            else PathsAreNotComparable
  {
    var x, y := Stripped(path1), Stripped(path2);
    if |x| < |y| {
      assert path2[..|x|] == y[..|x|] && path2[|x|] == y[|x|] && path1[..|x|] == x;
    } else {
      assert path1[..|y|] == x[..|y|] && path2[..|y|] == y && (|y| < |x| ==> path1[|y|] == x[|y|]);
    }
  }

  lemma MarkOfRender(cs: seq<Name>)
    ensures Mark(Render(cs)) == Body(cs) + "/"
  {
    if cs != [] {
      BodyEnd(cs);
    }
  }

  /** Of canonical paths, it tells whether the components of one start those of the other. */
  lemma MarksOfCanonical(path1: string, path2: string)
    requires Canonical(path1) && Canonical(path2)
    ensures Prefix(Mark(path1), Mark(path2)) <==> Prefix(Components(path1), Components(path2))
    ensures Mark(path1) == Mark(path2) <==> Components(path1) == Components(path2)
  {
    hide Body, Components;
    var a, b := Components(path1), Components(path2);
    MarkOfRender(a);
    MarkOfRender(b);
    BodyPrefix(a, b);
    var x, y := Body(a), Body(b);
    MarkStarts(x, y);
    hide Mark;
    if |x| < |y| {
      assert x <= y <==> y[..|x|] == x;
    }
    assert a == b <==> x == y by { BodyPrefix(b, a); }
  }

  // ----- What the lists keep -----

  ghost predicate Named(b: Binding) {
    IsAbsolute(b.host) && IsAbsolute(b.guest)
  }

  ghost predicate AllNamed(list: seq<Binding>) {
    forall i :: 0 <= i < |list| ==> Named(list[i])
  }

  /** No element is a proper prefix of a later one. */
  ghost predicate Sorted(list: seq<Binding>, side: Side) {
    forall i, j :: 0 <= i < j < |list| && Prefix(MarkOf(list[i], side), MarkOf(list[j], side)) ==>
                     MarkOf(list[i], side) == MarkOf(list[j], side)
  }

  ghost predicate DistinctMarks(list: seq<Binding>) {
    forall i, j :: 0 <= i < j < |list| ==> MarkOf(list[i], Guest) != MarkOf(list[j], Guest)
  }

  /** What insertions and removals keep, of whatever absolute paths. */
  ghost predicate Ordered(t: Table) {
    && AllNamed(t.guest) && AllNamed(t.host)
    && Sorted(t.guest, Guest) && Sorted(t.host, Host)
    && DistinctMarks(t.guest)
    && multiset(t.guest) == multiset(t.host)
  }

  ghost predicate AllWellFormed(list: seq<Binding>) {
    forall i :: 0 <= i < |list| ==> WellFormed(list[i])
  }

  /** What they keep of canonical paths. */
  ghost predicate Consistent(t: Table) {
    Ordered(t) && AllWellFormed(t.guest) && AllWellFormed(t.host)
  }

  ghost predicate RootLast(list: seq<Binding>) {
    list != [] && list[|list| - 1].guest == "/"
  }

  ghost predicate Valid(t: Table) {
    Consistent(t) && RootLast(t.guest)
  }

  ghost predicate DistinctKeys(list: seq<Binding>) {
    forall i, j :: 0 <= i < j < |list| ==> Key(list[i], Guest) != Key(list[j], Guest)
  }

  lemma KeysAreDistinct(list: seq<Binding>)
    requires AllWellFormed(list) && DistinctMarks(list)
    ensures DistinctKeys(list)
  {
    hide Components, Canonical, Mark;
    forall i, j | 0 <= i < j < |list| ensures Key(list[i], Guest) != Key(list[j], Guest) {
      assert WellFormed(list[i]) && WellFormed(list[j]);
      MarksOfCanonical(list[i].guest, list[j].guest);
    }
  }

  lemma WellFormedIsNamed(b: Binding)
    requires WellFormed(b)
    ensures Named(b)
    ensures Key(b, Guest) == [] <==> b.guest == "/"
  {
    hide Components;
    CanonicalIsAbsolute(b.host);
    CanonicalIsAbsolute(b.guest);
    assert b.guest == "/" ==> Key(b, Guest) == [] by { ComponentsOfRender([]); }
  }

  lemma CanonicalIsAbsolute(path: string)
    requires Canonical(path)
    ensures IsAbsolute(path)
  {
    hide Components;
    if Components(path) != [] {
      BodyEnd(Components(path));
    }
  }

  lemma PrefixesCompare<T>(a: seq<T>, b: seq<T>, whole: seq<T>)
    requires Prefix(a, whole) && Prefix(b, whole)
    ensures Prefix(a, b) || Prefix(b, a)
    ensures Prefix(a, b) && Prefix(b, a) ==> a == b
  {
    if |a| <= |b| {
      assert a == whole[..|a|] == b[..|a|];
    } else {
      assert b == whole[..|b|] == a[..|b|];
    }
  }

  lemma PrefixTransitive<T>(a: seq<T>, b: seq<T>, c: seq<T>)
    requires Prefix(a, b) && Prefix(b, c)
    ensures Prefix(a, c)
    ensures a == c ==> a == b
  {
  }

  // ----- get_binding -----

  function FirstCover(list: seq<Binding>, side: Side, path: string): (r: Option<Binding>)
    ensures r.Some? ==> r.value in list && Covers(r.value, side, path)
    ensures r.None? ==> forall b :: b in list ==> !Covers(b, side, path)
  {
    if list == [] then None
    else if Covers(list[0], side, path) then Some(list[0])
    else FirstCover(list[1..], side, path)
  }

  function Root(t: Table): string {
    if t.guest == [] then "" else t.guest[|t.guest| - 1].host
  }

  predicate BelongsToGuestfs(t: Table, hostPath: string) {
    var c := ComparePaths(Root(t), hostPath);
    c == PathsAreEqual || c == Path1IsPrefix
  }

  /** Host paths under a root other than "/" are never looked up among the bindings. */
  predicate Skipped(t: Table, side: Side, path: string) {
    side == Host && ComparePaths(Root(t), "/") != PathsAreEqual && BelongsToGuestfs(t, path)
  }

  function Lookup(t: Table, side: Side, path: string): Option<Binding> {
    if Skipped(t, side, path) then None else FirstCover(t.List(side), side, path)
  }

  /** In a sorted list, the first binding that contains a path is contained in all the others that do. */
  lemma {:induction false} FirstCoverIsDeepest(list: seq<Binding>, side: Side, path: string)
    requires Sorted(list, side) && AllNamed(list) && path != ""
    ensures var r := FirstCover(list, side, path);
            r.Some? ==> forall b :: b in list && Covers(b, side, path) ==> Prefix(MarkOf(b, side), MarkOf(r.value, side))
  {
    hide Mark, ComparePaths, Prefix;
    if list != [] {
      var first, rest := list[0], list[1..];
      assert forall i :: 0 <= i < |rest| ==> rest[i] == list[i + 1];
      assert AllNamed(rest) && Sorted(rest, side);
      FirstCoverIsDeepest(rest, side, path);
      if Covers(first, side, path) {
        CoversText(first, side, path);
        forall j | 0 <= j < |list| && Covers(list[j], side, path)
          ensures Prefix(MarkOf(list[j], side), MarkOf(first, side))
        {
          CoversText(list[j], side, path);
          PrefixesCompare(MarkOf(list[j], side), MarkOf(first, side), Mark(path));
        }
      }
    }
  }

  lemma CoversText(b: Binding, side: Side, path: string)
    requires Named(b) && path != ""
    ensures Covers(b, side, path) <==> Prefix(MarkOf(b, side), Mark(path))
  {
    hide Mark, ComparePaths;
    CompareMarks(PathOf(b, side), path);
  }

  /** get_binding(GUEST, path) is the binding whose guest path is the longest prefix of path. */
  lemma LookupIsLongestPrefix(t: Table, path: string)
    requires Valid(t) && Canonical(path)
    ensures Lookup(t, Guest, path).Some?
    ensures var b := Lookup(t, Guest, path).value;
            && b in t.guest && Prefix(Key(b, Guest), Components(path))
            && forall x :: x in t.guest && Prefix(Key(x, Guest), Components(path)) ==>
                 Prefix(Key(x, Guest), Key(b, Guest))
  {
    hide Components, ComparePaths, Prefix, Canonical, Sorted, DistinctMarks, Mark;
    var root := t.guest[|t.guest| - 1];
    WellFormedIsNamed(root);
    EmptyPrefix(Components(path));
    CoversIsPrefix(root, Guest, path);
    var b := Lookup(t, Guest, path).value;
    CoversIsPrefix(b, Guest, path);
    CanonicalIsAbsolute(path);
    FirstCoverIsDeepest(t.guest, Guest, path);
    forall x | x in t.guest && Prefix(Key(x, Guest), Components(path)) ensures Prefix(Key(x, Guest), Key(b, Guest)) {
      CoversIsPrefix(x, Guest, path);
      MarksOfCanonical(x.guest, b.guest);
    }
  }

  lemma EmptyPrefix<T>(a: seq<T>)
    ensures Prefix([], a)
  {
  }

  // ----- insort_binding -----

  function InsertAt(list: seq<Binding>, k: nat, b: Binding): seq<Binding>
    requires k <= |list|
  {
    list[..k] + [b] + list[k..]
  }

  /** One past the last element of list[..n] that b's path contains. */
  function AfterContained(list: seq<Binding>, side: Side, b: Binding, n: nat): (k: nat)
    requires n <= |list|
    ensures k <= n
    ensures k > 0 ==> Contains(b, list[k - 1], side)
    ensures forall i :: k <= i < n ==> !Contains(b, list[i], side)
  {
    if n == 0 then 0
    else if Contains(b, list[n - 1], side) then n
    else AfterContained(list, side, b, n - 1)
  }

  predicate Contains(b: Binding, other: Binding, side: Side) {
    var c := ComparePaths(PathOf(b, side), PathOf(other, side));
    c == Path1IsPrefix || (side == Host && c == PathsAreEqual)
  }

  predicate SamePath(b: Binding, other: Binding, side: Side) {
    ComparePaths(PathOf(b, side), PathOf(other, side)) == PathsAreEqual
  }

  /** Index of the first element bound to the same guest path as b, or |list|. */
  function SameIndex(list: seq<Binding>, b: Binding): (k: nat)
    ensures k <= |list|
    ensures k < |list| ==> SamePath(b, list[k], Guest)
    ensures forall i :: 0 <= i < k ==> !SamePath(b, list[i], Guest)
  {
    if list == [] || SamePath(b, list[0], Guest) then 0 else 1 + SameIndex(list[1..], b)
  }

  /** CIRCLEQ_REMOVE of an element, when it is linked. */
  function Without(list: seq<Binding>, b: Binding): seq<Binding> {
    if list == [] then []
    else if list[0] == b then list[1..]
    else [list[0]] + Without(list[1..], b)
  }

  function RemovedFromAll(t: Table, b: Binding): Table {
    Table(Without(t.guest, b), Without(t.host, b))
  }

  /** insort_binding() on one side. */
  function Insorted(t: Table, side: Side, b: Binding): Table {
    var list := t.List(side);
    if side == Guest && SameIndex(list, b) < |list| then
      var k := SameIndex(list, b);
      RemovedFromAll(t.(guest := InsertAt(list, k + 1, b)), list[k])
    else
      var list' := InsertAt(list, AfterContained(list, side, b, |list|), b);
      match side case Guest => t.(guest := list') case Host => t.(host := list')
  }

  /** The place before the deepest container is never sought: a binding goes to the head just when it contains no other,
  wherever those that contain it are. */
  lemma InsertedAtHead(t: Table, side: Side, b: Binding)
    requires side == Guest ==> forall i :: 0 <= i < |t.guest| ==> !SamePath(b, t.guest[i], Guest)
    ensures var list := t.List(side);
            && (AfterContained(list, side, b, |list|) == 0 <==> forall i :: 0 <= i < |list| ==> !Contains(b, list[i], side))
            && Insorted(t, side, b).List(side) == InsertAt(list, AfterContained(list, side, b, |list|), b)
            && (AfterContained(list, side, b, |list|) == 0 ==> Insorted(t, side, b).List(side) == [b] + list)
  {
    hide SamePath, Contains;
    var list := t.List(side);
    var k := AfterContained(list, side, b, |list|);
    assert k > 0 ==> Contains(b, list[k - 1], side);
    assert list[..0] + [b] + list[0..] == [b] + list;
  }

  /** insort_binding2(). */
  function Insorted2(t: Table, b: Binding): Table {
    Insorted(Insorted(t, Guest, b), Host, b)
  }

  lemma {:induction false} WithoutAt(list: seq<Binding>, b: Binding, k: nat)
    requires k < |list| && list[k] == b
    requires forall i :: 0 <= i < k ==> list[i] != b
    ensures Without(list, b) == list[..k] + list[k + 1..]
  {
    if k > 0 {
      WithoutAt(list[1..], b, k - 1);
      assert list[1..][..k - 1] == list[1..k] && list[1..][k..] == list[k + 1..];
      assert list[..k] == [list[0]] + list[1..k];
    }
  }

  lemma {:induction false} WithoutAbsent(list: seq<Binding>, b: Binding)
    requires b !in list
    ensures Without(list, b) == list
  {
    if list != [] {
      WithoutAbsent(list[1..], b);
    }
  }

  lemma FindFirst(list: seq<Binding>, b: Binding) returns (k: nat)
    requires b in list
    ensures k < |list| && list[k] == b && forall i :: 0 <= i < k ==> list[i] != b
  {
    k := 0;
    while list[k] != b
      invariant k < |list| && forall i :: 0 <= i < k ==> list[i] != b
      decreases |list| - k
    {
      assert exists j :: k < j < |list| && list[j] == b;
      k := k + 1;
    }
  }

  lemma WithoutMultiset(list: seq<Binding>, b: Binding)
    ensures multiset(Without(list, b)) == multiset(list) - multiset{b}
  {
    if b in list {
      var k := FindFirst(list, b);
      WithoutAt(list, b, k);
      assert list == list[..k] + [b] + list[k + 1..];
    } else {
      WithoutAbsent(list, b);
    }
  }

  lemma WithoutKeeps(list: seq<Binding>, b: Binding, side: Side)
    requires AllNamed(list) && Sorted(list, side)
    ensures AllNamed(Without(list, b)) && Sorted(Without(list, b), side)
  {
    hide Mark, Named, Prefix;
    var k, l := |list|, Without(list, b);
    if b in list {
      k := FindFirst(list, b);
      WithoutAt(list, b, k);
    } else {
      WithoutAbsent(list, b);
    }
    assert forall i :: 0 <= i < |l| ==> l[i] == list[if i < k then i else i + 1];
  }

  /** What is left is everything else: no two bindings of the list share a guest path. */
  lemma WithoutElements(list: seq<Binding>, b: Binding)
    requires DistinctMarks(list)
    ensures DistinctMarks(Without(list, b))
    ensures forall x :: x in Without(list, b) <==> x in list && x != b
  {
    hide Mark, Without;
    if b in list {
      var k := FindFirst(list, b);
      WithoutAt(list, b, k);
      ButOneElements(list, k);
    } else {
      WithoutAbsent(list, b);
    }
  }

  lemma ButOneElements(list: seq<Binding>, k: nat)
    requires DistinctMarks(list) && k < |list|
    ensures DistinctMarks(list[..k] + list[k + 1..])
    ensures forall x :: x in list[..k] + list[k + 1..] <==> x in list && x != list[k]
  {
    hide Mark;
    var l := list[..k] + list[k + 1..];
    assert forall i :: 0 <= i < |l| ==> l[i] == list[if i < k then i else i + 1];
    forall x | x in list && x != list[k] ensures x in l {
      var i :| 0 <= i < |list| && list[i] == x;
      assert l[if i < k then i else i - 1] == x;
    }
  }

  lemma InsertMultiset(list: seq<Binding>, k: nat, b: Binding)
    requires k <= |list|
    ensures multiset(InsertAt(list, k, b)) == multiset(list) + multiset{b}
  {
    assert list == list[..k] + list[k..];
  }

  lemma ContainsIsPrefix(b: Binding, other: Binding, side: Side)
    requires Named(b) && Named(other)
    ensures SamePath(b, other, side) <==> MarkOf(b, side) == MarkOf(other, side)
    ensures Contains(b, other, side) <==>
            Prefix(MarkOf(b, side), MarkOf(other, side)) && (side == Host || MarkOf(b, side) != MarkOf(other, side))
  {
    hide Mark, ComparePaths;
    CompareMarks(PathOf(b, side), PathOf(other, side));
  }

  lemma InsertIndex(list: seq<Binding>, k: nat, b: Binding, i: nat)
    requires k <= |list| && i <= |list|
    ensures |InsertAt(list, k, b)| == |list| + 1
    ensures InsertAt(list, k, b)[i] == if i < k then list[i] else if i == k then b else list[i - 1]
  {
  }

  lemma InsertKeepsNamed(list: seq<Binding>, k: nat, b: Binding)
    requires AllNamed(list) && Named(b) && k <= |list|
    ensures AllNamed(InsertAt(list, k, b))
  {
    hide Named;
  }

  /** The elements after the insertion point are not under b. */
  lemma InsertBeforeOthers(list: seq<Binding>, side: Side, b: Binding, j: nat)
    requires AllNamed(list) && Named(b)
    requires AfterContained(list, side, b, |list|) <= j < |list|
    ensures Prefix(MarkOf(b, side), MarkOf(list[j], side)) ==> MarkOf(b, side) == MarkOf(list[j], side)
  {
    hide Mark, ComparePaths, Prefix, Contains;
    ContainsIsPrefix(b, list[j], side);
  }

  /** The elements before the insertion point do not contain b. */
  lemma InsertAfterOthers(list: seq<Binding>, side: Side, b: Binding, i: nat)
    requires AllNamed(list) && Named(b) && Sorted(list, side)
    requires i < AfterContained(list, side, b, |list|)
    ensures Prefix(MarkOf(list[i], side), MarkOf(b, side)) ==> MarkOf(list[i], side) == MarkOf(b, side)
  {
    hide Mark, ComparePaths, Prefix, Contains, Named;
    var k := AfterContained(list, side, b, |list|);
    ContainsIsPrefix(b, list[k - 1], side);
    if Prefix(MarkOf(list[i], side), MarkOf(b, side)) {
      PrefixTransitive(MarkOf(list[i], side), MarkOf(b, side), MarkOf(list[k - 1], side));
    }
  }

  lemma InsertPairSorted(list: seq<Binding>, side: Side, b: Binding, i: nat, j: nat)
    requires AllNamed(list) && Named(b) && Sorted(list, side) && i < j <= |list|
    ensures var l := InsertAt(list, AfterContained(list, side, b, |list|), b);
            Prefix(MarkOf(l[i], side), MarkOf(l[j], side)) ==> MarkOf(l[i], side) == MarkOf(l[j], side)
  {
    hide MarkOf, Prefix, AllNamed, Named, AfterContained, InsertAt;
    var k := AfterContained(list, side, b, |list|);
    InsertIndex(list, k, b, i);
    InsertIndex(list, k, b, j);
    if i == k {
      InsertBeforeOthers(list, side, b, j - 1);
    } else if j == k {
      InsertAfterOthers(list, side, b, i);
    }
  }

  lemma InsertKeepsSorted(list: seq<Binding>, side: Side, b: Binding)
    requires AllNamed(list) && Named(b) && Sorted(list, side)
    ensures var l := InsertAt(list, AfterContained(list, side, b, |list|), b); AllNamed(l) && Sorted(l, side)
  {
    hide Mark, ComparePaths, Prefix, Named, Contains, SamePath, AllNamed, SameIndex;
    var k := AfterContained(list, side, b, |list|);
    InsertKeepsNamed(list, k, b);
    var l := InsertAt(list, k, b);
    forall i, j | 0 <= i < j < |l| && Prefix(MarkOf(l[i], side), MarkOf(l[j], side))
      ensures MarkOf(l[i], side) == MarkOf(l[j], side)
    {
      InsertPairSorted(list, side, b, i, j);
    }
  }

  /** Replacing an element in place by one bound to the same path. */
  lemma ReplaceInPlace(list: seq<Binding>, k: nat, b: Binding)
    requires k < |list| && DistinctMarks(list) && MarkOf(list[k], Guest) == MarkOf(b, Guest)
    ensures Without(InsertAt(list, k + 1, b), list[k]) == list[k := b]
  {
    hide Mark;
    var l := InsertAt(list, k + 1, b);
    assert forall i :: 0 <= i < k ==> l[i] == list[i] && MarkOf(list[i], Guest) != MarkOf(list[k], Guest);
    WithoutAt(l, list[k], k);
    assert l[..k] + l[k + 1..] == list[k := b];
  }

  lemma ReplaceKeeps(list: seq<Binding>, k: nat, b: Binding)
    requires AllNamed(list) && Named(b) && Sorted(list, Guest) && DistinctMarks(list)
    requires k < |list| && MarkOf(list[k], Guest) == MarkOf(b, Guest)
    ensures var l := list[k := b]; AllNamed(l) && Sorted(l, Guest) && DistinctMarks(l)
  {
    hide Mark, Prefix, Named;
    var l := list[k := b];
    assert forall i :: 0 <= i < |l| ==> MarkOf(l[i], Guest) == MarkOf(list[i], Guest);
  }

  lemma ReplaceElements(list: seq<Binding>, k: nat, b: Binding)
    requires DistinctMarks(list) && k < |list| && MarkOf(list[k], Guest) == MarkOf(b, Guest)
    ensures forall x :: x in list[k := b] <==> x == b || (x in list && MarkOf(x, Guest) != MarkOf(b, Guest))
  {
    hide Mark;
    var l := list[k := b];
    assert forall i :: 0 <= i < |l| && i != k ==> l[i] == list[i];
    assert l[k] == b;
  }

  lemma NotSamePath(list: seq<Binding>, b: Binding)
    requires AllNamed(list) && Named(b) && SameIndex(list, b) == |list|
    ensures forall i :: 0 <= i < |list| ==> MarkOf(list[i], Guest) != MarkOf(b, Guest)
  {
    hide Mark, ComparePaths, SamePath, Contains, Named;
    forall i | 0 <= i < |list| ensures MarkOf(list[i], Guest) != MarkOf(b, Guest) {
      ContainsIsPrefix(b, list[i], Guest);
    }
  }

  lemma InsertKeepsDistinct(list: seq<Binding>, k: nat, b: Binding)
    requires DistinctMarks(list) && k <= |list|
    requires forall i :: 0 <= i < |list| ==> MarkOf(list[i], Guest) != MarkOf(b, Guest)
    ensures DistinctMarks(InsertAt(list, k, b))
  {
    hide Mark;
    var l := InsertAt(list, k, b);
    assert forall i :: 0 <= i < |l| ==> l[i] == if i < k then list[i] else if i == k then b else list[i - 1];
  }

  lemma InsertElements(list: seq<Binding>, k: nat, b: Binding)
    requires k <= |list|
    requires forall i :: 0 <= i < |list| ==> MarkOf(list[i], Guest) != MarkOf(b, Guest)
    ensures forall x :: x in InsertAt(list, k, b) <==> x == b || (x in list && MarkOf(x, Guest) != MarkOf(b, Guest))
  {
    hide Mark;
    InsertMultiset(list, k, b);
    assert forall x :: x in InsertAt(list, k, b) <==> x in multiset(InsertAt(list, k, b));
  }

  /** The guest list after the first half of insort_binding2(). */
  lemma InsortGuest(t: Table, b: Binding)
    requires Ordered(t) && Named(b)
    ensures var t1 := Insorted(t, Guest, b);
            && AllNamed(t1.guest) && Sorted(t1.guest, Guest) && DistinctMarks(t1.guest)
            && (forall x :: x in t1.guest <==> x == b || (x in t.guest && MarkOf(x, Guest) != MarkOf(b, Guest)))
  {
    hide Mark, ComparePaths, Prefix, Named, Contains, SamePath, Sorted, DistinctMarks, Without;
    var k := SameIndex(t.guest, b);
    if k < |t.guest| {
      ContainsIsPrefix(b, t.guest[k], Guest);
      ReplaceInPlace(t.guest, k, b);
      ReplaceKeeps(t.guest, k, b);
      ReplaceElements(t.guest, k, b);
    } else {
      InsertKeepsSorted(t.guest, Guest, b);
      NotSamePath(t.guest, b);
      InsertKeepsDistinct(t.guest, AfterContained(t.guest, Guest, b, |t.guest|), b);
      InsertElements(t.guest, AfterContained(t.guest, Guest, b, |t.guest|), b);
    }
  }

  lemma InsortGuestHost(t: Table, b: Binding)
    requires Ordered(t) && Named(b)
    ensures var t1 := Insorted(t, Guest, b); AllNamed(t1.host) && Sorted(t1.host, Host)
  {
    hide Mark, ComparePaths, Prefix, Named, Contains, SamePath, Sorted, AllNamed, DistinctMarks, Without;
    var k := SameIndex(t.guest, b);
    if k < |t.guest| {
      WithoutKeeps(t.host, t.guest[k], Host);
    }
  }

  lemma InsortGuestMultiset(t: Table, b: Binding)
    requires multiset(t.guest) == multiset(t.host)
    ensures var t1 := Insorted(t, Guest, b); multiset(t1.guest) == multiset(t1.host) + multiset{b}
  {
    hide SamePath, Contains, Without, InsertAt;
    var k := SameIndex(t.guest, b);
    if k < |t.guest| {
      ReplaceMultiset(t.guest, t.host, k, b);
    } else {
      InsertMultiset(t.guest, AfterContained(t.guest, Guest, b, |t.guest|), b);
    }
  }

  lemma ReplaceMultiset(list: seq<Binding>, other: seq<Binding>, k: nat, b: Binding)
    requires multiset(list) == multiset(other) && k < |list|
    ensures multiset(Without(InsertAt(list, k + 1, b), list[k])) == multiset(Without(other, list[k])) + multiset{b}
  {
    hide Without, InsertAt;
    WithoutMultiset(other, list[k]);
    WithoutMultiset(InsertAt(list, k + 1, b), list[k]);
    InsertMultiset(list, k + 1, b);
    assert list[k] in multiset(list);
  }

  /** "/" starts every absolute path: it comes last. */
  lemma RootComesLast(list: seq<Binding>, b: Binding)
    requires AllNamed(list) && Sorted(list, Guest) && DistinctMarks(list) && b in list && b.guest == "/"
    ensures RootLast(list)
  {
    hide Sorted, DistinctMarks, Mark;
    var k :| 0 <= k < |list| && list[k] == b;
    var last := list[|list| - 1];
    if k < |list| - 1 {
      RootStartsAll(last.guest);
      MarksDiffer(list, k, |list| - 1);
      NotStarted(list, k, |list| - 1);
    }
  }

  lemma RootStartsAll(path: string)
    requires IsAbsolute(path)
    ensures Mark("/") == "/" && Prefix(Mark("/"), Mark(path))
  {
  }

  lemma MarksDiffer(list: seq<Binding>, i: nat, j: nat)
    requires DistinctMarks(list) && i < j < |list|
    ensures MarkOf(list[i], Guest) != MarkOf(list[j], Guest)
  {
  }

  lemma NotStarted(list: seq<Binding>, i: nat, j: nat)
    requires Sorted(list, Guest) && i < j < |list| && MarkOf(list[i], Guest) != MarkOf(list[j], Guest)
    ensures !Prefix(MarkOf(list[i], Guest), MarkOf(list[j], Guest))
  {
  }

  /** Whatever absolute paths the lists hold, insort_binding2() keeps them in order and rebinds one text. */
  lemma InsortOrdered(t: Table, b: Binding)
    requires Ordered(t) && Named(b)
    ensures Ordered(Insorted2(t, b))
    ensures forall x :: x in Insorted2(t, b).guest <==> x == b || (x in t.guest && MarkOf(x, Guest) != MarkOf(b, Guest))
  {
    hide Mark, ComparePaths, Prefix, Named, Contains, SamePath, Sorted, AllNamed, DistinctMarks, Without;
    hide SameIndex, AfterContained, MarkOf;
    InsortGuest(t, b);
    InsortGuestHost(t, b);
    InsortGuestMultiset(t, b);
    var t1 := Insorted(t, Guest, b);
    InsertKeepsSorted(t1.host, Host, b);
    InsertMultiset(t1.host, AfterContained(t1.host, Host, b, |t1.host|), b);
  }

  /** And remove_binding_from_all_lists() takes that binding out. */
  lemma RemoveOrdered(t: Table, b: Binding)
    requires Ordered(t)
    ensures Ordered(RemovedFromAll(t, b))
    ensures forall x :: x in RemovedFromAll(t, b).guest <==> x in t.guest && x != b
  {
    hide Mark, Prefix, Named, Sorted, AllNamed, DistinctMarks, Without;
    WithoutKeeps(t.guest, b, Guest);
    WithoutKeeps(t.host, b, Host);
    WithoutMultiset(t.guest, b);
    WithoutMultiset(t.host, b);
    WithoutElements(t.guest, b);
  }

  lemma SameElements(a: seq<Binding>, b: seq<Binding>)
    requires multiset(a) == multiset(b)
    ensures forall x :: x in a <==> x in b
  {
    assert forall x :: x in a <==> x in multiset(a);
    assert forall x :: x in b <==> x in multiset(b);
  }

  lemma WellFormedElements(list: seq<Binding>)
    ensures AllWellFormed(list) <==> forall x :: x in list ==> WellFormed(x)
  {
    hide WellFormed;
  }

  /** Whatever canonical paths the lists hold, insort_binding2() keeps them consistent and rebinds one guest path. */
  lemma InsortKeeps(t: Table, b: Binding)
    requires Consistent(t) && WellFormed(b)
    ensures Consistent(Insorted2(t, b))
    ensures RootLast(t.guest) || b.guest == "/" ==> RootLast(Insorted2(t, b).guest)
    ensures forall x :: x in Insorted2(t, b).guest <==> x == b || (x in t.guest && Key(x, Guest) != Key(b, Guest))
  {
    hide Ordered, AllWellFormed, Insorted2, Mark, Components, Canonical, WellFormed;
    WellFormedIsNamed(b);
    InsortOrdered(t, b);
    var t' := Insorted2(t, b);
    WellFormedElements(t.guest);
    forall x | x in t.guest ensures MarkOf(x, Guest) == MarkOf(b, Guest) <==> Key(x, Guest) == Key(b, Guest) {
      SameMark(x, b);
    }
    WellFormedElements(t'.guest);
    WellFormedElements(t'.host);
    SameElements(t'.guest, t'.host) by { OrderedParts(t'); }
    if RootLast(t.guest) || b.guest == "/" {
      InsortKeepsRoot(t, b);
    }
  }

  lemma SameMark(x: Binding, b: Binding)
    requires WellFormed(x) && WellFormed(b)
    ensures MarkOf(x, Guest) == MarkOf(b, Guest) <==> Key(x, Guest) == Key(b, Guest)
  {
    hide Mark, Components, Canonical;
    MarksOfCanonical(x.guest, b.guest);
  }

  lemma OrderedParts(t: Table)
    requires Ordered(t)
    ensures multiset(t.guest) == multiset(t.host) && AllNamed(t.guest) && Sorted(t.guest, Guest) && DistinctMarks(t.guest)
  {
  }

  lemma InsortKeepsRoot(t: Table, b: Binding)
    requires Ordered(t) && Named(b) && (RootLast(t.guest) || b.guest == "/")
    ensures RootLast(Insorted2(t, b).guest)
  {
    hide Ordered, Insorted2, Mark, Named, Sorted, DistinctMarks, AllNamed;
    InsortOrdered(t, b);
    var t' := Insorted2(t, b);
    OrderedParts(t');
    if b.guest == "/" {
      RootComesLast(t'.guest, b);
    } else {
      var root := t.guest[|t.guest| - 1];
      if MarkOf(root, Guest) == MarkOf(b, Guest) {
        OnlyRoot(b.guest) by { NamedIsAbsolute(b); }
      }
      RootComesLast(t'.guest, root);
    }
  }

  lemma NamedIsAbsolute(b: Binding)
    requires Named(b)
    ensures IsAbsolute(b.guest) && IsAbsolute(b.host)
  {
  }

  lemma OnlyRoot(path: string)
    requires IsAbsolute(path)
    ensures Mark(path) == Mark("/") <==> path == "/"
  {
  }

  /** remove_binding_from_all_lists() unbinds that binding, and nothing else. */
  lemma RemoveKeeps(t: Table, b: Binding)
    requires Consistent(t)
    ensures Consistent(RemovedFromAll(t, b))
    ensures RootLast(t.guest) && b.guest != "/" ==> RootLast(RemovedFromAll(t, b).guest)
    ensures forall x :: x in RemovedFromAll(t, b).guest <==> x in t.guest && x != b
  {
    hide Ordered, AllWellFormed, RemovedFromAll, WellFormed;
    RemoveOrdered(t, b);
    var t' := RemovedFromAll(t, b);
    WellFormedElements(t.guest);
    WellFormedElements(t'.guest);
    WellFormedElements(t'.host);
    OrderedParts(t');
    SameElements(t'.guest, t'.host);
    if RootLast(t.guest) && b.guest != "/" {
      RootComesLast(t'.guest, t.guest[|t.guest| - 1]);
    }
  }
}
