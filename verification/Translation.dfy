/** Guest to host translation and back: substitute_binding() (path/binding.c) and
detranslate_path() (path/path.c). */
module Translation {
  import opened Basics
  import opened Paths
  import opened Bindings

  datatype Substitution =
    | NotBound                // -ENOENT
    | Symmetric               // 0: the path is left as it is
    | Substituted(path: string)  // 1

  function Length(b: Binding, side: Side): nat {
    |PathOf(b, side)|
  }

  function Other(side: Side): Side {
    match side case Guest => Host case Host => Guest
  }

  /** substitute_binding().  The error of substitute_path_prefix() is ignored: the path is then left
  as it is although 1 is returned. */
  function Substitute(t: Table, side: Side, path: string): Substitution {
    match Lookup(t, side, path)
    case None => NotBound
    case Some(b) =>
      if b.host == "" || b.guest == "" || !b.NeedSubstitution() then Symmetric
      else if Length(b, side) > |path| then Substituted(path)  // never for canonical paths
      else
        match SubstitutePathPrefix(path, Length(b, side), PathOf(b, Other(side)))
        case Success(p) => Substituted(p)
        case Failure(_) => Substituted(path)
  }

  /** The buffer after substitute_binding(). */
  function AfterSubstitution(t: Table, side: Side, path: string): string {
    match Substitute(t, side, path)
    case Substituted(p) => p
    case _ => path
  }

  function ToHost(t: Table, guestPath: string): string {
    AfterSubstitution(t, Guest, guestPath)
  }

  /** Whether detranslate_path() resolves the bindings of path, given the symlink it was read from. */
  function FollowsBinding(t: Table, path: string, referrer: Option<string>): bool {
    match referrer
    case None => true
    case Some(link) =>
      if ComparePaths("/proc", link) == Path1IsPrefix then true
      else if BelongsToGuestfs(t, link) then false
      else
        match (Lookup(t, Host, path), Lookup(t, Host, link))
        case (Some(b), Some(c)) => ComparePaths(b.host, c.host) == PathsAreEqual
        case _ => false
  }

  /** detranslate_path(), but for the links of /proc that the kernel generates. */
  function Detranslate(t: Table, path: string, referrer: Option<string>): Result<string> {
    if |path| >= PATH_MAX then Failure(ENAMETOOLONG)
    else if path == "" || path[0] != '/' then Success(path)
    else
      var s := if FollowsBinding(t, path, referrer) then Substitute(t, Host, path) else NotBound;
      match s
      case Symmetric => Success(path)
      case Substituted(p) => Success(p)
      case NotBound =>
        var root := Root(t);
        match ComparePaths(root, path)
        case Path1IsPrefix =>
          var prefixLength := if |root| == 1 then 0 else |root|;
          Success(if prefixLength <= |path| then path[prefixLength..] else path)
        case PathsAreEqual => Success("/")
        case _ => if referrer.None? then Failure(EPERM) else Success(path)
  }

  // ----- What translation means for components -----

  /** The components of a guest path, seen from the host: the binding's own, then what follows its guest path. */
  ghost function Rebased(b: Binding, path: seq<Name>): seq<Name>
    requires Prefix(Key(b, Guest), path)
  {
    Key(b, Host) + path[|Key(b, Guest)|..]
  }

  ghost predicate Fits(p: seq<Name>) {
    |Render(p)| + 1 < PATH_MAX
  }

  lemma SymmetricIsEqual(b: Binding)
    requires WellFormed(b)
    ensures b.host != "" && b.guest != ""
    ensures !b.NeedSubstitution() <==> Key(b, Host) == Key(b, Guest)
    ensures !b.NeedSubstitution() <==> b.host == b.guest
  {
    CompareCanonical(b.host, b.guest);
    RenderInjective(Key(b, Host), Key(b, Guest));
  }

  /** substitute_binding() replaces the components of the binding found, whichever the side. */
  lemma SubstituteFound(t: Table, side: Side, path: seq<Name>, b: Binding)
    requires WellFormed(b) && Prefix(Key(b, side), path) && Lookup(t, side, Render(path)) == Some(b)
    ensures var rebased := Key(b, Other(side)) + path[|Key(b, side)|..];
            Fits(rebased) ==>
              match Substitute(t, side, Render(path))
              case NotBound => false
              case Symmetric => rebased == path
              case Substituted(p) => p == Render(rebased)
  {
    hide Components, ComparePaths, Lookup, Body;
    SymmetricIsEqual(b);
    var rest := path[|Key(b, side)|..];
    assert path == Key(b, side) + rest;
    if b.NeedSubstitution() {
      SubstituteReplacesPrefix(Key(b, side), Key(b, Other(side)), rest);
    }
  }

  /** Does the buffer have room for what substitute_path_prefix() makes of a path of that length? */
  predicate HasRoom(b: Binding, side: Side, length: nat) {
    || Length(b, Other(side)) == 1
    || (if Length(b, side) == 1 then Length(b, Other(side)) + length < PATH_MAX
        else length - Length(b, side) + Length(b, Other(side)) < PATH_MAX)
  }

  /** The error of substitute_path_prefix() is lost: a path is translated as its binding says if and only if it has room
  for that, or is the same on both sides; otherwise it is left as it is, and said to be translated. */
  lemma SubstituteExactly(t: Table, side: Side, path: seq<Name>, b: Binding)
    requires WellFormed(b) && Prefix(Key(b, side), path) && Lookup(t, side, Render(path)) == Some(b)
    ensures var rebased, text := Key(b, Other(side)) + path[|Key(b, side)|..], Render(path);
            && (AfterSubstitution(t, side, text) == Render(rebased) <==>
                  HasRoom(b, side, |text|) || Key(b, side) == Key(b, Other(side)))
            && (!HasRoom(b, side, |text|) && Key(b, side) != Key(b, Other(side)) ==>
                  Substitute(t, side, text) == Substituted(text))
  {
    hide Components, ComparePaths, Lookup, Body;
    SymmetricIsEqual(b);
    var rest := path[|Key(b, side)|..];
    var rebased := Key(b, Other(side)) + rest;
    assert path == Key(b, side) + rest;
    RenderInjective(rebased, path);
    if b.NeedSubstitution() {
      SubstituteReplacesPrefix(Key(b, side), Key(b, Other(side)), rest);
    }
  }

  /** With a root of 4000 characters, a guest path of 100 is left as it is. */
  lemma LongPathIsNotTranslated(root: Binding, path: seq<Name>)
    requires WellFormed(root) && root.guest == "/" && |root.host| == 4000 && |Render(path)| == 100
    ensures var t := Table([root], [root]);
            Substitute(t, Guest, Render(path)) == Substituted(Render(path)) && Render(Key(root, Host) + path) != Render(path)
  {
    var t := Table([root], [root]);
    RootCovers(root, path);
    assert Key(root, Guest) == [] by { ComponentsOfRender([]); }
    assert path[0..] == path;
    RenderInjective(Key(root, Host) + path, path);
    SubstituteExactly(t, Guest, path, root);
  }

  lemma RootCovers(root: Binding, path: seq<Name>)
    requires root.guest == "/"
    ensures Lookup(Table([root], [root]), Guest, Render(path)) == Some(root)
  {
    hide Components;
    RenderAbsolute(path);
    assert Covers(root, Guest, Render(path));
  }

  /** A guest path and its translation: the deepest binding's host path, then the rest of the path. */
  lemma ToHostIsRebased(t: Table, path: seq<Name>)
    requires Valid(t)
    ensures Lookup(t, Guest, Render(path)).Some?
    ensures var b := Lookup(t, Guest, Render(path)).value;
            && b in t.guest && WellFormed(b) && Prefix(Key(b, Guest), path)
            && (Fits(Rebased(b, path)) ==> ToHost(t, Render(path)) == Render(Rebased(b, path)))
  {
    hide Components, ComparePaths, Lookup, Body, Sorted, DistinctKeys;
    ComponentsOfRender(path);
    LookupIsLongestPrefix(t, Render(path));
    var b := Lookup(t, Guest, Render(path)).value;
    var i :| 0 <= i < |t.guest| && t.guest[i] == b;
    SubstituteFound(t, Guest, path, b);
  }

  // ----- The round trip -----

  /** No host path contains another. */
  ghost predicate HostPathsApart(t: Table) {
    forall b, c :: b in t.guest && c in t.guest && Prefix(Key(b, Host), Key(c, Host)) ==> b == c
  }

  lemma RootIsBound(t: Table)
    requires Valid(t)
    ensures var root := t.guest[|t.guest| - 1];
            && root in t.guest && Root(t) == root.host && WellFormed(root) && Key(root, Guest) == []
            && root.guest == "/"
  {
    var root := t.guest[|t.guest| - 1];
    assert root.guest == Render(Key(root, Guest));
  }

  lemma ApartFromHost(t: Table, b: Binding, c: Binding, rest: seq<Name>)
    requires HostPathsApart(t) && b in t.guest && c in t.guest && b != c
    ensures !Prefix(Key(c, Host), Key(b, Host) + rest)
  {
    hide Components;
    if Prefix(Key(c, Host), Key(b, Host) + rest) {
      PrefixesCompare(Key(b, Host), Key(c, Host), Key(b, Host) + rest);
    }
  }

  lemma BelongsIsPrefix(t: Table, path: seq<Name>)
    requires Valid(t)
    ensures BelongsToGuestfs(t, Render(path)) <==> Prefix(Key(t.guest[|t.guest| - 1], Host), path)
    ensures Key(t.guest[|t.guest| - 1], Host) != [] ==> ComparePaths(Root(t), "/") != PathsAreEqual
  {
    hide ComparePaths, Sorted, DistinctKeys, Components;
    RootIsBound(t);
    ComponentsOfRender(path);
    ComponentsOfRender([]);
    CompareCanonical(Root(t), Render(path));
    CompareCanonical(Root(t), Render([]));
  }

  /** The binding found from the host side is the one the path was translated with. */
  lemma HostLookupFindsBack(t: Table, b: Binding, rest: seq<Name>)
    requires Valid(t) && HostPathsApart(t) && b in t.guest
    requires b != t.guest[|t.guest| - 1] && Key(t.guest[|t.guest| - 1], Host) != []
    ensures Lookup(t, Host, Render(Key(b, Host) + rest)) == Some(b)
  {
    hide Components, ComparePaths, Covers, Sorted, DistinctKeys, HostPathsApart, Body;
    var root := t.guest[|t.guest| - 1];
    var path := Key(b, Host) + rest;
    RootIsBound(t);
    ApartFromHost(t, b, root, rest);
    BelongsIsPrefix(t, path);
    ComponentsOfRender(path);
    var found := FirstCover(t.host, Host, Render(path));
    assert b in multiset(t.guest);
    InTable(t, b);
    CoversIsPrefix(b, Host, Render(path));
    if found.Some? {
      assert found.value in multiset(t.host);
      InTable(t, found.value);
      CoversIsPrefix(found.value, Host, Render(path));
      if found.value != b {
        ApartFromHost(t, b, found.value, rest);
      }
    }
  }

  lemma InTable(t: Table, b: Binding)
    requires Valid(t) && b in multiset(t.guest)
    ensures b in t.guest && b in t.host && WellFormed(b)
  {
    hide WellFormed, Sorted, DistinctKeys, RootLast;
    assert b in multiset(t.host);
    var i :| 0 <= i < |t.guest| && t.guest[i] == b;
  }

  lemma DetranslateFromRoot(t: Table, rest: seq<Name>)
    requires Valid(t) && Key(t.guest[|t.guest| - 1], Host) != []
    ensures var root := Key(t.guest[|t.guest| - 1], Host);
            Fits(root + rest) ==> Detranslate(t, Render(root + rest), None) == Success(Render(rest))
  {
    hide Components, ComparePaths, Sorted, DistinctKeys, Body, FirstCover;
    var root := Key(t.guest[|t.guest| - 1], Host);
    var path := root + rest;
    RootIsBound(t);
    BelongsIsPrefix(t, path);
    ComponentsOfRender(path);
    CompareCanonical(Root(t), Render(path));
    BodyConcat(root, rest);
    BodyEnd(root);
    BodyEnd(path);
    if rest != [] {
      assert Render(path)[|Body(root)|..] == Render(rest);
    }
  }

  /** Detranslating what substitute_binding(GUEST) made of a canonical guest path gives that path back.
  The length test is the one under which substitute_path_prefix() does substitute. */
  lemma TranslationRoundTrip(t: Table, path: seq<Name>)
    requires Valid(t) && HostPathsApart(t)
    requires Key(t.guest[|t.guest| - 1], Host) != []  // the root is not "/"
    requires Fits(path)
    ensures Lookup(t, Guest, Render(path)).Some?
    ensures var b := Lookup(t, Guest, Render(path)).value;
            && Prefix(Key(b, Guest), path)
            && (Fits(Rebased(b, path)) ==> Detranslate(t, ToHost(t, Render(path)), None) == Success(Render(path)))
  {
    hide Components, ComparePaths, Lookup, Sorted, DistinctKeys, Body, HostPathsApart;
    ToHostIsRebased(t, path);
    var b := Lookup(t, Guest, Render(path)).value;
    if Fits(Rebased(b, path)) {
      var rest := path[|Key(b, Guest)|..];
      assert path == Key(b, Guest) + rest;
      if b == t.guest[|t.guest| - 1] {
        RootIsBound(t);
        assert path == rest;
        DetranslateFromRoot(t, rest);
      } else {
        DetranslateFromBinding(t, b, rest);
      }
    }
  }

  lemma DetranslateFromBinding(t: Table, b: Binding, rest: seq<Name>)
    requires Valid(t) && HostPathsApart(t) && b in t.guest
    requires b != t.guest[|t.guest| - 1] && Key(t.guest[|t.guest| - 1], Host) != []
    requires Fits(Key(b, Guest) + rest) && Fits(Key(b, Host) + rest)
    ensures Detranslate(t, Render(Key(b, Host) + rest), None) == Success(Render(Key(b, Guest) + rest))
  {
    hide Components, ComparePaths, Lookup, Valid, Body, HostPathsApart, Root;
    var hostPath := Key(b, Host) + rest;
    HostLookupFindsBack(t, b, rest);
    assert b in multiset(t.guest);
    InTable(t, b);
    assert hostPath[|Key(b, Host)|..] == rest;
    SubstituteFound(t, Host, hostPath, b);
    RenderAbsolute(hostPath);
  }

  // ----- What a link names in the guest -----

  /** Is that text of an absolute path the one of a directory, or of something in it?  Only the separator behind the
  directory is looked at. */
  predicate Within(text: string, dir: seq<Name>) {
    var d := Body(dir);
    |d| <= |text| && text[..|d|] == d && (|d| < |text| ==> text[|d|] == '/')
  }

  predicate StrictlyWithin(text: string, dir: seq<Name>) {
    Within(text, dir) && |text| > |Body(dir)| + 1
  }

  /** The same text in another directory. */
  function Moved(text: string, from: seq<Name>, to: seq<Name>): string
    requires Within(text, from)
  {
    var moved := Body(to) + (if text == "/" then "" else text[|Body(from)|..]);
    if moved == "" then "/" else moved
  }

  /** No binding of the list is deeper on the host, and none before it is as deep. */
  ghost predicate IsDeepest(list: seq<Binding>, text: string, k: nat) {
    && k < |list| && Within(text, Key(list[k], Host))
    && forall j {:trigger Key(list[j], Host)} :: 0 <= j < |list| && Within(text, Key(list[j], Host)) ==>
         Prefix(Key(list[j], Host), Key(list[k], Host)) && (j < k ==> Key(list[j], Host) != Key(list[k], Host))
  }

  ghost function DeepestOnHost(t: Table, text: string): Option<Binding> {
    if exists k: nat :: IsDeepest(t.host, text, k) then
      var k: nat :| IsDeepest(t.host, text, k);
      Some(t.host[k])
    else None
  }

  /** Is an absolute target outside of the root named through its binding?  For the links of /proc; and from a link outside
  of the root, when both are in bindings of the same host path. */
  ghost predicate NamesBinding(t: Table, link: string, target: string) {
    var b, c := DeepestOnHost(t, target), DeepestOnHost(t, link);
    b.Some? &&
    (|| StrictlyWithin(link, ["proc"])
     || (!Within(link, Components(Root(t))) && c.Some? && Key(b.value, Host) == Key(c.value, Host)))
  }

  /** What the contents of a link are in the guest, given the host path of that link: relative targets are what they are;
  those in the root, unless it is "/", lose it; and those that name a binding get its guest path, if there is room. */
  ghost function Seen(t: Table, link: string, target: string): string {
    var root := Components(Root(t));
    if !IsAbsolute(target) then target
    else if root != [] && Within(target, root) then Moved(target, root, [])
    else if NamesBinding(t, link, target) then
      var b := DeepestOnHost(t, target).value;
      if Within(target, Key(b, Host)) && HasRoom(b, Host, |target|) then Moved(target, Key(b, Host), Key(b, Guest)) else target
    else target
  }

  lemma SeenNonempty(t: Table, link: string, target: string)
    requires target != ""
    ensures Seen(t, link, target) != ""
  {
    hide NamesBinding, DeepestOnHost, Within;
  }

  lemma CoversWithin(b: Binding, side: Side, text: string)
    requires WellFormed(b) && IsAbsolute(text)
    ensures Covers(b, side, text) <==> Within(text, Key(b, side))
  {
    WellFormedIsNamed(b);
    CoversText(b, side, text);
    MarkWithin(PathOf(b, side), text);
  }

  lemma MarkWithin(path: string, text: string)
    requires Canonical(path) && IsAbsolute(text)
    ensures Prefix(Mark(path), Mark(text)) <==> Within(text, Components(path))
    ensures Mark(path) == Mark(text) <==> Within(text, Components(path)) && !StrictlyWithin(text, Components(path))
  {
    hide Components, Body, Mark;
    var d := Body(Components(path));
    MarkOfRender(Components(path));
    if d != "" {
      BodyEnd(Components(path)) by { BodyOfNone(); }
    }
    WithinMark(d, text);
  }

  lemma WithinMark(d: string, text: string)
    requires IsAbsolute(text) && (d != "" ==> d[|d| - 1] != '/')
    ensures Prefix(d + "/", Mark(text)) <==> |d| <= |text| && text[..|d|] == d && (|d| < |text| ==> text[|d|] == '/')
    ensures d + "/" == Mark(text) <==>
              (|d| <= |text| && text[..|d|] == d && (|d| < |text| ==> text[|d|] == '/')) && |text| <= |d| + 1
  {
    var m, w := d + "/", Mark(text);
    assert m[..|d|] == d && m[|d|] == '/';
    if |d| < |text| && text[..|d|] == d && text[|d|] == '/' {
      assert w[..|m|] == text[..|d| + 1] == m;
    } else if |d| == |text| && text == d {
      assert text[..|d|] == text;
    }
    if Prefix(m, w) {
      assert w[..|d|] == m[..|d|] && w[|d|] == '/';
    }
  }

  lemma BodyOfNone()
    ensures Body([]) == ""
  {
  }

  /** The first binding that contains the path is that one. */
  lemma FirstIsDeepest(t: Table, text: string)
    requires Valid(t) && IsAbsolute(text)
    ensures FirstCover(t.host, Host, text) == DeepestOnHost(t, text)
  {
    hide Valid, Within, Covers;
    HostCovers(t, text);
    match FirstCover(t.host, Host, text)
    case None =>
      forall k: nat ensures !IsDeepest(t.host, text, k) {
        if k < |t.host| {
          assert t.host[k] in t.host;
        }
      }
    case Some(b) =>
      var k := FindFirstCover(t.host, text);
      DeepestIsFirst(t, text, k);
  }

  lemma HostCovers(t: Table, text: string)
    requires Valid(t) && IsAbsolute(text)
    ensures forall b :: b in t.host ==> WellFormed(b) && (Covers(b, Host, text) <==> Within(text, Key(b, Host)))
  {
    hide Within, Covers, Components, Sorted, DistinctMarks, WellFormed;
    forall b | b in t.host ensures WellFormed(b) && (Covers(b, Host, text) <==> Within(text, Key(b, Host))) {
      var i :| 0 <= i < |t.host| && t.host[i] == b;
      CoversWithin(b, Host, text);
    }
  }

  lemma {:induction false} FindFirstCover(list: seq<Binding>, text: string) returns (k: nat)
    requires FirstCover(list, Host, text).Some?
    ensures k < |list| && FirstCover(list, Host, text) == Some(list[k]) && Covers(list[k], Host, text)
    ensures forall j :: 0 <= j < k ==> !Covers(list[j], Host, text)
  {
    hide Covers;
    if Covers(list[0], Host, text) {
      return 0;
    }
    k := FindFirstCover(list[1..], text);
    assert forall j :: 0 < j < k + 1 ==> list[j] == list[1..][j - 1];
    k := k + 1;
  }

  lemma DeepestIsFirst(t: Table, text: string, k: nat)
    requires Valid(t) && IsAbsolute(text)
    requires k < |t.host| && FirstCover(t.host, Host, text) == Some(t.host[k])
    requires forall j :: 0 <= j < k ==> !Covers(t.host[j], Host, text)
    ensures DeepestOnHost(t, text) == Some(t.host[k])
  {
    hide Valid, Within, Covers, FirstCover, IsDeepest;
    HostCovers(t, text);
    forall j | 0 <= j < |t.host| && Within(text, Key(t.host[j], Host)) ensures Prefix(Key(t.host[j], Host), Key(t.host[k], Host)) {
      NoDeeper(t, text, j, k);
    }
    CoverIsDeepest(t, text, k);
    forall i: nat | IsDeepest(t.host, text, i) ensures i == k {
      OneDeepest(t.host, text, i, k);
    }
  }

  /** The first element that contains the text is a deepest one, as no element before it does. */
  lemma CoverIsDeepest(t: Table, text: string, k: nat)
    requires k < |t.host| && Covers(t.host[k], Host, text)
    requires forall b :: b in t.host ==> (Covers(b, Host, text) <==> Within(text, Key(b, Host)))
    requires forall j :: 0 <= j < k ==> !Covers(t.host[j], Host, text)
    requires forall j :: 0 <= j < |t.host| && Within(text, Key(t.host[j], Host)) ==> Prefix(Key(t.host[j], Host), Key(t.host[k], Host))
    ensures IsDeepest(t.host, text, k)
  {
    hide Within, Covers, Prefix;
    assert t.host[k] in t.host;
    forall j | 0 <= j < |t.host| && Within(text, Key(t.host[j], Host)) ensures !(j < k) {
      assert t.host[j] in t.host;
    }
  }

  lemma NoDeeper(t: Table, text: string, j: nat, k: nat)
    requires Valid(t) && IsAbsolute(text) && j < |t.host| && k < |t.host|
    requires FirstCover(t.host, Host, text) == Some(t.host[k]) && Within(text, Key(t.host[j], Host))
    ensures Prefix(Key(t.host[j], Host), Key(t.host[k], Host))
  {
    hide Valid, Within, Covers, Components, Mark, FirstCover;
    HostCovers(t, text);
    ValidHost(t);
    FirstCoverIsDeepest(t.host, Host, text);
    assert t.host[j] in t.host && t.host[k] in t.host;
    MarksOfCanonical(t.host[j].host, t.host[k].host);
  }

  lemma OneDeepest(list: seq<Binding>, text: string, i: nat, k: nat)
    requires IsDeepest(list, text, i) && IsDeepest(list, text, k)
    ensures i == k
  {
    hide Within, Components;
    var a, b := Key(list[i], Host), Key(list[k], Host);
    assert Prefix(a, b) && Prefix(b, a);
    PrefixesCompare(a, b, b);
  }

  lemma ValidHost(t: Table)
    requires Valid(t)
    ensures Sorted(t.host, Host) && AllNamed(t.host)
  {
    hide Sorted, AllNamed, DistinctMarks, AllWellFormed, RootLast;
  }

  /** What substitute_path_prefix() makes of a text, canonical or not, in a binding. */
  lemma SubstituteMoves(b: Binding, text: string)
    requires WellFormed(b) && IsAbsolute(text) && Within(text, Key(b, Host)) && b.host != b.guest
    ensures |b.host| <= |text|
    ensures SubstitutePathPrefix(text, |b.host|, b.guest) ==
            if HasRoom(b, Host, |text|) then Success(Moved(text, Key(b, Host), Key(b, Guest))) else Failure(ENAMETOOLONG)
  {
    hide Components, Body;
    RenderedBody(b.host);
    RenderedBody(b.guest);
    var from, to := Body(Key(b, Host)), Body(Key(b, Guest));
    assert text[0..] == text && "/" + text[..0] == "/" && to + "" == to && "" + text[|from|..] == text[|from|..];
    assert text != "/" ==> (from != "" ==> |text| > 1);
  }

  lemma RenderedBody(path: string)
    requires Canonical(path)
    ensures path == if Body(Components(path)) == "" then "/" else Body(Components(path))
    ensures Body(Components(path)) == "" || |Body(Components(path))| >= 2
  {
    hide Components;
    if Components(path) != [] {
      BodyEnd(Components(path));
    }
  }

  /** substitute_binding() of a host path that is not in the root. */
  lemma SubstituteSees(t: Table, text: string)
    requires Valid(t) && IsAbsolute(text)
    requires Components(Root(t)) == [] || !Within(text, Components(Root(t)))
    ensures Lookup(t, Host, text) == DeepestOnHost(t, text)
    ensures match DeepestOnHost(t, text)
            case None => Substitute(t, Host, text) == NotBound
            case Some(b) =>
              && WellFormed(b) && Within(text, Key(b, Host))
              && match Substitute(t, Host, text)
                 case NotBound => false
                 case Symmetric => Moved(text, Key(b, Host), Key(b, Guest)) == text
                 case Substituted(p) => p == if HasRoom(b, Host, |text|) then Moved(text, Key(b, Host), Key(b, Guest)) else text
  {
    NotSkipped(t, text);
    FirstIsDeepest(t, text);
    hide Valid, Within, Covers, Components, FirstCover, Skipped, DeepestOnHost, Moved, ComparePaths, WellFormed, SubstitutePathPrefix;
    match FirstCover(t.host, Host, text)
    case None =>
    case Some(b) =>
      HostCovers(t, text);
      SubstituteFoundText(t, text, b);
  }

  lemma SubstituteFoundText(t: Table, text: string, b: Binding)
    requires WellFormed(b) && IsAbsolute(text) && Within(text, Key(b, Host)) && Lookup(t, Host, text) == Some(b)
    ensures match Substitute(t, Host, text)
            case NotBound => false
            case Symmetric => Moved(text, Key(b, Host), Key(b, Guest)) == text
            case Substituted(p) => p == if HasRoom(b, Host, |text|) then Moved(text, Key(b, Host), Key(b, Guest)) else text
  {
    SymmetricIsEqual(b);
    hide Components, Body, Lookup, ComparePaths, Canonical, SubstitutePathPrefix;
    if b.host == b.guest {
      MovedNowhere(text, Key(b, Host));
    } else {
      SubstituteMoves(b, text);
    }
  }

  lemma MovedNowhere(text: string, dir: seq<Name>)
    requires Within(text, dir) && IsAbsolute(text)
    ensures Moved(text, dir, dir) == text
  {
    if dir != [] {
      BodyEnd(dir);
    }
    hide Body;
    assert text == text[..|Body(dir)|] + text[|Body(dir)|..];
  }

  lemma NotSkipped(t: Table, text: string)
    requires Valid(t) && IsAbsolute(text)
    ensures Skipped(t, Host, text) <==> Components(Root(t)) != [] && Within(text, Components(Root(t)))
    ensures Canonical(Root(t)) && (BelongsToGuestfs(t, text) <==> Within(text, Components(Root(t))))
  {
    RootIsBound(t);
    hide Components, ComparePaths, Within, Body, Mark, Valid;
    CompareMarks(Root(t), text);
    CompareMarks(Root(t), "/");
    MarkWithin(Root(t), text);
    MarkWithin(Root(t), "/");
    RootItself(Root(t));
  }

  lemma RootItself(path: string)
    requires Canonical(path)
    ensures path != "" && (Components(path) == [] <==> Within("/", Components(path)))
    ensures !StrictlyWithin("/", Components(path))
  {
    hide Components;
    if Components(path) != [] {
      BodyEnd(Components(path));
    }
  }

  /** The test of detranslate_path() for a link. */
  lemma FollowsNamed(t: Table, link: string, target: string)
    requires Valid(t) && IsAbsolute(link) && IsAbsolute(target)
    requires Components(Root(t)) == [] || !Within(target, Components(Root(t)))
    ensures (FollowsBinding(t, target, Some(link)) && Lookup(t, Host, target).Some?) <==> NamesBinding(t, link, target)
  {
    hide Valid, Components, ComparePaths, Within, DeepestOnHost, Lookup, Mark, BelongsToGuestfs, StrictlyWithin;
    var root := Components(Root(t));
    ProcIsCanonical();
    NotSkipped(t, link);
    UnderProc(link);
    SubstituteSees(t, target);
    if !Within(link, root) {
      SubstituteSees(t, link);
      if DeepestOnHost(t, target).Some? && DeepestOnHost(t, link).Some? {
        SameHostPath(DeepestOnHost(t, target).value, DeepestOnHost(t, link).value);
      }
    }
  }

  lemma SameHostPath(b: Binding, c: Binding)
    requires WellFormed(b) && WellFormed(c)
    ensures ComparePaths(b.host, c.host) == PathsAreEqual <==> Key(b, Host) == Key(c, Host)
  {
    CompareCanonical(b.host, c.host);
  }

  lemma ProcIsCanonical()
    ensures Canonical("/proc") && Components("/proc") == ["proc"]
  {
    assert Body(["proc"]) == "/proc";
    ComponentsOfBody(["proc"]);
  }

  lemma UnderProc(link: string)
    requires IsAbsolute(link)
    ensures ComparePaths("/proc", link) == Path1IsPrefix <==> StrictlyWithin(link, ["proc"])
  {
    ProcIsCanonical();
    hide Components, ComparePaths, Within, Body, Mark;
    CompareMarks("/proc", link);
    MarkWithin("/proc", link);
  }

  /** detranslate_path() of the contents of a link: what the guest sees. */
  lemma DetranslatedIsSeen(t: Table, link: string, target: string)
    requires Valid(t) && IsAbsolute(link)
    ensures Detranslate(t, target, Some(link)) ==
            if |target| >= PATH_MAX then Failure(ENAMETOOLONG) else Success(Seen(t, link, target))
  {
    if IsAbsolute(target) && |target| < PATH_MAX {
      var root := Components(Root(t));
      if root != [] && Within(target, root) {
        SeenInRoot(t, link, target);
      } else {
        SeenElsewhere(t, link, target);
      }
    }
  }

  lemma RootRemoved(t: Table, target: string)
    requires Valid(t) && IsAbsolute(target)
    ensures ComparePaths(Root(t), target) ==
            if !Within(target, Components(Root(t))) then ComparePaths(Root(t), target)
            else if StrictlyWithin(target, Components(Root(t))) then Path1IsPrefix else PathsAreEqual
    ensures ComparePaths(Root(t), target) == Path1IsPrefix || ComparePaths(Root(t), target) == PathsAreEqual <==>
            Within(target, Components(Root(t)))
    ensures Root(t) != "" && Canonical(Root(t))
  {
    RootIsBound(t);
    RootItself(Root(t));
    hide Components, ComparePaths, Body, Mark, Valid, Within;
    CompareMarks(Root(t), target);
    MarkWithin(Root(t), target);
  }

  lemma SeenInRoot(t: Table, link: string, target: string)
    requires Valid(t) && IsAbsolute(target) && Components(Root(t)) != [] && Within(target, Components(Root(t)))
    requires |target| < PATH_MAX
    ensures Detranslate(t, target, Some(link)) == Success(Seen(t, link, target))
  {
    NotSkipped(t, target);
    RootRemoved(t, target);
    hide Components, ComparePaths, Valid, FirstCover, FollowsBinding, Skipped, Body, NamesBinding, DeepestOnHost;
    RenderedBody(Root(t));
    BodyEnd(Components(Root(t)));
    assert Body([]) == "" by { BodyOfNone(); }
    assert Root(t) == Body(Components(Root(t)));
    var rest := target[|Root(t)|..];
    assert "" + rest == rest;
    assert Moved(target, Components(Root(t)), []) == if rest == "" then "/" else rest;
    assert StrictlyWithin(target, Components(Root(t))) || rest == "" || rest == "/";
    assert Substitute(t, Host, target) == NotBound;
  }

  lemma SeenElsewhere(t: Table, link: string, target: string)
    requires Valid(t) && IsAbsolute(link) && IsAbsolute(target) && |target| < PATH_MAX
    requires Components(Root(t)) == [] || !Within(target, Components(Root(t)))
    ensures Detranslate(t, target, Some(link)) == Success(Seen(t, link, target))
  {
    hide Components, ComparePaths, Valid, Lookup, FollowsBinding, Within, Body, NamesBinding, DeepestOnHost, Substitute, HasRoom, Moved;
    FollowsNamed(t, link, target);
    SubstituteSees(t, target);
    RootRemoved(t, target);
    if Components(Root(t)) == [] {
      InSlash(t, target);
    }
  }

  /** Under the root "/" nothing is removed. */
  lemma InSlash(t: Table, target: string)
    requires Valid(t) && IsAbsolute(target) && Components(Root(t)) == [] && Canonical(Root(t))
    ensures Root(t) == "/" && (StrictlyWithin(target, Components(Root(t))) || target == "/") && target[0..] == target
  {
    hide Components;
  }

  /** What a host path is in the guest, when it is of no link: nothing, when neither the root nor a binding holds it. */
  ghost function SeenOnHost(t: Table, path: string): Option<string> {
    var root, b := Components(Root(t)), DeepestOnHost(t, path);
    if root != [] && Within(path, root) then Some(Moved(path, root, []))
    else if b.None? then None
    else if Within(path, Key(b.value, Host)) && HasRoom(b.value, Host, |path|) then
      Some(Moved(path, Key(b.value, Host), Key(b.value, Guest)))
    else Some(path)
  }

  /** detranslate_path() of any other host path. */
  lemma DetranslatedOnHost(t: Table, path: string)
    requires Valid(t) && IsAbsolute(path)
    ensures Detranslate(t, path, None) ==
            if |path| >= PATH_MAX then Failure(ENAMETOOLONG)
            else match SeenOnHost(t, path)
                 case Some(seen) => Success(seen)
                 case None => Failure(EPERM)
  {
    hide Components, ComparePaths, Valid, Lookup, Within, Body, DeepestOnHost, Substitute, HasRoom, Moved;
    var root := Components(Root(t));
    if |path| >= PATH_MAX {
    } else if root != [] && Within(path, root) {
      OnHostInRoot(t, path);
    } else {
      SubstituteSees(t, path);
      RootRemoved(t, path);
      if root == [] {
        RootHoldsAll(t, path);
      }
    }
  }

  lemma OnHostInRoot(t: Table, path: string)
    requires Valid(t) && IsAbsolute(path) && |path| < PATH_MAX && Components(Root(t)) != [] && Within(path, Components(Root(t)))
    ensures Detranslate(t, path, None) == Success(Moved(path, Components(Root(t)), []))
  {
    hide Valid, Components, Within, Moved, FollowsBinding, Body, NamesBinding, DeepestOnHost, ComparePaths, Substitute;
    SeenInRoot(t, "/", path);
    NotBoundInRoot(t, path);
    RootRemoved(t, path);
  }

  lemma NotBoundInRoot(t: Table, path: string)
    requires Valid(t) && IsAbsolute(path) && Components(Root(t)) != [] && Within(path, Components(Root(t)))
    ensures Substitute(t, Host, path) == NotBound
  {
    hide Valid, Components, Within, FirstCover, Skipped;
    NotSkipped(t, path);
  }

  lemma AllInSlash(path: string)
    requires IsAbsolute(path)
    ensures Within(path, [])
  {
    BodyOfNone();
  }

  lemma RootHoldsAll(t: Table, path: string)
    requires Valid(t) && IsAbsolute(path) && Components(Root(t)) == []
    ensures DeepestOnHost(t, path).Some?
  {
    hide Valid, Components, Within, DeepestOnHost, FirstCover, Covers;
    RootIsBound(t);
    var root := t.guest[|t.guest| - 1];
    assert root in multiset(t.guest);
    InTable(t, root);
    FirstIsDeepest(t, path);
    HostCovers(t, path);
    AllInSlash(path);
    assert Covers(root, Host, path);
  }

  lemma WithinNames(dir: seq<Name>, path: seq<Name>)
    ensures Within(Render(path), dir) <==> Prefix(dir, path)
    ensures StrictlyWithin(Render(path), dir) <==> Prefix(dir, path) && dir != path
  {
    ComponentsOfRender(dir);
    ComponentsOfRender(path);
    RenderAbsolute(path);
    hide Components, Within, Body, Render, Mark;
    MarkWithin(Render(dir), Render(path));
    MarksOfCanonical(Render(dir), Render(path));
  }

  lemma MovedNames(from: seq<Name>, to: seq<Name>, rest: seq<Name>)
    ensures Within(Render(from + rest), from)
    ensures Moved(Render(from + rest), from, to) == Render(to + rest)
  {
    WithinNames(from, from + rest);
    BodyConcat(from, rest);
    BodyConcat(to, rest);
    if from + rest != [] {
      BodyEnd(from + rest);
    }
    if to + rest != [] {
      BodyEnd(to + rest);
    }
    hide Body;
    assert Body(from + rest)[|Body(from)|..] == Body(rest);
    if from + rest == [] {
      assert from == [] && rest == [] && to + rest == to;
      BodyOfNone();
    }
  }

  /** In components: the deepest binding on the host. */
  lemma DeepestNames(t: Table, path: seq<Name>)
    ensures match DeepestOnHost(t, Render(path))
            case Some(b) =>
              && b in t.host && Prefix(Key(b, Host), path)
              && forall c :: c in t.host && Prefix(Key(c, Host), path) ==> Prefix(Key(c, Host), Key(b, Host))
            case None => Valid(t) ==> forall c :: c in t.host ==> !Prefix(Key(c, Host), path)
  {
    hide Components, Within, Body, Render, Valid;
    forall c | c in t.host ensures Within(Render(path), Key(c, Host)) <==> Prefix(Key(c, Host), path) {
      WithinNames(Key(c, Host), path);
    }
    if DeepestOnHost(t, Render(path)).None? && Valid(t) {
      RenderAbsolute(path);
      FirstIsDeepest(t, Render(path));
      HostCovers(t, Render(path));
    }
  }

  /** In components, of a target that is a canonical path. */
  lemma SeenNames(t: Table, link: seq<Name>, target: seq<Name>)
    requires Valid(t)
    ensures var root := Components(Root(t));
            var b, c := DeepestOnHost(t, Render(target)), DeepestOnHost(t, Render(link));
            && (b.Some? ==> Prefix(Key(b.value, Host), target))
            && Seen(t, Render(link), Render(target)) ==
               Render(if root != [] && Prefix(root, target) then target[|root|..]
                      else if && b.Some? && HasRoom(b.value, Host, |Render(target)|)
                              && (|| (Prefix(["proc"], link) && link != ["proc"])
                                  || (!Prefix(root, link) && c.Some? && Key(b.value, Host) == Key(c.value, Host)))
                      then Key(b.value, Guest) + target[|Key(b.value, Host)|..]
                      else target)
  {
    hide Components, Within, StrictlyWithin, Body, Render, DeepestOnHost, Moved, HasRoom;
    var root := Components(Root(t));
    var b := DeepestOnHost(t, Render(target));
    RenderAbsolute(target);
    DeepestNames(t, target);
    WithinNames(root, target);
    WithinNames(root, link);
    WithinNames(["proc"], link);
    if Prefix(root, target) {
      MovedWhole(root, [], target);
    }
    if b.Some? {
      MovedWhole(Key(b.value, Host), Key(b.value, Guest), target);
    }
  }

  lemma MovedWhole(from: seq<Name>, to: seq<Name>, path: seq<Name>)
    requires Prefix(from, path)
    ensures Within(Render(path), from) && Moved(Render(path), from, to) == Render(to + path[|from|..])
    ensures [] + path[|from|..] == path[|from|..]
  {
    hide Within, Moved, Render;
    assert path == from + path[|from|..];
    MovedNames(from, to, path[|from|..]);
  }

  /** So a link in the root file system names what is in it: "/etc/x" there is the "/etc/x" of the guest. */
  lemma LinkInRoot(t: Table, link: seq<Name>, target: seq<Name>)
    requires Valid(t) && Prefix(Components(Root(t)), link) && !(Prefix(["proc"], link) && link != ["proc"])
    ensures var root := Components(Root(t));
            Seen(t, Render(link), Render(target)) == Render(if Prefix(root, target) then target[|root|..] else target)
  {
    hide Components, Render, DeepestOnHost, Seen, Prefix, HasRoom;
    SeenNames(t, link, target);
    assert target[0..] == target;
  }

  lemma RenderAbsolute(path: seq<Name>)
    ensures Render(path) != "" && Render(path)[0] == '/'
  {
  }
}
