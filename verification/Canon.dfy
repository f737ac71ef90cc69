/** path/canon.c: canonicalize() against POSIX pathname resolution. */
module Canon {
  import opened Basics
  import opened Paths
  import opened Bindings
  import opened Translation
  import opened Resolution

  /** MAXSYMLINKS of <sys/param.h>. */
  const MAXSYMLINKS: nat := 20

  /** What lstat(2) and readlink(2) say of a host path. */
  type HostFs = string -> Node

  /** What any kernel guarantees of them: no link is empty, and lstat("dir/") is not about a link. */
  ghost predicate Posix(host: HostFs) {
    forall p :: host(p).Symlink? ==> host(p).target != "" && p != "" && p[|p| - 1] != '/'
  }

  /** The guest's view of the host file system through its bindings: the nodes of the host, and in the links what they name
  in the guest. */
  ghost function View(t: Table, host: HostFs): GuestFs {
    (path: seq<Name>) => ViewAt(t, host, Render(path))
  }

  ghost function ViewAt(t: Table, host: HostFs, guestPath: string): Node {
    var hostPath := ToHost(t, guestPath);
    match host(hostPath)
    case Symlink(target) => Symlink(Seen(t, hostPath, target))
    case node => node
  }

  /** substitute_binding_stat(): is this component a link?  A non-final one has to be a directory or a link. */
  function StatComponent(t: Table, host: HostFs, finality: Finality, guestPath: string): Result<bool> {
    if Substitute(t, Guest, guestPath).NotBound? then Failure(ENOENT)
    else
      var node := host(ToHost(t, guestPath));
      if finality.NotFinal? && node.Missing? then Failure(ENOENT)
      else if finality.NotFinal? && node.File? then Failure(ENOTDIR)
      else Success(node.Symlink?)
  }

  /** readlink(2), then detranslate_path(). */
  function ReadLink(t: Table, host: HostFs, hostPath: string): Result<string> {
    match host(hostPath)
    case Symlink(target) =>
      if |target| >= PATH_MAX then Failure(ENAMETOOLONG) else Detranslate(t, target, Some(hostPath))
    case _ => Failure(EINVAL)
  }

  // ----- The bound on dereferences -----

  function Pow2(n: nat): (p: nat)
    ensures p >= 1
    ensures n > 0 ==> p >= 2
  {
    if n == 0 then 1 else 2 * Pow2(n - 1)
  }

  /** Links that a call at this recursion level dereferences at most. */
  function DerefBound(level: nat): nat {
    if level > MAXSYMLINKS then 0 else Pow2(MAXSYMLINKS - level + 1) - 1
  }

  // ----- Facts about the source's own checks -----

  /** A text with a final separator keeps it through the bindings. */
  lemma FinalSeparatorKept(t: Table, cs: seq<Name>)
    requires Valid(t) && cs != []
    ensures var p := ToHost(t, Render(cs) + "/"); p != "" && p[|p| - 1] == '/'
  {
    hide Components, Body, Render, Canonical, Covers, Lookup, Valid, WellFormed, SubstitutePathPrefix;
    var path := Render(cs) + "/";
    var found := Lookup(t, Guest, path);
    FoundCovers(t, path);
    if found.Some? {
      CoveringBinding(found.value, cs);
      SubstituteKeepsEnd(path, |found.value.guest|, found.value.host);
    }
  }

  lemma FoundCovers(t: Table, path: string)
    requires Valid(t)
    ensures var found := Lookup(t, Guest, path); found.Some? ==> WellFormed(found.value) && Covers(found.value, Guest, path)
  {
    hide ComparePaths, Canonical, Components, Sorted, DistinctKeys;
    var found := Lookup(t, Guest, path);
    if found.Some? {
      var i :| 0 <= i < |t.guest| && t.guest[i] == found.value;
    }
  }

  lemma SubstituteKeepsEnd(path: string, oldLength: nat, newPrefix: string)
    requires oldLength < |path| && path[|path| - 1] == '/'
    requires oldLength == 1 ==> |path| > 1
    ensures var r := SubstitutePathPrefix(path, oldLength, newPrefix);
            r.Success? ==> r.value != "" && r.value[|r.value| - 1] == '/'
  {
  }

  lemma CoveringBinding(b: Binding, cs: seq<Name>)
    requires WellFormed(b) && cs != [] && Covers(b, Guest, Render(cs) + "/")
    ensures |b.guest| < |Render(cs) + "/"|
  {
    hide Components, ComparePaths, Canonical, Body, Render;
    CoveringIsShorter(b.guest, cs);
  }

  lemma CoveringIsShorter(ref: string, cs: seq<Name>)
    requires Canonical(ref) && cs != []
    requires var c := ComparePaths(ref, Render(cs) + "/"); c == PathsAreEqual || c == Path1IsPrefix
    ensures |ref| < |Render(cs) + "/"|
  {
    hide Components;
    ComparePathsSound(ref, Render(cs) + "/", Components(ref), cs);
    RenderLength(Components(ref), cs);
  }

  lemma StatIsView(t: Table, host: HostFs, finality: Finality, path: seq<Name>)
    ensures var r := StatComponent(t, host, finality, Render(path)); var node := View(t, host)(path);
            r.Success? ==> r.value == node.Symlink? && (finality.NotFinal? ==> node.Symlink? || node.Directory?)
  {
    hide Components, ComparePaths;
  }

  /** What is read of a link is what the guest sees in it, unless it fits in no buffer. */
  lemma ReadLinkIsView(t: Table, host: HostFs, path: seq<Name>)
    requires Valid(t) && Posix(host) && View(t, host)(path).Symlink?
    ensures var hostPath := ToHost(t, Render(path));
            && host(hostPath).Symlink?
            && ReadLink(t, host, hostPath) ==
               if |host(hostPath).target| >= PATH_MAX then Failure(ENAMETOOLONG) else Success(View(t, host)(path).target)
    ensures View(t, host)(path).target != ""
  {
    hide Components, ComparePaths, Detranslate, ToHost, Seen, Valid, Render;
    var hostPath := ToHost(t, Render(path));
    ToHostAbsolute(t, path);
    SeenNonempty(t, hostPath, host(hostPath).target);
    DetranslatedIsSeen(t, hostPath, host(hostPath).target);
  }

  lemma ToHostAbsolute(t: Table, path: seq<Name>)
    requires Valid(t)
    ensures IsAbsolute(ToHost(t, Render(path)))
  {
    hide Components, ComparePaths, Lookup, Valid, Body, HasRoom;
    RenderAbsolute(path);
    ToHostIsRebased(t, path);
    var b := Lookup(t, Guest, Render(path)).value;
    SubstituteExactly(t, Guest, path, b);
    RenderAbsolute(Key(b, Host) + path[|Key(b, Guest)|..]);
  }

  // ----- canonicalize -----

  /** How the source says it ended the path, from the path itself. */
  function ExpectedFinality(userPath: string): Finality {
    var cs := Components(userPath);
    if cs == [] then FinalNormal
    else if cs[|cs| - 1] == "." then FinalDot
    else if cs[|cs| - 1] == ".." || userPath[|userPath| - 1] == '/' then FinalSlash
    else FinalNormal
  }

  /** Is the last link to be followed: asked for by the caller, or by a final separator. */
  predicate Follows(userPath: string, derefFinal: bool) {
    derefFinal || (userPath != "" && userPath[|userPath| - 1] == '/')
  }

  function Base(userPath: string, guestPath: string): seq<Name> {
    if IsAbsolute(userPath) then [] else Components(guestPath)
  }

  /** What the loop of canonicalize() keeps: resolution of the whole path has come to `at`. */
  ghost predicate Progress(fs: GuestFs, base: seq<Name>, path: seq<Name>, at: seq<Name>, todo: seq<Name>,
                           follows: bool, final: bool, n: nat)
  {
    && NoDots(at) && CleanAbove(fs, at) && (follows || !final ==> Clean(fs, at))
    && Leads(fs, base, path, at, todo, follows, todo == [], n)
  }

  lemma ProgressDots(fs: GuestFs, base: seq<Name>, path: seq<Name>, at: seq<Name>, c: Name, todo: seq<Name>,
                     follows: bool, n: nat, at': seq<Name>)
    requires Progress(fs, base, path, at, [c] + todo, follows, false, n)
    requires (c == "." && at' == at) || (c == ".." && at' == Parent(at))
    ensures Progress(fs, base, path, at', todo, follows, todo == [], n)
  {
    hide Leads;
    CleanParent(fs, at);
    LeadsComponent(fs, base, path, at, c, todo, follows, n, at');
    CleanParent(fs, at');
  }

  lemma ProgressComponent(fs: GuestFs, base: seq<Name>, path: seq<Name>, at: seq<Name>, c: Name, todo: seq<Name>,
                          follows: bool, n: nat)
    requires Progress(fs, base, path, at, [c] + todo, follows, false, n)
    requires c != "." && c != ".."
    requires if todo != [] then fs(at + [c]).Directory? else fs(at + [c]).Symlink? ==> !follows
    ensures Progress(fs, base, path, at + [c], todo, follows, todo == [], n)
  {
    hide Leads;
    CleanChild(fs, at, c);
    LeadsComponent(fs, base, path, at, c, todo, follows, n, at + [c]);
  }

  lemma ProgressLink(fs: GuestFs, base: seq<Name>, path: seq<Name>, at: seq<Name>, c: Name, todo: seq<Name>,
                     follows: bool, n: nat, at': seq<Name>, m: nat)
    requires Progress(fs, base, path, at, [c] + todo, follows, false, n)
    requires c != "." && c != ".." && fs(at + [c]).Symlink? && (todo != [] || follows)
    requires var target := fs(at + [c]).target;
             Progress(fs, LinkBase(at, target), Components(target), at', [], true, true, m)
    requires todo != [] ==> fs(at').Directory?
    ensures Progress(fs, base, path, at', todo, follows, todo == [], n + 1 + m)
  {
    hide Leads;
    LeadsLink(fs, base, path, at, c, todo, follows, n, at', m, n + 1 + m);
    CleanParent(fs, at');
  }

  lemma ProgressFinal(fs: GuestFs, base: seq<Name>, path: seq<Name>, at: seq<Name>, todo: seq<Name>,
                      follows: bool, n: nat)
    requires Progress(fs, base, path, at, todo, follows, false, n)
    ensures Progress(fs, base, path, at, todo, follows, true, n)
  {
  }

  lemma ProgressResolved(fs: GuestFs, base: seq<Name>, path: seq<Name>, at: seq<Name>, follows: bool, n: nat)
    requires Progress(fs, base, path, at, [], follows, true, n)
    ensures Walk(fs, base, path, follows, n) == Some(at)
    ensures NoDots(at) && CleanAbove(fs, at) && (follows ==> Clean(fs, at))
  {
    LeadsToResult(fs, base, path, at, follows, n);
  }

  lemma InnerIsClean(fs: GuestFs, base: seq<Name>, path: seq<Name>, at: seq<Name>, n: nat)
    requires Progress(fs, base, path, at, [], true, true, n)
    ensures !fs(at).Symlink? && Clean(fs, at) && NoDots(at)
  {
    CleanItself(fs, at);
  }

  /** The last component decides how the source ends the path. */
  lemma LastComponent(userPath: string, done: seq<Name>, c: Name)
    requires Components(userPath) == done + [c]
    ensures userPath != ""
    ensures ExpectedFinality(userPath) ==
            if c == "." then FinalDot
            else if c == ".." || userPath[|userPath| - 1] == '/' then FinalSlash else FinalNormal
  {
    hide Components;
    EmptyHasNone();
    assert (done + [c])[|done|] == c;
  }

  lemma EmptyHasNone()
    ensures Components("") == []
  {
  }

  lemma NothingAtEnd(userPath: string, cursor: nat)
    requires cursor <= |userPath|
    ensures cursor == |userPath| ==> Components(userPath[cursor..]) == []
  {
  }

  lemma OnlySeparators(userPath: string)
    requires Components(userPath) == [] && userPath != ""
    ensures IsAbsolute(userPath)
    ensures ExpectedFinality(userPath) == FinalNormal
  {
  }

  /** The empty path: the source appends an empty component, which is a final separator. */
  lemma EmptyComponent(t: Table, host: HostFs, at: seq<Name>)
    requires Valid(t) && Posix(host) && !View(t, host)([]).Symlink?
    ensures var joined := JoinPaths(Render(at), "");
            joined.Success? ==>
              && joined.value == Render(at) + Suffix(at, FinalSlash)
              && forall finality :: StatComponent(t, host, finality, joined.value).Success? ==>
                   !StatComponent(t, host, finality, joined.value).value
  {
    hide Components, Valid, ToHost, Body, Substitute, Detranslate;
    var joined := JoinPaths(Render(at), "");
    if at != [] {
      BodyEnd(at);
      FinalSeparatorKept(t, at);
      assert joined.Success? ==> joined.value == Render(at) + "/";
    } else {
      assert joined.Success? ==> joined.value == Render([]);
      assert !ViewAt(t, host, Render([])).Symlink?;
    }
  }

  lemma JoinSuffix(at: seq<Name>)
    ensures var r := JoinPaths(Render(at), ""); r.Success? ==> r.value == Render(at) + Suffix(at, FinalSlash)
    ensures var r := JoinPaths(Render(at), "."); r.Success? ==> r.value == Render(at) + Suffix(at, FinalDot)
  {
    hide Body;
    if at != [] { BodyEnd(at); }
  }

  /** The state at the head of the loop of canonicalize(). */
  ghost predicate AtHead(fs: GuestFs, base: seq<Name>, userPath: string, cursor: nat, finality: Finality,
                         guestPath: string, at: seq<Name>, follows: bool, n: nat)
    requires cursor <= |userPath|
  {
    var path, todo := Components(userPath), Components(userPath[cursor..]);
    && |todo| <= |path| && path[|path| - |todo|..] == todo
    && Progress(fs, base, path, at, todo, follows, !finality.NotFinal?, n)
    && (if finality.NotFinal? then
          guestPath == Render(at) && (todo == [] ==> path == [] && (userPath != "" ==> at == []))
        else
          && todo == []
          && guestPath == Render(at) + (if userPath == "" then Suffix(at, FinalSlash) else "")
          && finality == (if userPath == "" then FinalNormal else ExpectedFinality(userPath)))
  }

  /** What next_component() found at the cursor. */
  ghost predicate Found(userPath: string, cursor: nat, finality: Finality, component: string, next: nat)
    requires cursor <= |userPath| && next <= |userPath|
  {
    var before, todo := Components(userPath[cursor..]), Components(userPath[next..]);
    && (if before == [] then component == "" && todo == [] else component == before[0] && todo == before[1..])
    && finality == (if |before| >= 2 then NotFinal
                    else if |before| == 1 && userPath[|userPath| - 1] == '/' then FinalSlash
                    else FinalNormal)
  }

  /** The finality the source continues with after a component. */
  function FinalityAfter(finality: Finality, component: string): Finality {
    if finality.NotFinal? then finality
    else if component == "." then FinalDot
    else if component == ".." then FinalSlash
    else finality
  }

  lemma HeadMoves(fs: GuestFs, base: seq<Name>, userPath: string, cursor: nat, finality: Finality, component: string,
                  next: nat, guestPath: string, at: seq<Name>, follows: bool, n: nat,
                  guestPath': string, at': seq<Name>, n': nat)
    requires cursor <= |userPath| && next <= |userPath|
    requires AtHead(fs, base, userPath, cursor, NotFinal, guestPath, at, follows, n)
    requires Found(userPath, cursor, finality, component, next) && component != ""
    requires var todo := Components(userPath[next..]);
             Progress(fs, base, Components(userPath), at', todo, follows, todo == [], n') && guestPath' == Render(at')
    ensures AtHead(fs, base, userPath, next, FinalityAfter(finality, component), guestPath', at', follows, n')
  {
    hide Components, Progress, ExpectedFinality, Render, FinalityAfter;
    var path, before, todo := Components(userPath), Components(userPath[cursor..]), Components(userPath[next..]);
    SuffixNext(path, before, todo);
    FinalityAfterKind(finality, component);
    if todo == [] {
      LastFinality(userPath, path[..|path| - 1], component, finality);
      assert Render(at') + "" == Render(at');
    }
  }

  lemma LastFinality(userPath: string, done: seq<Name>, c: Name, finality: Finality)
    requires Components(userPath) == done + [c]
    requires userPath != "" ==> finality == if userPath[|userPath| - 1] == '/' then FinalSlash else FinalNormal
    ensures userPath != "" && FinalityAfter(finality, c) == ExpectedFinality(userPath)
  {
    hide Components, ExpectedFinality;
    LastComponent(userPath, done, c);
  }

  lemma FinalityAfterKind(finality: Finality, component: string)
    ensures FinalityAfter(finality, component).NotFinal? <==> finality.NotFinal?
  {
  }

  lemma SuffixNext(path: seq<Name>, before: seq<Name>, todo: seq<Name>)
    requires before != [] && |before| <= |path| && path[|path| - |before|..] == before && todo == before[1..]
    ensures |todo| <= |path| && path[|path| - |todo|..] == todo && path != []
    ensures todo == [] ==> path == path[..|path| - 1] + [before[0]]
  {
    assert path[|path| - |before| + 1..] == path[|path| - |before|..][1..];
  }

  lemma HeadDots(fs: GuestFs, base: seq<Name>, userPath: string, cursor: nat, finality: Finality, component: string,
                 next: nat, guestPath: string, at: seq<Name>, follows: bool, n: nat, guestPath': string)
    requires cursor <= |userPath| && next <= |userPath|
    requires AtHead(fs, base, userPath, cursor, NotFinal, guestPath, at, follows, n)
    requires Found(userPath, cursor, finality, component, next)
    requires component == "." || component == ".."
    requires guestPath' == Render(if component == "." then at else Parent(at))
    ensures AtHead(fs, base, userPath, next, FinalityAfter(finality, component), guestPath',
                   if component == "." then at else Parent(at), follows, n)
  {
    hide Components, Progress, ExpectedFinality;
    var todo := Components(userPath[next..]);
    var at' := if component == "." then at else Parent(at);
    assert Components(userPath[cursor..]) == [component] + todo;
    ProgressDots(fs, base, Components(userPath), at, component, todo, follows, n, at');
    HeadMoves(fs, base, userPath, cursor, finality, component, next, guestPath, at, follows, n, guestPath', at', n);
  }

  lemma HeadComponent(fs: GuestFs, base: seq<Name>, userPath: string, cursor: nat, finality: Finality, component: string,
                      next: nat, guestPath: string, at: seq<Name>, follows: bool, n: nat)
    requires cursor <= |userPath| && next <= |userPath|
    requires AtHead(fs, base, userPath, cursor, NotFinal, guestPath, at, follows, n)
    requires Found(userPath, cursor, finality, component, next)
    requires component != "" && component != "." && component != ".."
    requires IsName(component)
    requires if finality.NotFinal? then fs(at + [component]).Directory? else fs(at + [component]).Symlink? ==> !follows
    ensures AtHead(fs, base, userPath, next, finality, Render(at + [component]), at + [component], follows, n)
  {
    hide Components, Progress, ExpectedFinality;
    var todo := Components(userPath[next..]);
    assert Components(userPath[cursor..]) == [component] + todo;
    ProgressComponent(fs, base, Components(userPath), at, component, todo, follows, n);
    HeadMoves(fs, base, userPath, cursor, finality, component, next, guestPath, at, follows, n,
              Render(at + [component]), at + [component], n);
  }

  lemma HeadLink(fs: GuestFs, base: seq<Name>, userPath: string, cursor: nat, finality: Finality, component: string,
                 next: nat, guestPath: string, at: seq<Name>, follows: bool, n: nat, at': seq<Name>, m: nat)
    requires cursor <= |userPath| && next <= |userPath|
    requires AtHead(fs, base, userPath, cursor, NotFinal, guestPath, at, follows, n)
    requires Found(userPath, cursor, finality, component, next)
    requires component != "" && component != "." && component != ".."
    requires IsName(component) && fs(at + [component]).Symlink? && (finality.NotFinal? || follows)
    requires var target := fs(at + [component]).target;
             Progress(fs, LinkBase(at, target), Components(target), at', [], true, true, m)
    requires finality.NotFinal? ==> fs(at').Directory?
    ensures AtHead(fs, base, userPath, next, finality, Render(at'), at', follows, n + 1 + m)
  {
    hide Components, Progress, ExpectedFinality;
    var todo := Components(userPath[next..]);
    assert Components(userPath[cursor..]) == [component] + todo;
    ProgressLink(fs, base, Components(userPath), at, component, todo, follows, n, at', m);
    HeadMoves(fs, base, userPath, cursor, finality, component, next, guestPath, at, follows, n, Render(at'), at', n + 1 + m);
  }

  lemma HeadEmpty(fs: GuestFs, base: seq<Name>, userPath: string, cursor: nat, finality: Finality, next: nat,
                  guestPath: string, at: seq<Name>, follows: bool, n: nat)
    requires cursor <= |userPath| && next <= |userPath|
    requires AtHead(fs, base, userPath, cursor, NotFinal, guestPath, at, follows, n)
    requires Found(userPath, cursor, finality, "", next)
    ensures finality.FinalNormal?
    ensures AtHead(fs, base, userPath, next, finality, Render(at) + Suffix(at, FinalSlash), at, follows, n)
  {
    hide Components, Progress, ExpectedFinality;
    var before := Components(userPath[cursor..]);
    if before != [] {
      assert IsName(before[0]);
    }
    ProgressFinal(fs, base, Components(userPath), at, [], follows, n);
    if userPath != "" {
      OnlySeparators(userPath);
    }
  }

  lemma HeadFacts(fs: GuestFs, base: seq<Name>, userPath: string, cursor: nat, guestPath: string, at: seq<Name>,
                  follows: bool, n: nat)
    requires cursor <= |userPath| && AtHead(fs, base, userPath, cursor, NotFinal, guestPath, at, follows, n)
    ensures guestPath == Render(at) && guestPath != "" && guestPath[0] == '/'
    ensures Canonical(guestPath) && Components(guestPath) == at
    ensures Clean(fs, at) && NoDots(at)
  {
    hide Components, Leads;
    ComponentsOfRender(at);
    RenderAbsolute(at);
  }

  lemma HeadAtEnd(fs: GuestFs, base: seq<Name>, userPath: string, cursor: nat, finality: Finality, guestPath: string,
                  at: seq<Name>, follows: bool, n: nat)
    requires cursor <= |userPath| && !finality.NotFinal?
    requires AtHead(fs, base, userPath, cursor, finality, guestPath, at, follows, n)
    ensures Progress(fs, base, Components(userPath), at, [], follows, true, n)
    ensures userPath == "" ==> guestPath == Render(at) + Suffix(at, FinalSlash) && finality.FinalNormal?
    ensures userPath != "" ==> guestPath == Render(at) && finality == ExpectedFinality(userPath)
  {
    hide Components, Progress, ExpectedFinality;
    assert Render(at) + "" == Render(at);
  }

  lemma HeadInitially(t: Table, host: HostFs, userPath: string, guestPath0: string, guestPath: string)
    requires !View(t, host)([]).Symlink?
    requires !IsAbsolute(userPath) ==>
               && guestPath0 == Render(Components(guestPath0)) && guestPath == guestPath0
               && NoDots(Components(guestPath0)) && Clean(View(t, host), Components(guestPath0))
    requires IsAbsolute(userPath) ==> guestPath == "/"
    ensures var base := Base(userPath, guestPath0);
            forall follows :: AtHead(View(t, host), base, userPath, 0, NotFinal, guestPath, base, follows, 0)
  {
    hide Components, ViewAt, Progress;
    assert userPath[0..] == userPath;
    var base := Base(userPath, guestPath0);
    forall follows ensures AtHead(View(t, host), base, userPath, 0, NotFinal, guestPath, base, follows, 0) {
      ProgressInitially(t, host, userPath, guestPath0, follows);
      if Components(userPath) == [] && userPath != "" {
        OnlySeparators(userPath);
      }
    }
  }

  /** The two errors that say that a path does not exist. */
  predicate IsRefusal(status: Result<()>) {
    status == Failure(ENOENT) || status == Failure(ENOTDIR)
  }

  /** The path is resolved in a tree, from a directory. */
  ghost predicate FromDirectory(fs: GuestFs, userPath: string, guestPath: string) {
    TreeLike(fs) && fs(Base(userPath, guestPath)).Directory?
  }

  /** Every absolute path is under the root, if under no other binding. */
  lemma AlwaysBound(t: Table, path: string)
    requires Valid(t) && IsAbsolute(path)
    ensures !Substitute(t, Guest, path).NotBound?
  {
    hide Components, Canonical, Sorted, DistinctKeys;
    RootIsBound(t);
    var root := t.guest[|t.guest| - 1];
    assert Covers(root, Guest, path);
  }

  /** Only a component before others is refused: one that is neither a directory nor a link. */
  lemma StatRefused(t: Table, host: HostFs, finality: Finality, path: seq<Name>, text: string)
    requires Valid(t) && IsAbsolute(text) && (text == Render(path) || !finality.NotFinal?)
    ensures var r, node := StatComponent(t, host, finality, text), View(t, host)(path);
            r.Failure? ==> IsRefusal(Failure(r.error)) && finality.NotFinal? && !node.Directory? && !node.Symlink?
  {
    hide Valid, Detranslate;
    AlwaysBound(t, text);
    hide Substitute;
  }

  lemma StatFails(t: Table, host: HostFs, finality: Finality, at: seq<Name>, component: string, scratch: string)
    requires Valid(t) && JoinPaths(Render(at), component) == Success(scratch)
    requires if component == "" then !finality.NotFinal? else IsName(component)
    ensures StatComponent(t, host, finality, scratch).Failure? ==>
              && component != "" && finality.NotFinal? && IsRefusal(Failure(StatComponent(t, host, finality, scratch).error))
              && !View(t, host)(at + [component]).Directory? && !View(t, host)(at + [component]).Symlink?
  {
    hide Valid, StatComponent, View, Render, JoinPaths;
    RenderAbsolute(at);
    if component == "" {
      JoinSuffix(at);
      StatRefused(t, host, finality, at, scratch);
    } else {
      JoinAppends(at, component);
      RenderAbsolute(at + [component]);
      StatRefused(t, host, finality, at + [component], scratch);
    }
  }

  lemma JoinFails(first: string, second: string)
    ensures JoinPaths(first, second).Failure? ==> JoinPaths(first, second).error.ENAMETOOLONG?
  {
  }

  /** A component that resolution refuses: so does it the whole path. */
  lemma HeadRefused(fs: GuestFs, base: seq<Name>, userPath: string, cursor: nat, finality: Finality, component: string,
                    next: nat, guestPath: string, at: seq<Name>, follows: bool, n: nat)
    requires cursor <= |userPath| && next <= |userPath|
    requires AtHead(fs, base, userPath, cursor, NotFinal, guestPath, at, follows, n)
    requires Found(userPath, cursor, finality, component, next) && finality.NotFinal? && component != "." && component != ".."
    requires IsName(component) && !fs(at + [component]).Directory? && !fs(at + [component]).Symlink?
    ensures Nowhere(fs, base, Components(userPath), follows)
  {
    hide Components, Leads, Nowhere, Clean;
    var before := Components(userPath[cursor..]);
    NoDirectory(fs, at, component, before[1..], follows);
    assert before == [component] + before[1..];
    LeadsNowhere(fs, base, Components(userPath), at, before, follows, before == [], n);
  }

  /** A link that leads nowhere. */
  lemma HeadLost(fs: GuestFs, base: seq<Name>, userPath: string, cursor: nat, finality: Finality, component: string,
                 next: nat, guestPath: string, at: seq<Name>, follows: bool, n: nat)
    requires cursor <= |userPath| && next <= |userPath|
    requires AtHead(fs, base, userPath, cursor, NotFinal, guestPath, at, follows, n)
    requires Found(userPath, cursor, finality, component, next) && component != "." && component != ".."
    requires IsName(component) && fs(at + [component]).Symlink? && (finality.NotFinal? || follows)
    requires TreeLike(fs) && fs(at).Directory? && Lost(fs, finality, at, component)
    ensures Nowhere(fs, base, Components(userPath), follows)
  {
    hide Components, Leads, Nowhere, Clean, CleanAbove, NoDots, TreeLike, Lost;
    var before := Components(userPath[cursor..]);
    LostIsNowhere(fs, finality, at, component, before[1..], follows);
    assert before == [component] + before[1..];
    LeadsNowhere(fs, base, Components(userPath), at, before, follows, before == [], n);
  }

  /** A link that needs more links than are left. */
  lemma HeadTooFar(fs: GuestFs, base: seq<Name>, userPath: string, cursor: nat, finality: Finality, component: string,
                   next: nat, guestPath: string, at: seq<Name>, follows: bool, n: nat, level: nat, s: nat)
    requires cursor <= |userPath| && next <= |userPath|
    requires AtHead(fs, base, userPath, cursor, NotFinal, guestPath, at, follows, n)
    requires Found(userPath, cursor, finality, component, next) && component != "." && component != ".."
    requires IsName(component) && fs(at + [component]).Symlink? && (finality.NotFinal? || follows)
    requires s > 0 && n >= s - 1 && level <= MAXSYMLINKS
    requires var target := fs(at + [component]).target;
             TooMany(fs, LinkBase(at, target), Components(target), true, MAXSYMLINKS - (level + s))
    ensures TooMany(fs, base, Components(userPath), follows, MAXSYMLINKS - level)
  {
    hide Components, Leads, Walk, TooMany, LinkBase, AtHead, Found;
    var before := Components(userPath[cursor..]);
    HeadLeads(fs, base, userPath, cursor, guestPath, at, follows, n);
    ConsOfFound(userPath, cursor, finality, component, next);
    LeadsTooFar(fs, base, Components(userPath), at, component, before[1..], follows, before == [], n,
                MAXSYMLINKS - (level + s), MAXSYMLINKS - level);
    NotEnough(fs, base, Components(userPath), follows, MAXSYMLINKS - level);
  }

  lemma HeadLeads(fs: GuestFs, base: seq<Name>, userPath: string, cursor: nat, guestPath: string, at: seq<Name>,
                  follows: bool, n: nat)
    requires cursor <= |userPath| && AtHead(fs, base, userPath, cursor, NotFinal, guestPath, at, follows, n)
    ensures var todo := Components(userPath[cursor..]); Leads(fs, base, Components(userPath), at, todo, follows, todo == [], n)
  {
    hide Components, Leads;
  }

  lemma ConsOfFound(userPath: string, cursor: nat, finality: Finality, component: string, next: nat)
    requires cursor <= |userPath| && next <= |userPath| && Found(userPath, cursor, finality, component, next) && component != ""
    ensures var before := Components(userPath[cursor..]);
            before != [] && before == [component] + before[1..] && (finality.NotFinal? ==> before[1..] != [])
  {
    hide Components;
  }

  lemma NotEnough(fs: GuestFs, at: seq<Name>, todo: seq<Name>, follow: bool, links: nat)
    requires Walk(fs, at, todo, follow, links) == None
    ensures TooMany(fs, at, todo, follow, links)
  {
  }

  lemma LostIsNowhere(fs: GuestFs, finality: Finality, at: seq<Name>, component: Name, rest: seq<Name>, follows: bool)
    requires component != "." && component != ".." && fs(at + [component]).Symlink? && (rest != [] || follows)
    requires TreeLike(fs) && fs(at).Directory? && Lost(fs, finality, at, component) && (finality.NotFinal? ==> rest != [])
    ensures Nowhere(fs, at, [component] + rest, follows)
  {
    hide Components, Nowhere, TreeLike, EndsAtFile;
    LinkToNowhere(fs, at, component, rest, follows);
  }

  /** The contents of the link lead nowhere, or not to the directory they have to. */
  ghost predicate Lost(fs: GuestFs, finality: Finality, at: seq<Name>, component: Name)
    requires fs(at + [component]).Symlink?
  {
    var target := fs(at + [component]).target;
    || Nowhere(fs, LinkBase(at, target), Components(target), true)
    || (finality.NotFinal? && exists n: nat, r :: EndsAtFile(fs, LinkBase(at, target), Components(target), n, r))
  }

  // ----- Paths and names that are too long -----

  /** Is there room left for a separator and a dot? */
  ghost predicate Fit(path: seq<Name>) {
    |Render(path)| + 3 < PATH_MAX
  }

  /** A name of the path, or of the contents of a link. */
  ghost predicate Named(fs: GuestFs, userPath: string, c: Name) {
    c in Components(userPath) || exists cs :: fs(cs).Symlink? && c in Components(fs(cs).target)
  }

  /** A name that no buffer holds, or not behind the path of some directory. */
  ghost predicate LongName(fs: GuestFs, c: Name) {
    |c| >= NAME_MAX || exists at :: fs(at).Directory? && !Fit(at + [c])
  }

  ghost predicate LongNames(fs: GuestFs, host: HostFs, userPath: string) {
    || (exists p :: host(p).Symlink? && |host(p).target| >= PATH_MAX)
    || exists c: Name :: Named(fs, userPath, c) && LongName(fs, c)
  }

  /** Something is too long: where the path starts, the contents of a link, a name, or a name behind a directory. */
  ghost predicate TooLong(fs: GuestFs, host: HostFs, userPath: string, guestPath: string) {
    |guestPath| + 3 >= PATH_MAX || LongNames(fs, host, userPath)
  }

  lemma NoneFits(fs: GuestFs, host: HostFs, userPath: string, c: Name, at: seq<Name>)
    requires Named(fs, userPath, c) && (|c| >= NAME_MAX || (fs(at).Directory? && !Fit(at + [c])))
    ensures LongNames(fs, host, userPath)
  {
    hide Components, Fit, Named;
    assert LongName(fs, c);
  }

  lemma LongContents(fs: GuestFs, host: HostFs, userPath: string, p: string)
    requires host(p).Symlink? && |host(p).target| >= PATH_MAX
    ensures LongNames(fs, host, userPath)
  {
  }

  lemma TooLongInside(fs: GuestFs, host: HostFs, target: string, at: seq<Name>)
    ensures TooLong(fs, host, target, Render(at)) ==> !Fit(at) || LongNames(fs, host, target)
  {
    hide LongNames;
  }

  /** The names of a link are named by every path. */
  lemma LinkNames(fs: GuestFs, host: HostFs, userPath: string, link: seq<Name>)
    requires fs(link).Symlink? && LongNames(fs, host, fs(link).target)
    ensures LongNames(fs, host, userPath)
  {
    hide Components, LongName;
    if c: Name :| Named(fs, fs(link).target, c) && LongName(fs, c) {
      assert Named(fs, userPath, c);
    }
  }

  lemma HeadNamed(fs: GuestFs, base: seq<Name>, userPath: string, cursor: nat, guestPath: string, at: seq<Name>,
                  follows: bool, n: nat)
    requires cursor <= |userPath| && AtHead(fs, base, userPath, cursor, NotFinal, guestPath, at, follows, n)
    ensures Components(userPath[cursor..]) != [] ==> Named(fs, userPath, Components(userPath[cursor..])[0])
  {
    hide Components, Progress;
    var path, todo := Components(userPath), Components(userPath[cursor..]);
    if todo != [] {
      assert path[|path| - |todo|..][0] == todo[0] && todo[0] in path;
    }
  }

  lemma FitStart(userPath: string, guestPath: string)
    requires !IsAbsolute(userPath) ==> guestPath == Render(Components(guestPath))
    ensures Fit(Base(userPath, guestPath)) || |guestPath| + 3 >= PATH_MAX
  {
    hide Components;
  }

  lemma FitParent(at: seq<Name>)
    ensures Fit(at) ==> Fit(Parent(at))
  {
    RenderLength(Parent(at), at);
  }

  lemma FitJoins(at: seq<Name>)
    ensures JoinPaths(Render(at), "").Failure? || JoinPaths(Render(at), ".").Failure? ==> !Fit(at)
    ensures forall c: Name :: JoinPaths(Render(at), c).Failure? ==> !Fit(at + [c])
  {
    forall c: Name | JoinPaths(Render(at), c).Failure? ensures !Fit(at + [c]) {
      JoinAppends(at, c);
    }
  }

  /** canonicalize(): on success the buffer holds what userPath resolves to (its ghost result is `at`), unless POSIX
  refuses it for a final slash that is not looked at, and the finality of userPath at the outermost level; when it says
  that the path does not exist it is right.  `derefs` counts the links read. */
  method {:induction false} Canonicalize(t: Table, host: HostFs, userPath: string, derefFinal: bool,
                                         guestPath0: string, level: nat)
      returns (status: Result<()>, guestPath: string, derefs: nat, ghost at: seq<Name>)
    requires Valid(t) && Posix(host) && !View(t, host)([]).Symlink?
    requires !IsAbsolute(userPath) && IsAbsolute(guestPath0) ==>
               && guestPath0 == Render(Components(guestPath0))
               && NoDots(Components(guestPath0)) && Clean(View(t, host), Components(guestPath0))
    requires level > 0 ==> userPath != ""
    ensures derefs <= DerefBound(level)
    ensures level > MAXSYMLINKS ==> status == Failure(ELOOP)
    ensures status == Failure(ELOOP) ==>
              || TooMany(View(t, host), Base(userPath, guestPath0), Components(userPath), Follows(userPath, derefFinal), MAXSYMLINKS - level)
              || HasLinkBack(View(t, host))
    ensures FromDirectory(View(t, host), userPath, guestPath0) ==>
              status == Failure(ENAMETOOLONG) || (status.Success? && !Fit(at)) ==> TooLong(View(t, host), host, userPath, guestPath0)
    ensures !IsAbsolute(userPath) && !IsAbsolute(guestPath0) ==> status.Failure?
    ensures status.Success? ==>
              var fs, base, path := View(t, host), Base(userPath, guestPath0), Components(userPath);
              && Walk(fs, base, path, Follows(userPath, derefFinal), derefs) == Some(at)
              && ResolvesUnlessRefused(fs, Components(guestPath0), userPath, derefFinal, derefs, at)
              && NoDots(at) && CleanAbove(fs, at) && (Follows(userPath, derefFinal) ==> Clean(fs, at))
              && Progress(fs, base, path, at, [], Follows(userPath, derefFinal), true, derefs)
              && guestPath == Render(at) + (if userPath == "" then Suffix(at, FinalSlash)
                                            else if level == 0 then Suffix(at, ExpectedFinality(userPath)) else "")
    ensures IsRefusal(status) && FromDirectory(View(t, host), userPath, guestPath0) ==>
              Nowhere(View(t, host), Base(userPath, guestPath0), Components(userPath), Follows(userPath, derefFinal))
    ensures status.Failure? && !IsRefusal(status) ==>
              || status.error.ELOOP? || status.error.ENAMETOOLONG?
              || (status.error.EINVAL? && !IsAbsolute(userPath) && !IsAbsolute(guestPath0))
    decreases if level > MAXSYMLINKS then 0 else MAXSYMLINKS + 1 - level, 3
  {
    hide Components, Valid, Posix, Clean, CleanAbove, Progress, ToHost, StatComponent, JoinPaths, Body, Render, AtHead;
    hide Substitute, ExpectedFinality, Pow2, NoDots, ViewAt, Canonical, Walk, ResolvesUnlessRefused, Nowhere,
         TreeLike, Lost, View, Fit, LongNames, Named;
    guestPath, derefs, at := guestPath0, 0, [];
    // Links that lead to each other end here.
    if level > MAXSYMLINKS {
      return Failure(ELOOP), guestPath, derefs, at;
    }
    if |guestPath| >= PATH_MAX {
      return Failure(ENAMETOOLONG), guestPath, derefs, at;
    }
    if !IsAbsolute(userPath) {
      if !IsAbsolute(guestPath) {
        return Failure(EINVAL), guestPath, derefs, at;
      }
    } else {
      guestPath := "/";
    }

    ghost var fs, base, follows := View(t, host), Base(userPath, guestPath0), Follows(userPath, derefFinal);
    var cursor, finality, linksFollowed := 0, NotFinal, 0;
    at := base;
    HeadInitially(t, host, userPath, guestPath0, guestPath);
    FitStart(userPath, guestPath0);
    ghost var tooLong := TooLong(fs, host, userPath, guestPath0);
    while finality.NotFinal?
      invariant cursor <= |userPath| && linksFollowed <= MAXSYMLINKS - level && linksFollowed <= derefs
      invariant derefs + Pow2(MAXSYMLINKS + 1 - level - linksFollowed) <= Pow2(MAXSYMLINKS + 1 - level)
      invariant AtHead(fs, base, userPath, cursor, finality, guestPath, at, follows, derefs)
      invariant TreeLike(fs) && fs(base).Directory? && finality.NotFinal? ==> fs(at).Directory?
      invariant TreeLike(fs) && fs(base).Directory? ==> Fit(at) || tooLong
      decreases if finality.NotFinal? then |userPath| - cursor + 1 else 0
    {
      HeadFacts(fs, base, userPath, cursor, guestPath, at, follows, derefs);
      HeadNamed(fs, base, userPath, cursor, guestPath, at, follows, derefs);
      FitParent(at);
      var start := cursor;
      var ended, component, next := NextComponent(userPath, cursor);
      if ended.Failure? {
        NoneFits(fs, host, userPath, Components(userPath[cursor..])[0], at);
        return Failure(ended.error), guestPath, derefs, at;
      }
      finality, cursor := ended.value, next;
      assert Found(userPath, start, finality, component, cursor);

      if component == "." {
        HeadDots(fs, base, userPath, start, finality, component, cursor, guestPath, at, follows, derefs, guestPath);
        if !finality.NotFinal? {
          finality := FinalDot;
        }
        continue;
      }
      if component == ".." {
        var popped := PopComponent(guestPath);
        HeadDots(fs, base, userPath, start, finality, component, cursor, guestPath, at, follows, derefs, popped);
        guestPath := popped;
        if TreeLike(fs) && fs(base).Directory? {
          ParentIsDirectory(fs, at);
        }
        at := Parent(at);
        if !finality.NotFinal? {
          finality := FinalSlash;
        }
        continue;
      }

      var ended', entered, read, isLink, at' :=
        EnterComponent(t, host, userPath, derefFinal, finality, component, guestPath, level, linksFollowed + 1,
                       base, start, cursor, at, derefs);
      if isLink {
        linksFollowed := linksFollowed + 1;
        DerefSum(level, linksFollowed, derefs, read);
      }
      if ended'.Failure? {
        return Failure(ended'.error), guestPath, derefs + read, at;
      }
      guestPath, derefs, at := entered, derefs + read, at';
    }

    HeadAtEnd(fs, base, userPath, cursor, finality, guestPath, at, follows, derefs);
    ProgressResolved(fs, base, Components(userPath), at, follows, derefs);
    BoundAtEnd(level, linksFollowed, derefs);
    WalkedIsResolved(fs, Components(guestPath0), userPath, derefFinal, derefs, at);
    var ended := RestoreFinality(guestPath, finality, level, at);
    if ended.Failure? {
      return Failure(ended.error), guestPath, derefs, at;
    }
    guestPath := ended.value;
    status := Success(());
  }

  /** The rest of the loop of canonicalize(), for a component that is neither "." nor "..": `s` counts the links of
  this call with this one. */
  method {:induction false} EnterComponent(t: Table, host: HostFs, userPath: string, derefFinal: bool, finality: Finality,
                                           component: string, guestPath: string, level: nat, s: nat,
                                           ghost base: seq<Name>, ghost start: nat, ghost cursor: nat,
                                           ghost at: seq<Name>, ghost n: nat)
      returns (status: Result<()>, entered: string, read: nat, isLink: bool, ghost at': seq<Name>)
    requires Valid(t) && Posix(host) && !View(t, host)([]).Symlink? && level <= MAXSYMLINKS && s > 0
    requires start <= |userPath| && cursor <= |userPath| && component != "." && component != ".."
    requires AtHead(View(t, host), base, userPath, start, NotFinal, guestPath, at, Follows(userPath, derefFinal), n)
    requires Found(userPath, start, finality, component, cursor)
    ensures if isLink then 1 <= read <= 1 + DerefBound(level + s) else read == 0
    ensures status == Failure(ELOOP) && n >= s - 1 ==>
              || TooMany(View(t, host), base, Components(userPath), Follows(userPath, derefFinal), MAXSYMLINKS - level)
              || HasLinkBack(View(t, host))
    ensures isLink && status.Success? ==> level + s <= MAXSYMLINKS
    ensures status.Success? ==>
              && AtHead(View(t, host), base, userPath, cursor, finality, entered, at', Follows(userPath, derefFinal), n + read)
              && (finality.NotFinal? ==> View(t, host)(at').Directory?)
    ensures IsRefusal(status) && TreeLike(View(t, host)) && View(t, host)(at).Directory? ==>
              Nowhere(View(t, host), base, Components(userPath), Follows(userPath, derefFinal))
    ensures TreeLike(View(t, host)) && View(t, host)(at).Directory? ==>
              status == Failure(ENAMETOOLONG) || (status.Success? && !Fit(at')) ==> !Fit(at) || LongNames(View(t, host), host, userPath)
    ensures status.Failure? && !IsRefusal(status) ==> status.error.ELOOP? || status.error.ENAMETOOLONG?
    decreases MAXSYMLINKS + 1 - level, 2
  {
    hide Components, Valid, Posix, Clean, CleanAbove, Progress, ToHost, StatComponent, JoinPaths, Body, Render, AtHead;
    hide Substitute, ExpectedFinality, Pow2, NoDots, ViewAt, Canonical, Walk, Nowhere, TreeLike, Lost, View, Found, Follows;
    hide TooMany, HasLinkBack, Fit, LongNames;
    ghost var fs, follows := View(t, host), Follows(userPath, derefFinal);
    HeadFacts(fs, base, userPath, start, guestPath, at, follows, n);
    FinalFollows(userPath, start, finality, component, cursor, derefFinal);
    EnteredFits(fs, host, base, userPath, start, finality, component, cursor, guestPath, at, follows, n);
    entered, read, isLink, at' := guestPath, 0, false, at;
    var scratch := JoinPaths(guestPath, component);
    if scratch.Failure? {
      JoinFails(guestPath, component);
      status := Failure(scratch.error);
      return;
    }
    // A component before others has to be a directory or a link.
    var link := StatComponent(t, host, finality, scratch.value);
    if link.Failure? {
      StatFails(t, host, finality, at, component, scratch.value);
      HeadRefused(fs, base, userPath, start, finality, component, cursor, guestPath, at, follows, n);
      status := Failure(link.error);
      return;
    }
    StatScratch(t, host, finality, userPath, start, at, component, scratch.value);
    if !link.value || (finality.FinalNormal? && !derefFinal) {
      if component == "" {
        HeadEmpty(fs, base, userPath, start, finality, cursor, guestPath, at, follows, n);
      } else {
        HeadComponent(fs, base, userPath, start, finality, component, cursor, guestPath, at, follows, n);
        at' := at + [component];
      }
      entered, status := scratch.value, Success(());
      return;
    }
    // A link is replaced by what its contents resolve to.
    isLink := true;
    status, entered, read, at' := FollowLink(t, host, finality, scratch.value, guestPath, level + s, at, component);
    if LongNames(fs, host, fs(at + [component]).target) {
      LinkNames(fs, host, userPath, at + [component]);
    }
    if status.Failure? {
      if IsRefusal(status) && TreeLike(fs) && fs(at).Directory? {
        HeadLost(fs, base, userPath, start, finality, component, cursor, guestPath, at, follows, n);
      }
      if status == Failure(ELOOP) && n >= s - 1 && !HasLinkBack(fs) {
        HeadTooFar(fs, base, userPath, start, finality, component, cursor, guestPath, at, follows, n, level, s);
      }
      return;
    }
    HeadLink(fs, base, userPath, start, finality, component, cursor, guestPath, at, follows, n, at', read - 1);
  }

  /** What a component is joined to fits, unless a name is too long. */
  lemma EnteredFits(fs: GuestFs, host: HostFs, base: seq<Name>, userPath: string, cursor: nat, finality: Finality, component: string,
                    next: nat, guestPath: string, at: seq<Name>, follows: bool, n: nat)
    requires cursor <= |userPath| && next <= |userPath|
    requires AtHead(fs, base, userPath, cursor, NotFinal, guestPath, at, follows, n) && guestPath == Render(at)
    requires Found(userPath, cursor, finality, component, next)
    ensures component == "" && JoinPaths(guestPath, component).Failure? ==> !Fit(at)
    ensures component != "" ==>
              IsName(component) &&
              (fs(at).Directory? && (JoinPaths(guestPath, component).Failure? || !Fit(at + [component])) ==> LongNames(fs, host, userPath))
  {
    hide Components, AtHead, Fit, LongNames, Named, JoinPaths, Render;
    HeadNamed(fs, base, userPath, cursor, guestPath, at, follows, n);
    FitJoins(at);
    if component != "" && fs(at).Directory? && (JoinPaths(guestPath, component).Failure? || !Fit(at + [component])) {
      NoneFits(fs, host, userPath, component, at);
    }
  }

  /** At the first level of recursion, what ended the user's path is put back. */
  method RestoreFinality(guestPath: string, finality: Finality, level: nat, ghost at: seq<Name>) returns (r: Result<string>)
    requires finality.FinalSlash? || finality.FinalDot? ==> guestPath == Render(at)
    ensures r.Success? ==> r.value == guestPath + if level == 0 then Suffix(at, finality) else ""
    ensures r.Failure? ==> r.error.ENAMETOOLONG? && !Fit(at)
  {
    hide Fit;
    FitJoins(at);
    assert guestPath + "" == guestPath;
    r := Success(guestPath);
    if level == 0 && (finality.FinalSlash? || finality.FinalDot?) {
      var end := if finality.FinalSlash? then "" else ".";
      r := JoinPaths(guestPath, end);
      JoinFails(guestPath, end);
      JoinSuffix(at);
    }
  }

  lemma BoundAtEnd(level: nat, linksFollowed: nat, derefs: nat)
    requires level + linksFollowed <= MAXSYMLINKS
    requires derefs + Pow2(MAXSYMLINKS + 1 - level - linksFollowed) <= Pow2(MAXSYMLINKS + 1 - level)
    ensures derefs <= DerefBound(level)
  {
  }

  /** A final component is followed just when the caller or a final separator asks for it. */
  lemma FinalFollows(userPath: string, cursor: nat, finality: Finality, component: string, next: nat, derefFinal: bool)
    requires cursor <= |userPath| && next <= |userPath|
    requires Found(userPath, cursor, finality, component, next)
    ensures if component == "" then finality.FinalNormal? else IsName(component)
    ensures component != "" && !finality.NotFinal? ==>
              && (finality.FinalNormal? || finality.FinalSlash?)
              && (Follows(userPath, derefFinal) <==> !(finality.FinalNormal? && !derefFinal))
  {
    hide Components;
    NothingAtEnd(userPath, cursor);
    var before := Components(userPath[cursor..]);
    assert before != [] ==> IsName(before[0]);
  }

  /** substitute_binding_stat() of the component joined to what is resolved so far. */
  lemma StatScratch(t: Table, host: HostFs, finality: Finality, userPath: string, cursor: nat, at: seq<Name>,
                    component: string, scratch: string)
    requires Valid(t) && Posix(host) && !View(t, host)([]).Symlink?
    requires JoinPaths(Render(at), component) == Success(scratch)
    requires component == "" || IsName(component)
    ensures component == "" ==>
              scratch == Render(at) + Suffix(at, FinalSlash) &&
              StatComponent(t, host, finality, scratch) != Success(true)
    ensures component != "" ==>
              var node := View(t, host)(at + [component]);
              && scratch == Render(at + [component])
              && (StatComponent(t, host, finality, scratch) == Success(true) ==> node.Symlink?)
              && (StatComponent(t, host, finality, scratch) == Success(false) ==>
                    !node.Symlink? && (finality.NotFinal? ==> node.Directory?))
  {
    hide Components, Valid, StatComponent, ToHost, JoinPaths, Body, ViewAt;
    if component == "" {
      EmptyComponent(t, host, at);
    } else {
      JoinAppends(at, component);
      StatIsView(t, host, finality, at + [component]);
    }
  }

  /** The end of the loop of canonicalize(), for a link to dereference. */
  method {:induction false} FollowLink(t: Table, host: HostFs, finality: Finality, linkPath: string, guestPath: string,
                                       level: nat, ghost at: seq<Name>, ghost component: Name)
      returns (status: Result<()>, resolved: string, derefs: nat, ghost at': seq<Name>)
    requires Valid(t) && Posix(host) && !View(t, host)([]).Symlink? && level > 0
    requires guestPath == Render(at) && NoDots(at) && Clean(View(t, host), at)
    requires linkPath == Render(at + [component]) && View(t, host)(at + [component]).Symlink?
    ensures 1 <= derefs <= 1 + DerefBound(level)
    ensures status == Failure(ELOOP) ==>
              var fs := View(t, host); var target := fs(at + [component]).target;
              TooMany(fs, LinkBase(at, target), Components(target), true, MAXSYMLINKS - level) || HasLinkBack(fs)
    ensures status.Success? ==>
              var fs := View(t, host); var target := fs(at + [component]).target;
              && at' != at
              && resolved == Render(at') && derefs >= 1 && level <= MAXSYMLINKS
              && Progress(fs, LinkBase(at, target), Components(target), at', [], true, true, derefs - 1)
              && (finality.NotFinal? ==> fs(at').Directory?)
    ensures IsRefusal(status) && TreeLike(View(t, host)) && View(t, host)(at).Directory? ==>
              Lost(View(t, host), finality, at, component)
    ensures TreeLike(View(t, host)) && View(t, host)(at).Directory? ==>
              status == Failure(ENAMETOOLONG) || (status.Success? && !Fit(at')) ==>
                !Fit(at) || LongNames(View(t, host), host, View(t, host)(at + [component]).target)
    ensures status.Failure? && !IsRefusal(status) ==> status.error.ELOOP? || status.error.ENAMETOOLONG?
    decreases if level > MAXSYMLINKS then 0 else MAXSYMLINKS + 1 - level, 4
  {
    hide Components, Valid, Posix, Clean, CleanAbove, Progress, ToHost, StatComponent, ReadLink, Body, Pow2;
    hide Detranslate, Substitute, Walk, Nowhere, TreeLike, ResolvesUnlessRefused, NoDots, Canonical, Fit, LongNames, TooLong, View;
    at' := at;
    ReadLinkIsView(t, host, at + [component]);
    var contents := ReadLink(t, host, ToHost(t, linkPath));
    if contents.Failure? {
      LongContents(View(t, host), host, View(t, host)(at + [component]).target, ToHost(t, linkPath));
      return Failure(contents.error), guestPath, 1, at;
    }
    ComponentsOfRender(at);
    RenderAbsolute(at);
    status, resolved, derefs, at' := Canonicalize(t, host, contents.value, true, guestPath, level);
    derefs := derefs + 1;
    if TreeLike(View(t, host)) {
      RootIsDirectory(View(t, host));
    }
    TooLongInside(View(t, host), host, contents.value, at);
    if status.Failure? {
      return;
    }
    status := CheckReferee(t, host, finality, guestPath, resolved, at, component, at', derefs - 1);
  }

  /** The checks on what a link leads to. */
  method CheckReferee(t: Table, host: HostFs, finality: Finality, guestPath: string, resolved: string,
                      ghost at: seq<Name>, ghost component: Name, ghost at': seq<Name>, ghost n: nat)
      returns (status: Result<()>)
    requires Valid(t) && Posix(host) && !View(t, host)([]).Symlink?
    requires guestPath == Render(at) && NoDots(at) && resolved == Render(at') && View(t, host)(at + [component]).Symlink?
    requires var target := View(t, host)(at + [component]).target;
             && Progress(View(t, host), LinkBase(at, target), Components(target), at', [], true, true, n)
             && Walk(View(t, host), LinkBase(at, target), Components(target), true, n) == Some(at')
    ensures status == Failure(ELOOP) ==> HasLinkBack(View(t, host))
    ensures status.Success? ==> at' != at && (finality.NotFinal? ==> View(t, host)(at').Directory?)
    ensures IsRefusal(status) ==> Lost(View(t, host), finality, at, component)
    ensures status.Failure? && !IsRefusal(status) ==> status.error.ELOOP?
  {
    hide Components, Valid, Posix, Clean, CleanAbove, Progress, ToHost, StatComponent, Body, Substitute, Walk, Nowhere, NoDots,
         Canonical, View;
    // A link whose own path comes back.
    if guestPath == resolved {
      ComponentsOfRender(at);
      ComponentsOfRender(at');
      assert at' == at && LeadsBack(View(t, host), at, component, n);
      return Failure(ELOOP);
    }
    // A non-final dereferenced link exists and is a directory.
    var isLink := StatComponent(t, host, finality, resolved);
    ghost var target := View(t, host)(at + [component]).target;
    if isLink.Failure? {
      RenderAbsolute(at');
      StatRefused(t, host, finality, at', resolved);
      assert EndsAtFile(View(t, host), LinkBase(at, target), Components(target), n, at');
      return Failure(isLink.error);
    }
    StatIsView(t, host, finality, at');
    InnerIsClean(View(t, host), LinkBase(at, target), Components(target), at', n);
    assert !isLink.value;  // canon.c:379
    return Success(());
  }

  lemma ParentIsDirectory(fs: GuestFs, cs: seq<Name>)
    requires TreeLike(fs) && fs(cs).Directory?
    ensures fs(Parent(cs)).Directory?
  {
  }

  lemma DerefSum(level: nat, linksFollowed: nat, derefs: nat, read: nat)
    requires 0 < linksFollowed <= MAXSYMLINKS + 1 - level && level <= MAXSYMLINKS
    requires derefs + Pow2(MAXSYMLINKS + 1 - level - (linksFollowed - 1)) <= Pow2(MAXSYMLINKS + 1 - level)
    requires read <= 1 + DerefBound(level + linksFollowed)
    ensures derefs + read <= DerefBound(level)
    ensures linksFollowed <= MAXSYMLINKS - level ==>
              derefs + read + Pow2(MAXSYMLINKS + 1 - level - linksFollowed) <= Pow2(MAXSYMLINKS + 1 - level)
  {
  }

  lemma ProgressInitially(t: Table, host: HostFs, userPath: string, guestPath0: string, follows: bool)
    requires !View(t, host)([]).Symlink?
    requires !IsAbsolute(userPath) ==>
               NoDots(Components(guestPath0)) && Clean(View(t, host), Components(guestPath0))
    ensures var fs, base, path := View(t, host), Base(userPath, guestPath0), Components(userPath);
            Progress(fs, base, path, base, path, follows, false, 0) && Progress(fs, base, path, base, path, follows, true, 0)
  {
    hide Components, ViewAt;
    var fs, base, path := View(t, host), Base(userPath, guestPath0), Components(userPath);
    LeadsInitially(fs, base, path, follows, path == []);
    CleanParent(fs, base);
  }
}
