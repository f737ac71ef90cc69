/** Pathname resolution as section 4.13 (Pathname Resolution) of POSIX.1-2017 describes it, in a
name-space rooted at the guest "/". */
module Resolution {
  import opened Basics
  import opened Paths
  import opened Bindings

  datatype Node = Missing | File | Directory | Symlink(target: string)

  type GuestFs = seq<Name> -> Node

  predicate EndsWithSlash(path: string) {
    path != "" && path[|path| - 1] == '/'
  }

  // ----- Pathname resolution -----

  /** Resolve a pathname, dereferencing at most `fuel` links: a null pathname is never resolved. */
  ghost function ResolvePath(fs: GuestFs, cwd: seq<Name>, path: string, follow: bool, fuel: nat): Option<seq<Name>> {
    if path == "" then None
    else Resolve(fs, LinkBase(cwd, path), Components(path), follow, EndsWithSlash(path), fuel)
  }

  /** Resolve the components `todo` from directory `at`.  A link is replaced by its contents in front of what
  remains; the last one only when `follow` says so, or when what is left ends with a slash (`dir`): then it also
  has to name a directory. */
  ghost function Resolve(fs: GuestFs, at: seq<Name>, todo: seq<Name>, follow: bool, dir: bool, fuel: nat): Option<seq<Name>>
    decreases fuel, |todo|
  {
    if todo == [] then Some(at)
    else if todo[0] == "." then Resolve(fs, at, todo[1..], follow, dir, fuel)
    else if todo[0] == ".." then Resolve(fs, Parent(at), todo[1..], follow, dir, fuel)
    else
      var path, rest := at + [todo[0]], todo[1..];
      match fs(path)
      case Symlink(target) =>
        if rest == [] && !follow && !dir then Some(path)
        else if fuel == 0 then None
        else Resolve(fs, LinkBase(at, target), Components(target) + rest, follow,
                     dir || (rest == [] && EndsWithSlash(target)), fuel - 1)
      case Directory => Resolve(fs, path, rest, follow, dir, fuel)
      case _ => if rest == [] && !dir then Some(path) else None
  }

  // ----- What canonicalize() computes -----

  /** The same, but for final slashes: nobody asks whether the last name is a directory. */
  ghost function Walk(fs: GuestFs, at: seq<Name>, todo: seq<Name>, follow: bool, fuel: nat): Option<seq<Name>>
    decreases fuel, |todo|
  {
    if todo == [] then Some(at)
    else if todo[0] == "." then Walk(fs, at, todo[1..], follow, fuel)
    else if todo[0] == ".." then Walk(fs, Parent(at), todo[1..], follow, fuel)
    else
      var path, rest := at + [todo[0]], todo[1..];
      match fs(path)
      case Symlink(target) =>
        if rest == [] && !follow then Some(path)
        else if fuel == 0 then None
        else Walk(fs, LinkBase(at, target), Components(target) + rest, follow, fuel - 1)
      case Directory => Walk(fs, path, rest, follow, fuel)
      case _ => if rest == [] then Some(path) else None
  }

  /** Does the path end with a slash, or the contents of a link dereferenced at its end? */
  ghost predicate DemandsDirectory(fs: GuestFs, at: seq<Name>, todo: seq<Name>, follow: bool, dir: bool, fuel: nat)
    decreases fuel, |todo|
  {
    todo != [] &&
    if todo[0] == "." then DemandsDirectory(fs, at, todo[1..], follow, dir, fuel)
    else if todo[0] == ".." then DemandsDirectory(fs, Parent(at), todo[1..], follow, dir, fuel)
    else
      var path, rest := at + [todo[0]], todo[1..];
      match fs(path)
      case Symlink(target) =>
        if rest == [] && !follow && !dir then false
        else fuel > 0 && DemandsDirectory(fs, LinkBase(at, target), Components(target) + rest, follow,
                                          dir || (rest == [] && EndsWithSlash(target)), fuel - 1)
      case _ => if rest == [] then dir else DemandsDirectory(fs, path, rest, follow, dir, fuel)
  }

  /** The only difference: resolution refuses a last name that has to be a directory and is none. */
  lemma {:induction false} WalkOrRefuse(fs: GuestFs, at: seq<Name>, todo: seq<Name>, follow: bool, dir: bool, fuel: nat)
    ensures var r := Walk(fs, at, todo, follow || dir, fuel);
            Resolve(fs, at, todo, follow, dir, fuel) ==
            if r.Some? && DemandsDirectory(fs, at, todo, follow, dir, fuel) && !fs(r.value).Directory? then None else r
    decreases fuel, |todo|
  {
    hide Components;
    if todo != [] {
      var path, rest := at + [todo[0]], todo[1..];
      if todo[0] == "." {
        WalkOrRefuse(fs, at, rest, follow, dir, fuel);
      } else if todo[0] == ".." {
        WalkOrRefuse(fs, Parent(at), rest, follow, dir, fuel);
      } else {
        match fs(path)
        case Symlink(target) =>
          if fuel > 0 && (rest != [] || follow || dir) {
            var dir' := dir || (rest == [] && EndsWithSlash(target));
            WalkOrRefuse(fs, LinkBase(at, target), Components(target) + rest, follow, dir', fuel - 1);
          }
        case _ =>
          if rest != [] {
            WalkOrRefuse(fs, path, rest, follow, dir, fuel);
          }
      }
    }
  }

  /** More links than enough change nothing. */
  lemma {:induction false} EnoughLinks(fs: GuestFs, at: seq<Name>, todo: seq<Name>, follow: bool, dir: bool,
                                       fuel: nat, more: nat)
    requires Walk(fs, at, todo, follow || dir, fuel).Some?
    ensures Walk(fs, at, todo, follow || dir, fuel + more) == Walk(fs, at, todo, follow || dir, fuel)
    ensures DemandsDirectory(fs, at, todo, follow, dir, fuel + more) == DemandsDirectory(fs, at, todo, follow, dir, fuel)
    decreases fuel, |todo|
  {
    hide Components;
    if todo != [] {
      var path, rest := at + [todo[0]], todo[1..];
      if todo[0] == "." {
        EnoughLinks(fs, at, rest, follow, dir, fuel, more);
      } else if todo[0] == ".." {
        EnoughLinks(fs, Parent(at), rest, follow, dir, fuel, more);
      } else {
        match fs(path)
        case Symlink(target) =>
          if fuel > 0 && (rest != [] || follow || dir) {
            var dir' := dir || (rest == [] && EndsWithSlash(target));
            EnoughLinks(fs, LinkBase(at, target), Components(target) + rest, follow, dir', fuel - 1, more);
          }
        case Directory =>
          if rest != [] {
            EnoughLinks(fs, path, rest, follow, dir, fuel, more);
          }
        case _ =>
      }
    }
  }

  /** What walking to `at` with n links means for resolution, whatever number of links it may dereference beyond: it
  ends there too, unless the pathname is null, or has to name a directory and does not. */
  ghost predicate ResolvesUnlessRefused(fs: GuestFs, cwd: seq<Name>, path: string, follow: bool, n: nat, at: seq<Name>) {
    var demands := DemandsDirectory(fs, LinkBase(cwd, path), Components(path), follow, EndsWithSlash(path), n);
    forall fuel: nat :: fuel >= n ==>
      ResolvePath(fs, cwd, path, follow, fuel) == if path == "" || (demands && !fs(at).Directory?) then None else Some(at)
  }

  lemma WalkedIsResolved(fs: GuestFs, cwd: seq<Name>, path: string, follow: bool, n: nat, at: seq<Name>)
    requires Walk(fs, LinkBase(cwd, path), Components(path), follow || EndsWithSlash(path), n) == Some(at)
    ensures ResolvesUnlessRefused(fs, cwd, path, follow, n, at)
  {
    hide Components, Walk, Resolve, DemandsDirectory;
    forall fuel: nat | fuel >= n
      ensures ResolvePath(fs, cwd, path, follow, fuel) ==
              if path == "" || (DemandsDirectory(fs, LinkBase(cwd, path), Components(path), follow, EndsWithSlash(path), n) &&
                                !fs(at).Directory?) then None else Some(at)
    {
      EnoughLinks(fs, LinkBase(cwd, path), Components(path), follow, EndsWithSlash(path), n, fuel - n);
      WalkOrRefuse(fs, LinkBase(cwd, path), Components(path), follow, EndsWithSlash(path), fuel);
    }
  }

  /** A link "/l" whose contents "f/" name a file: walking ends at "/f", so that canonicalize() cannot say that it does
  not exist, and resolution refuses it. */
  lemma FinalSlashOfLink(fs: GuestFs)
    requires fs(["l"]) == Symlink("f/") && fs(["f"]) == File
    ensures Walk(fs, [], ["l"], true, 1) == Some(["f"]) && !Nowhere(fs, [], ["l"], true)
    ensures forall fuel: nat :: fuel >= 1 ==> ResolvePath(fs, [], "/l", true, fuel) == None
  {
    ComponentsOfBody(["f"]);
    ComponentsOfBody(["l"]);
    assert Body(["f"]) == "/f" && Body(["l"]) == "/l";
    assert Components("f/") == ["f"] by {
      ComponentsOfName("f");
      ComponentsConcat("f", "/");
      assert "f" + "/" == "f/";
    }
    assert ["f"] + [] == ["f"] && [] + ["f"] == ["f"] && [] + ["l"] == ["l"] && ["f"][1..] == [] && ["l"][1..] == [];
    forall fuel: nat | fuel >= 1 ensures ResolvePath(fs, [], "/l", true, fuel) == None {
      assert Resolve(fs, [], ["f"], true, true, fuel - 1) == None;
    }
  }

  // ----- Where resolution ends nowhere -----

  /** Every ancestor of what exists is a directory. */
  ghost predicate TreeLike(fs: GuestFs) {
    fs([]).Directory? && forall cs :: cs != [] && !fs(cs).Missing? ==> fs(Parent(cs)).Directory?
  }

  /** No number of links is enough. */
  ghost predicate Nowhere(fs: GuestFs, at: seq<Name>, todo: seq<Name>, follow: bool) {
    forall fuel: nat :: Walk(fs, at, todo, follow, fuel) == None
  }

  lemma SameEnd(fs: GuestFs, at: seq<Name>, todo: seq<Name>, follow: bool, n: nat, m: nat)
    requires Walk(fs, at, todo, follow, n).Some? && Walk(fs, at, todo, follow, m).Some?
    ensures Walk(fs, at, todo, follow, n) == Walk(fs, at, todo, follow, m)
  {
    hide Walk;
    if n <= m {
      EnoughLinks(fs, at, todo, follow, false, n, m - n);
    } else {
      EnoughLinks(fs, at, todo, follow, false, m, n - m);
    }
  }

  /** A component before others that is neither a directory nor a link to one leads nowhere. */
  lemma NoDirectory(fs: GuestFs, at: seq<Name>, c: Name, rest: seq<Name>, follow: bool)
    requires c != "." && c != ".." && rest != [] && !fs(at + [c]).Directory? && !fs(at + [c]).Symlink?
    ensures Nowhere(fs, at, [c] + rest, follow)
  {
    assert ([c] + rest)[1..] == rest;
  }

  /** With n links, the path leads to what is no directory. */
  ghost predicate EndsAtFile(fs: GuestFs, at: seq<Name>, todo: seq<Name>, n: nat, r: seq<Name>) {
    Walk(fs, at, todo, true, n) == Some(r) && !fs(r).Directory?
  }

  /** Nor does a link whose contents lead nowhere, or not to a directory. */
  lemma LinkToNowhere(fs: GuestFs, at: seq<Name>, c: Name, rest: seq<Name>, follow: bool)
    requires TreeLike(fs) && fs(at).Directory? && c != "." && c != ".." && fs(at + [c]).Symlink? && (rest != [] || follow)
    requires var target := fs(at + [c]).target;
             || Nowhere(fs, LinkBase(at, target), Components(target), true)
             || (rest != [] && exists n: nat, r :: EndsAtFile(fs, LinkBase(at, target), Components(target), n, r))
    ensures Nowhere(fs, at, [c] + rest, follow)
  {
    hide Components, Walk, TreeLike;
    var target := fs(at + [c]).target;
    var from, contents := LinkBase(at, target), Components(target);
    forall fuel: nat ensures Walk(fs, at, [c] + rest, follow, fuel) == None {
      LinkStep(fs, at, c, rest, follow, fuel);
      assert rest == [] ==> contents + rest == contents;
      if fuel > 0 && Walk(fs, from, contents + rest, follow, fuel - 1).Some? {
        if rest != [] {
          assert fs(from).Directory? by { RootIsDirectory(fs); }
          StartsAtDirectory(fs, from, contents, rest, follow, fuel - 1);
          if n: nat, r :| EndsAtFile(fs, from, contents, n, r) {
            SameEnd(fs, from, contents, true, n, fuel - 1);
          }
        }
        assert false;
      }
    }
  }

  lemma RootIsDirectory(fs: GuestFs)
    requires TreeLike(fs)
    ensures fs([]).Directory?
  {
  }

  lemma LinkStep(fs: GuestFs, at: seq<Name>, c: Name, rest: seq<Name>, follow: bool, fuel: nat)
    requires c != "." && c != ".." && fs(at + [c]).Symlink? && (rest != [] || follow)
    ensures var target := fs(at + [c]).target;
            Walk(fs, at, [c] + rest, follow, fuel) ==
            if fuel == 0 then None else Walk(fs, LinkBase(at, target), Components(target) + rest, follow, fuel - 1)
  {
    hide Components;
    assert ([c] + rest)[1..] == rest;
  }

  /** What resolution has come to leads nowhere, so the whole path does. */
  lemma LeadsNowhere(fs: GuestFs, base: seq<Name>, path: seq<Name>, at: seq<Name>, todo: seq<Name>, follows: bool,
                     over: bool, n: nat)
    requires Leads(fs, base, path, at, todo, follows, over, n) && Nowhere(fs, at, todo, follows)
    ensures Nowhere(fs, base, path, follows)
  {
    hide Walk;
    var none: seq<Name> := [];
    assert path + none == path && todo + none == todo;
    assert Moves(fs, base, path + none, at, todo + none, follows, n);
    forall fuel: nat ensures Walk(fs, base, path, follows, fuel) == None {
      assert Walk(fs, at, todo, follows, fuel) == None;
      if Walk(fs, base, path, follows, fuel).Some? {
        EnoughLinks(fs, base, path, follows, false, fuel, n);
        assert false;
      }
    }
  }

  /** A path that leads somewhere starts with one that leads to a directory. */
  lemma {:induction false} StartsAtDirectory(fs: GuestFs, at: seq<Name>, todo: seq<Name>, rest: seq<Name>,
                                             follow: bool, fuel: nat)
    requires TreeLike(fs) && fs(at).Directory? && rest != []
    requires Walk(fs, at, todo + rest, follow, fuel).Some?
    ensures var r := Walk(fs, at, todo, true, fuel); r.Some? && fs(r.value).Directory?
    decreases fuel, |todo|
  {
    hide Components;
    if todo == [] {
      return;
    }
    var path, more := at + [todo[0]], todo[1..];
    assert (todo + rest)[0] == todo[0] && (todo + rest)[1..] == more + rest;
    if todo[0] == "." {
      StartsAtDirectory(fs, at, more, rest, follow, fuel);
    } else if todo[0] == ".." {
      assert Parent(at) == at || !fs(at).Missing?;
      StartsAtDirectory(fs, Parent(at), more, rest, follow, fuel);
    } else if fs(path).Directory? {
      StartsAtDirectory(fs, path, more, rest, follow, fuel);
    } else if fs(path).Symlink? {
      var target := fs(path).target;
      assert Components(target) + (more + rest) == (Components(target) + more) + rest;
      StartsAtDirectory(fs, LinkBase(at, target), Components(target) + more, rest, follow, fuel - 1);
    }
  }

  /** So does a path that can be walked with so many links. */
  lemma {:induction false} StartsSomewhere(fs: GuestFs, at: seq<Name>, todo: seq<Name>, rest: seq<Name>, follow: bool, fuel: nat)
    requires rest != [] && Walk(fs, at, todo + rest, follow, fuel).Some?
    ensures Walk(fs, at, todo, true, fuel).Some?
    decreases fuel, |todo|
  {
    hide Components;
    if todo == [] {
      return;
    }
    var path, more := at + [todo[0]], todo[1..];
    assert (todo + rest)[0] == todo[0] && (todo + rest)[1..] == more + rest;
    if todo[0] == "." {
      StartsSomewhere(fs, at, more, rest, follow, fuel);
    } else if todo[0] == ".." {
      StartsSomewhere(fs, Parent(at), more, rest, follow, fuel);
    } else if fs(path).Directory? {
      StartsSomewhere(fs, path, more, rest, follow, fuel);
    } else if fs(path).Symlink? {
      var target := fs(path).target;
      assert Components(target) + (more + rest) == (Components(target) + more) + rest;
      StartsSomewhere(fs, LinkBase(at, target), Components(target) + more, rest, follow, fuel - 1);
    }
  }

  // ----- How many links are enough -----

  /** That many links, if it is a number at all, are not enough. */
  ghost predicate TooMany(fs: GuestFs, at: seq<Name>, todo: seq<Name>, follow: bool, links: int) {
    links >= 0 ==> Walk(fs, at, todo, follow, links) == None
  }

  /** The contents of the link lead back to the directory that it is in. */
  ghost predicate LeadsBack(fs: GuestFs, at: seq<Name>, c: Name, n: nat) {
    fs(at + [c]).Symlink? && Walk(fs, LinkBase(at, fs(at + [c]).target), Components(fs(at + [c]).target), true, n) == Some(at)
  }

  ghost predicate HasLinkBack(fs: GuestFs) {
    exists at: seq<Name>, c: Name, n: nat :: LeadsBack(fs, at, c, n)
  }

  /** A link "/d" whose contents are ".": resolution ends at "/", with one link; and it leads back to "/". */
  lemma LinkToDot(fs: GuestFs)
    requires fs(["d"]) == Symlink(".")
    ensures forall fuel: nat :: fuel >= 1 ==> ResolvePath(fs, [], "/d", true, fuel) == Some([])
    ensures LeadsBack(fs, [], "d", 0) && HasLinkBack(fs)
  {
    ComponentsOfBody(["d"]);
    assert Body(["d"]) == "/d";
    ComponentsOfName(".");
    assert ["."] + [] == ["."] && [] + ["d"] == ["d"] && ["d"][1..] == [] && ["."][1..] == [];
    forall fuel: nat | fuel >= 1 ensures ResolvePath(fs, [], "/d", true, fuel) == Some([]) {
      assert Resolve(fs, [], ["."], true, false, fuel - 1) == Some([]);
    }
    assert LeadsBack(fs, [], "d", 0) by {
      assert Walk(fs, [], ["."], true, 0) == Some([]) && LinkBase([], ".") == [];
    }
  }

  /** A link whose contents need more than the links that are left needs more itself. */
  lemma LinkNeedsMore(fs: GuestFs, at: seq<Name>, c: Name, rest: seq<Name>, follow: bool, fuel: nat, links: int)
    requires c != "." && c != ".." && fs(at + [c]).Symlink? && (rest != [] || follow) && fuel - 1 <= links
    requires TooMany(fs, LinkBase(at, fs(at + [c]).target), Components(fs(at + [c]).target), true, links)
    ensures Walk(fs, at, [c] + rest, follow, fuel) == None
  {
    hide Components, Walk;
    LinkStep(fs, at, c, rest, follow, fuel);
    if Walk(fs, at, [c] + rest, follow, fuel).Some? {
      var target := fs(at + [c]).target;
      var from, contents := LinkBase(at, target), Components(target);
      if rest == [] {
        assert contents + rest == contents;
      } else {
        StartsSomewhere(fs, from, contents, rest, follow, fuel - 1);
      }
      EnoughLinks(fs, from, contents, true, false, fuel - 1, links - (fuel - 1));
      assert false;
    }
  }

  /** When resolution came to such a link with n links, the whole path needs more. */
  lemma LeadsTooFar(fs: GuestFs, base: seq<Name>, path: seq<Name>, at: seq<Name>, c: Name, rest: seq<Name>, follows: bool,
                    over: bool, n: nat, links: int, all: nat)
    requires Leads(fs, base, path, at, [c] + rest, follows, over, n) && all - n - 1 <= links
    requires c != "." && c != ".." && fs(at + [c]).Symlink? && (rest != [] || follows)
    requires TooMany(fs, LinkBase(at, fs(at + [c]).target), Components(fs(at + [c]).target), true, links)
    ensures Walk(fs, base, path, follows, all) == None
  {
    hide Walk, Components, TooMany, Leads, LinkBase;
    LeadsWith(fs, base, path, at, [c] + rest, follows, over, n, if all >= n then all - n else 0);
    if all < n {
      LinkStep(fs, at, c, rest, follows, 0);
      if Walk(fs, base, path, follows, all).Some? {
        EnoughLinks(fs, base, path, follows, false, all, n - all);
        assert false;
      }
    } else {
      LinkNeedsMore(fs, at, c, rest, follows, all - n, links);
    }
  }

  lemma LeadsWith(fs: GuestFs, base: seq<Name>, path: seq<Name>, at: seq<Name>, todo: seq<Name>, follows: bool, over: bool,
                  n: nat, left: nat)
    requires Leads(fs, base, path, at, todo, follows, over, n)
    ensures Walk(fs, base, path, follows, left + n) == Walk(fs, at, todo, follows, left)
  {
    hide Walk;
    var none: seq<Name> := [];
    assert path + none == path && todo + none == todo;
    assert Moves(fs, base, path + none, at, todo + none, follows, n);
    assert Walk(fs, at, todo, follows, left) == Walk(fs, base, path, follows, left + n);
  }

  /** Where the contents of a link found in `at` are resolved from. */
  function LinkBase(at: seq<Name>, target: string): seq<Name> {
    if IsAbsolute(target) then [] else at
  }

  /** Neither cs nor any of its ancestors is a link. */
  ghost predicate Clean(fs: GuestFs, cs: seq<Name>) {
    forall k :: 0 <= k <= |cs| ==> !fs(cs[..k]).Symlink?
  }

  ghost predicate CleanAbove(fs: GuestFs, cs: seq<Name>) {
    cs == [] || Clean(fs, Parent(cs))
  }

  lemma CleanParent(fs: GuestFs, cs: seq<Name>)
    requires Clean(fs, cs)
    ensures Clean(fs, Parent(cs))
  {
    assert forall k :: 0 <= k <= |Parent(cs)| ==> Parent(cs)[..k] == cs[..k];
  }

  lemma CleanChild(fs: GuestFs, cs: seq<Name>, c: Name)
    requires Clean(fs, cs)
    ensures CleanAbove(fs, cs + [c])
    ensures !fs(cs + [c]).Symlink? ==> Clean(fs, cs + [c])
  {
    var p := cs + [c];
    assert Parent(p) == cs;
    assert p[..|p|] == p;
    assert forall k :: 0 <= k <= |cs| ==> p[..k] == cs[..k];
  }

  lemma CleanItself(fs: GuestFs, cs: seq<Name>)
    requires Clean(fs, cs)
    ensures !fs(cs).Symlink?
  {
    assert cs[..|cs|] == cs;
  }

  /** Whatever a walk yields is free of "." and "..", and crosses no link: every ancestor is
  not a link, and the result itself is one only when the last link was not to be followed. */
  lemma {:induction false} WalkIsClean(fs: GuestFs, at: seq<Name>, todo: seq<Name>, follow: bool, fuel: nat)
    requires Clean(fs, at) && Clean(fs, []) && NoDots(at)
    ensures var r := Walk(fs, at, todo, follow, fuel);
            r.Some? ==> NoDots(r.value) && CleanAbove(fs, r.value) && (follow ==> Clean(fs, r.value))
    decreases fuel, |todo|
  {
    CleanParent(fs, at);
    if todo != [] {
      var path, rest := at + [todo[0]], todo[1..];
      if todo[0] == "." {
        WalkIsClean(fs, at, rest, follow, fuel);
      } else if todo[0] == ".." {
        WalkIsClean(fs, Parent(at), rest, follow, fuel);
      } else {
        CleanChild(fs, at, todo[0]);
        match fs(path)
        case Symlink(target) =>
          if fuel > 0 && (rest != [] || follow) {
            WalkIsClean(fs, LinkBase(at, target), Components(target) + rest, follow, fuel - 1);
          }
        case Directory => WalkIsClean(fs, path, rest, follow, fuel);
        case _ =>
      }
    }
  }

  // ----- Moving along a resolution -----

  /** For every supply of links left, resolving todo1 from at1 comes, n links later, to resolving todo2 from at2. */
  ghost predicate Moves(fs: GuestFs, at1: seq<Name>, todo1: seq<Name>, at2: seq<Name>, todo2: seq<Name>,
                        follow: bool, n: nat)
  {
    forall fuel: nat {:trigger Walk(fs, at2, todo2, follow, fuel)} ::
      Walk(fs, at1, todo1, follow, fuel + n) == Walk(fs, at2, todo2, follow, fuel)
  }

  lemma MovesTransitive(fs: GuestFs, at1: seq<Name>, todo1: seq<Name>, at2: seq<Name>, todo2: seq<Name>,
                        at3: seq<Name>, todo3: seq<Name>, follow: bool, n: nat, m: nat)
    requires Moves(fs, at1, todo1, at2, todo2, follow, n) && Moves(fs, at2, todo2, at3, todo3, follow, m)
    ensures Moves(fs, at1, todo1, at3, todo3, follow, n + m)
  {
    hide Walk;
    forall fuel: nat
      ensures Walk(fs, at1, todo1, follow, fuel + (n + m)) == Walk(fs, at3, todo3, follow, fuel)
    {
      assert Walk(fs, at2, todo2, follow, fuel + m) == Walk(fs, at3, todo3, follow, fuel);
      assert fuel + (n + m) == (fuel + m) + n;
    }
  }

  /** One component that is not a link to follow. */
  lemma MoveComponent(fs: GuestFs, at: seq<Name>, c: Name, rest: seq<Name>, follow: bool, at': seq<Name>)
    requires c == "." ==> at' == at
    requires c == ".." ==> at' == Parent(at)
    requires c != "." && c != ".." ==>
               at' == at + [c] &&
               (if rest != [] then fs(at').Directory? else fs(at').Symlink? ==> !follow)
    ensures Moves(fs, at, [c] + rest, at', rest, follow, 0)
  {
    assert ([c] + rest)[1..] == rest;
    forall fuel: nat
      ensures Walk(fs, at, [c] + rest, follow, fuel + 0) == Walk(fs, at', rest, follow, fuel)
    {
    }
  }

  /** One link to follow. */
  lemma MoveLink(fs: GuestFs, at: seq<Name>, c: Name, rest: seq<Name>, follow: bool)
    requires c != "." && c != ".." && fs(at + [c]).Symlink? && (rest != [] || follow)
    ensures var target := fs(at + [c]).target;
            Moves(fs, at, [c] + rest, LinkBase(at, target), Components(target) + rest, follow, 1)
  {
    hide Components;
    assert ([c] + rest)[1..] == rest;
  }

  /** Resolution from base of a whole path has come to `at`, with `todo` left: so for every continuation
  of the path that stays in its context -- `follows` when it ends here, a directory here when it does
  not (a check that is made for each component but the last of the path itself). */
  ghost predicate Leads(fs: GuestFs, base: seq<Name>, path: seq<Name>, at: seq<Name>, todo: seq<Name>,
                        follows: bool, over: bool, n: nat)
  {
    forall rest: seq<Name>, follow: bool {:trigger Moves(fs, base, path + rest, at, todo + rest, follow, n)} ::
      (if rest == [] then follow == follows else over ==> fs(at).Directory?) ==>
        Moves(fs, base, path + rest, at, todo + rest, follow, n)
  }

  lemma LeadsInitially(fs: GuestFs, base: seq<Name>, path: seq<Name>, follows: bool, over: bool)
    ensures Leads(fs, base, path, base, path, follows, over, 0)
  {
  }

  lemma LeadsComponent(fs: GuestFs, base: seq<Name>, path: seq<Name>, at: seq<Name>, c: Name, todo: seq<Name>,
                       follows: bool, n: nat, at': seq<Name>)
    requires Leads(fs, base, path, at, [c] + todo, follows, false, n)
    requires c == "." ==> at' == at
    requires c == ".." ==> at' == Parent(at)
    requires c != "." && c != ".." ==>
               at' == at + [c] &&
               (if todo != [] then fs(at').Directory? else fs(at').Symlink? ==> !follows)
    ensures Leads(fs, base, path, at', todo, follows, todo == [], n)
  {
    hide Walk, Moves;
    forall rest: seq<Name>, follow: bool | if rest == [] then follow == follows else todo == [] ==> fs(at').Directory?
      ensures Moves(fs, base, path + rest, at', todo + rest, follow, n)
    {
      assert [c] + todo + rest == [c] + (todo + rest);
      assert Moves(fs, base, path + rest, at, [c] + todo + rest, follow, n);
      MoveComponent(fs, at, c, todo + rest, follow, at');
      MovesTransitive(fs, base, path + rest, at, [c] + (todo + rest), at', todo + rest, follow, n, 0);
    }
  }

  lemma LeadsLink(fs: GuestFs, base: seq<Name>, path: seq<Name>, at: seq<Name>, c: Name, todo: seq<Name>,
                  follows: bool, n: nat, at': seq<Name>, m: nat, total: nat)
    requires total == n + (1 + m)
    requires Leads(fs, base, path, at, [c] + todo, follows, false, n)
    requires c != "." && c != ".." && fs(at + [c]).Symlink? && (todo != [] || follows)
    requires var target := fs(at + [c]).target;
             Leads(fs, LinkBase(at, target), Components(target), at', [], true, true, m)
    requires todo != [] ==> fs(at').Directory?
    ensures Leads(fs, base, path, at', todo, follows, todo == [], total)
  {
    hide Walk, Moves, Components;
    var target := fs(at + [c]).target;
    var from, contents := LinkBase(at, target), Components(target);
    forall rest: seq<Name>, follow: bool | if rest == [] then follow == follows else todo == [] ==> fs(at').Directory?
      ensures Moves(fs, base, path + rest, at', todo + rest, follow, total)
    {
      var left := todo + rest;
      assert [c] + todo + rest == [c] + left;
      assert Moves(fs, base, path + rest, at, [c] + todo + rest, follow, n);
      MoveLink(fs, at, c, left, follow);
      assert Moves(fs, from, contents + left, at', [] + left, follow, m);
      assert [] + left == left;
      MovesTransitive(fs, at, [c] + left, from, contents + left, at', left, follow, 1, m);
      MovesTransitive(fs, base, path + rest, at, [c] + left, at', left, follow, n, 1 + m);
    }
  }

  lemma LeadsToResult(fs: GuestFs, base: seq<Name>, path: seq<Name>, at: seq<Name>, follows: bool, n: nat)
    requires Leads(fs, base, path, at, [], follows, true, n)
    ensures Walk(fs, base, path, follows, n) == Some(at)
  {
    var none: seq<Name> := [];
    assert path + none == path && none + none == none;
    assert Moves(fs, base, path + none, at, none + none, follows, n);
    assert Walk(fs, at, [], follows, 0) == Some(at);
  }
}
