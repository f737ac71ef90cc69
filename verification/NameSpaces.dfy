/** The file-system name-space of a tracee: the binding lists as the source changes them in place
(path/binding.c), and mount, umount and pivot_root over them (syscall/enter.c). */
module NameSpaces {
  import opened Basics
  import opened Paths
  import opened Bindings
  import opened Translation
  import opened PivotRoot

  /** No old binding holds the path in place. */
  ghost predicate NotHeld(p: Pivot, t: Table, path: seq<Name>) {
    forall y :: y in t.guest && p.Kept(y) ==> !Prefix(Key(y, Guest), path)
  }

  /** Nothing is exposed: at the place of put_old as anywhere else, a path without "." or ".." that no old binding holds
  in place is what it was under the new root. */
  ghost predicate ExposesNothing(p: Pivot, t: Table, t': Table) {
    forall path {:trigger NotHeld(p, t, path)} ::
      NoDots(path) && NotHeld(p, t, path) ==> SameTranslation(t, p.newRoot + path, t', path)
  }

  /** With nothing else bound there, put_old and every path under it are found under the previous root.  The guest path of
  that binding is longer than put_old itself, and the translation of what is under it lacks a separator -- unless the previous
  root has the very path of put_old, so that nothing is substituted. */
  ghost predicate DropsSeparator(p: Pivot, t: Table, oldRoot: Binding, t': Table) {
    p.putOld.Some? && Free(p, t.guest) ==>
      forall path: seq<Name> {:trigger p.putOld.value + path} ::
        var text := Render(p.putOld.value + path);
        && LookupIs(t', text, Render(p.putOld.value) + "/", oldRoot.host)
        && (path != [] ==>
              && ToHost(t', text) == WithoutSeparator(oldRoot.host, p.putOld.value, path)
              && (ToHost(t', text) == Render(Key(oldRoot, Host) + path) <==> oldRoot.host == Render(p.putOld.value)))
  }

  ghost predicate LookupIs(t: Table, text: string, guestPath: string, hostPath: string) {
    var b := Lookup(t, Guest, text);
    b.Some? && b.value.guest == guestPath && b.value.host == hostPath
  }

  /** What is made of a path under a guest path with a final separator. */
  function WithoutSeparator(host: string, guest: seq<Name>, path: seq<Name>): string {
    if host == Render(guest) then Render(guest + path)
    else if |host| == 1 then Render(path)[1..]
    else if |Render(path)| - 1 + |host| < PATH_MAX then host + Render(path)[1..]
    else Render(guest + path)
  }

  ghost predicate IdsBelow(list: seq<Binding>, limit: nat) {
    forall b :: b in list ==> b.id < limit
  }

  /** The same host components, whatever the two guest paths. */
  ghost predicate SameTranslation(t: Table, path: seq<Name>, t': Table, path': seq<Name>) {
    var b, b' := Lookup(t, Guest, Render(path)), Lookup(t', Guest, Render(path'));
    && b.Some? && Prefix(Key(b.value, Guest), path)
    && b'.Some? && Prefix(Key(b'.value, Guest), path')
    && Rebased(b.value, path) == Rebased(b'.value, path')
  }

  /** A path that no old binding holds in place is now what it was under the new root. */
  ghost predicate KeepsNewRoot(p: Pivot, t: Table, t': Table) {
    forall path {:trigger Untouched(p, t.guest, path)} ::
      Untouched(p, t.guest, path) ==> SameTranslation(t, p.newRoot + path, t', path)
  }

  /** With nothing bound at or under put_old, a path under it is now what it was without it. */
  ghost predicate ExposesPreviousRoot(p: Pivot, t: Table, t': Table) {
    p.putOld.Some? && Free(p, t.guest) ==>
      forall path: seq<Name> {:trigger Fits(p.putOld.value + path)} ::
        && Fits(p.putOld.value + path)
        && Lookup(t, Guest, Render(path)).Some?
        && !p.Moved(Lookup(t, Guest, Render(path)).value)
        ==> SameTranslation(t, path, t', p.putOld.value + path)
  }

  lemma LookupIsDeepest(t: Table, path: seq<Name>)
    requires Valid(t)
    ensures var b := Lookup(t, Guest, Render(path)); b.Some? && Deepest(t.guest, path, b.value)
  {
    hide Components, Lookup, Valid, Prefix;
    ComponentsOfRender(path);
    LookupIsLongestPrefix(t, Render(path));
  }

  lemma KeysAreUnique(list: seq<Binding>)
    requires AllWellFormed(list) && DistinctMarks(list)
    ensures UniqueKeys(list)
  {
    hide Components, DistinctMarks, AllWellFormed;
    KeysAreDistinct(list);
    forall x, y | x in list && y in list && Key(x, Guest) == Key(y, Guest) ensures x == y {
      var i :| 0 <= i < |list| && list[i] == x;
      var j :| 0 <= j < |list| && list[j] == y;
    }
  }

  lemma ToHostCanonical(t: Table, path: seq<Name>)
    requires Valid(t)
    ensures Lookup(t, Guest, Render(path)).Some? && Prefix(Key(Lookup(t, Guest, Render(path)).value, Guest), path)
    ensures Canonical(ToHost(t, Render(path)))
    ensures var b := Lookup(t, Guest, Render(path)).value;
            Fits(Rebased(b, path)) ==> Components(ToHost(t, Render(path))) == Rebased(b, path)
  {
    hide Components, ComparePaths, Lookup, Valid, Body, ToHost, Canonical, Fits, Render;
    ToHostIsRebased(t, path);
    var b := Lookup(t, Guest, Render(path)).value;
    ComponentsOfRender(path);
    ComponentsOfRender(Rebased(b, path));
    ToHostEither(t, path, b);
  }

  lemma ToHostEither(t: Table, path: seq<Name>, b: Binding)
    requires WellFormed(b) && Prefix(Key(b, Guest), path) && Lookup(t, Guest, Render(path)) == Some(b)
    ensures ToHost(t, Render(path)) == Render(path) || ToHost(t, Render(path)) == Render(Rebased(b, path))
  {
    hide Components, ComparePaths, Lookup, Body;
    SymmetricIsEqual(b);
    var rest := path[|Key(b, Guest)|..];
    assert path == Key(b, Guest) + rest;
    if b.NeedSubstitution() {
      SubstituteReplacesPrefix(Key(b, Guest), Key(b, Host), rest);
    }
  }

  // ----- The pivot theorems, over the tables -----

  /** What the pivot leaves: besides what lies at or under put_old, only canonical paths. */
  ghost predicate CanonicalElsewhere(p: Pivot, list: seq<Binding>) {
    forall x :: x in list ==> p.AtPutOld(Key(x, Guest)) || WellFormed(x)
  }

  /** A lookup elsewhere than at put_old finds the deepest binding, whatever the texts at put_old. */
  lemma LookupElsewhere(p: Pivot, t: Table, root: Binding, path: seq<Name>)
    requires Ordered(t) && CanonicalElsewhere(p, t.guest) && !p.AtPutOld(path)
    requires root in t.guest && root.guest == "/"
    ensures var b := Lookup(t, Guest, Render(path)); b.Some? && Deepest(t.guest, path, b.value)
  {
    hide Components, ComparePaths, Mark, Sorted, DistinctMarks, Named, Canonical, Body, Render, Covers, AllNamed;
    ComponentsOfRender(path);
    RenderAbsolute(path);
    CoversRoot(root, Render(path));
    var b := Lookup(t, Guest, Render(path)).value;
    NamedElement(t.guest, b);
    CoversNames(b, path);
    FirstCoverIsDeepest(t.guest, Guest, Render(path));
    forall x | x in t.guest && Prefix(Key(x, Guest), path) ensures Prefix(Key(x, Guest), Key(b, Guest)) {
      CoversIsPrefix(x, Guest, Render(path));
      MarksOfCanonical(x.guest, b.guest);
    }
  }

  lemma NamedElement(list: seq<Binding>, b: Binding)
    requires AllNamed(list) && b in list
    ensures Named(b)
  {
    hide Named;
  }

  lemma CoversRoot(root: Binding, path: string)
    requires root.guest == "/" && IsAbsolute(path)
    ensures Covers(root, Guest, path)
  {
  }

  /** The names of what covers a path start those of the path. */
  lemma CoversNames(b: Binding, path: seq<Name>)
    requires Named(b) && Covers(b, Guest, Render(path))
    ensures Prefix(Key(b, Guest), path)
  {
    hide Components, ComparePaths, Covers, Mark, Body, Render;
    RenderAbsolute(path);
    CoversText(b, Guest, Render(path));
    MarkEnds(b.guest);
    var a, c := Mark(b.guest), Mark(Render(path));
    NamesOfLonger(a[..|a| - 1], c[|a|..]);
    assert a == a[..|a| - 1] + "/" && c == a[..|a| - 1] + "/" + c[|a|..];
    NamesOfMark(b.guest);
    NamesOfMark(Render(path));
    ComponentsOfRender(path);
  }

  lemma MarkEnds(path: string)
    ensures Mark(path) != "" && Mark(path)[|Mark(path)| - 1] == '/'
  {
  }

  lemma NamesOfLonger(u: string, w: string)
    ensures Prefix(Components(u + "/"), Components(u + "/" + w))
  {
    hide Components;
    assert Components("/") == [] by { ComponentsOfRender([]); }
    ComponentsConcat(u, "/");
    ComponentsConcat(u, "/" + w);
    assert u + "/" + w == u + ("/" + w);
  }

  lemma NamesOfMark(path: string)
    ensures Components(Mark(path)) == Components(path)
  {
    hide Components;
    ComponentsConcat(path, "/");
    assert Components("/") == [] by { ComponentsOfRender([]); }
  }

  lemma PivotKeepsNewRoot(p: Pivot, t: Table, t': Table, first: nat, root: Binding, exposed: Option<Binding>)
    requires Valid(t) && Ordered(t') && CanonicalElsewhere(p, t'.guest) && root.guest == "/"
    requires Rebasing(p, t.guest, |t.guest|, first, root, exposed, t'.guest)
    requires var b := Lookup(t, Guest, Render(p.newRoot));
             b.Some? && Prefix(Key(b.value, Guest), p.newRoot) && Key(root, Host) == Rebased(b.value, p.newRoot)
    ensures KeepsNewRoot(p, t, t')
  {
    hide Components, Lookup, Rebasing, Untouched, Sorted, DistinctMarks, Prefix, Render, CanonicalElsewhere;
    KeysAreUnique(t.guest);
    LookupIsDeepest(t, p.newRoot);
    forall path | Untouched(p, t.guest, path) ensures SameTranslation(t, p.newRoot + path, t', path) {
      LookupIsDeepest(t, p.newRoot + path);
      RebasingRoot(p, t, first, root, exposed, t');
      UntouchedElsewhere(p, t, path);
      LookupElsewhere(p, t', root, path);
      LookupAfterPivot(p, t.guest, first, root, exposed, t'.guest, path,
                       Lookup(t, Guest, Render(p.newRoot + path)).value, Lookup(t', Guest, Render(path)).value,
                       Lookup(t, Guest, Render(p.newRoot)).value);
    }
  }

  /** The path is found through an old binding that stays where it is, as nothing that the pivot binds is deeper. */
  ghost predicate HeldInPlace(p: Pivot, t: Table, path: seq<Name>) {
    var b := Lookup(t, Guest, Render(path));
    && b.Some? && p.Kept(b.value) && !p.AtPutOld(path)
    && forall y :: y in t.guest && p.Moved(y) && Prefix(p.MovedKey(y), path) ==> !Prefix(Key(b.value, Guest), p.MovedKey(y))
  }

  /** Such a path is found as before; and all the bindings that stay are still there, but those whose very guest path was
  bound anew. */
  ghost predicate KeepsOthers(p: Pivot, t: Table, first: nat, t': Table) {
    && AllRemain(p, t.guest, first, t'.guest)
    && forall path {:trigger HeldInPlace(p, t, path)} ::
         HeldInPlace(p, t, path) ==> Lookup(t', Guest, Render(path)) == Lookup(t, Guest, Render(path))
  }

  lemma PivotKeepsOthers(p: Pivot, t: Table, t': Table, first: nat, root: Binding, exposed: Option<Binding>)
    requires Valid(t) && IdsBelow(t.guest, first)
    requires Ordered(t') && CanonicalElsewhere(p, t'.guest) && root.guest == "/"
    requires Rebasing(p, t.guest, |t.guest|, first, root, exposed, t'.guest)
    ensures KeepsOthers(p, t, first, t')
  {
    hide Components, Lookup, Rebasing, HeldInPlace, Sorted, DistinctMarks, Prefix, Render, CanonicalElsewhere, AllRemain;
    RebasingRemains(p, t, first, root, exposed, t');
    forall path | HeldInPlace(p, t, path) ensures Lookup(t', Guest, Render(path)) == Lookup(t, Guest, Render(path)) {
      HeldIsFound(p, t, t', first, root, exposed, path);
    }
  }

  lemma RebasingRemains(p: Pivot, t: Table, first: nat, root: Binding, exposed: Option<Binding>, t': Table)
    requires Rebasing(p, t.guest, |t.guest|, first, root, exposed, t'.guest)
    ensures AllRemain(p, t.guest, first, t'.guest)
    ensures root in t'.guest && Key(root, Guest) == []
    ensures forall x :: x in t'.guest ==> Origin(p, t.guest, |t.guest|, first, root, exposed, x)
  {
    hide AllRemain, Origin;
  }

  lemma HeldIsFound(p: Pivot, t: Table, t': Table, first: nat, root: Binding, exposed: Option<Binding>, path: seq<Name>)
    requires Valid(t) && IdsBelow(t.guest, first) && HeldInPlace(p, t, path)
    requires Ordered(t') && CanonicalElsewhere(p, t'.guest) && root.guest == "/"
    requires Rebasing(p, t.guest, |t.guest|, first, root, exposed, t'.guest)
    ensures Lookup(t', Guest, Render(path)) == Lookup(t, Guest, Render(path))
  {
    hide Components, Lookup, Rebasing, Sorted, DistinctMarks, Prefix, Render, CanonicalElsewhere, AllRemain, Ordered, Remains,
         IdsBelow, Valid, UniqueKeys;
    ValidKeys(t);
    LookupIsDeepest(t, path);
    RebasingRemains(p, t, first, root, exposed, t');
    LookupElsewhere(p, t', root, path);
    var b, x := Lookup(t, Guest, Render(path)).value, Lookup(t', Guest, Render(path)).value;
    var i :| 0 <= i < |t.guest| && t.guest[i] == b;
    assert Remains(t'.guest, first, b) by { RemainsAt(p, t.guest, first, t'.guest, i); }
    StillDeepest(p, t, first, root, exposed, t'.guest, path, b, x);
  }

  lemma ValidKeys(t: Table)
    requires Valid(t)
    ensures UniqueKeys(t.guest)
  {
    hide UniqueKeys, Sorted, AllNamed, RootLast;
    KeysAreUnique(t.guest);
  }

  lemma RemainsAt(p: Pivot, before: seq<Binding>, first: nat, after: seq<Binding>, i: nat)
    requires AllRemain(p, before, first, after) && i < |before| && p.Kept(before[i])
    ensures Remains(after, first, before[i])
  {
  }

  /** Whatever covers the path now and was not there is not deeper. */
  lemma NotDeeper(p: Pivot, t: Table, first: nat, root: Binding, exposed: Option<Binding>, path: seq<Name>, b: Binding, x: Binding)
    requires Origin(p, t.guest, |t.guest|, first, root, exposed, x) && Prefix(Key(x, Guest), path)
    requires p.Kept(b) && !p.AtPutOld(path) && Key(root, Guest) == []
    requires forall y :: y in t.guest && p.Moved(y) && Prefix(p.MovedKey(y), path) ==> !Prefix(Key(b, Guest), p.MovedKey(y))
    requires Prefix(Key(b, Guest), Key(x, Guest))
    ensures x in t.guest && x.id < first
  {
    hide Components, Prefix;
    if p.AtPutOld(Key(x, Guest)) {
      PrefixOfUntouched(p, Key(x, Guest), path);
    }
    if x == root {
      PrefixOfNone(Key(b, Guest));
    }
  }

  lemma PrefixOfNone(a: seq<Name>)
    ensures Prefix(a, []) ==> a == []
  {
  }

  lemma StillDeepest(p: Pivot, t: Table, first: nat, root: Binding, exposed: Option<Binding>, after: seq<Binding>,
                     path: seq<Name>, b: Binding, x: Binding)
    requires UniqueKeys(t.guest) && IdsBelow(t.guest, first) && Key(root, Guest) == []
    requires forall y :: y in after ==> Origin(p, t.guest, |t.guest|, first, root, exposed, y)
    requires Deepest(t.guest, path, b) && Deepest(after, path, x) && Remains(after, first, b)
    requires p.Kept(b) && !p.AtPutOld(path)
    requires forall y :: y in t.guest && p.Moved(y) && Prefix(p.MovedKey(y), path) ==> !Prefix(Key(b, Guest), p.MovedKey(y))
    ensures x == b
  {
    hide Components, Origin, Prefix;
    if b !in after {
      var y :| y in after && y.id >= first && Key(y, Guest) == Key(b, Guest);
      EmptyRest(Key(b, Guest));
      NotDeeper(p, t, first, root, exposed, path, b, y);
    }
    NotDeeper(p, t, first, root, exposed, path, b, x);
    BothPrefixes(Key(x, Guest), Key(b, Guest));
  }

  lemma BothPrefixes(a: seq<Name>, b: seq<Name>)
    ensures Prefix(a, b) && Prefix(b, a) ==> a == b
  {
  }

  lemma RebasingRoot(p: Pivot, t: Table, first: nat, root: Binding, exposed: Option<Binding>, t': Table)
    requires Rebasing(p, t.guest, |t.guest|, first, root, exposed, t'.guest)
    ensures root in t'.guest
  {
  }

  lemma UntouchedElsewhere(p: Pivot, t: Table, path: seq<Name>)
    requires Untouched(p, t.guest, path)
    ensures !p.AtPutOld(path)
  {
  }

  /** When put_old ends with a dot, no path without dots lies there. */
  lemma NothingAtDot(p: Pivot, t: Table, t': Table)
    requires KeepsNewRoot(p, t, t') && (p.putOld.Some? ==> p.putOld.value != [] && p.putOld.value[|p.putOld.value| - 1] == ".")
    ensures ExposesNothing(p, t, t')
  {
    hide Components, SameTranslation;
    forall path | NoDots(path) && NotHeld(p, t, path) ensures SameTranslation(t, p.newRoot + path, t', path) {
      assert Untouched(p, t.guest, path);
    }
  }

  lemma AliasFitsUnder(p: Pivot, b: Binding, path: seq<Name>)
    requires p.putOld.Some? && p.putOld.value != [] && WellFormed(b)
    requires Prefix(Key(b, Guest), path) && Fits(p.putOld.value + path)
    ensures p.AliasFits(b)
  {
    hide Components, Body;
    RenderLength(Key(b, Guest), path);
    BodyConcat(p.putOld.value, path);
    if path == [] {
      assert b.guest == Render([]);
      assert p.putOld.value + path == p.putOld.value;
    }
  }

  lemma PivotExposesPreviousRoot(p: Pivot, t: Table, t': Table, first: nat, root: Binding, exposed: Option<Binding>,
                                 oldRoot: Binding)
    requires Valid(t) && Valid(t')
    requires Rebasing(p, t.guest, |t.guest|, first, root, exposed, t'.guest)
    requires p.putOld.Some? ==> exposed.Some? && p.putOld.value != [] && exposed.value.host == oldRoot.host
    requires p.putOld.Some? && Free(p, t.guest) ==> Exposing(p, t.guest, |t.guest|, first, exposed.value, t'.guest)
    requires oldRoot in t.guest && Key(oldRoot, Guest) == []
    ensures ExposesPreviousRoot(p, t, t')
  {
    hide Components, Lookup, Rebasing, Exposing, Free, Sorted, Prefix, Render, Canonical;
    KeysAreUnique(t.guest);
    if p.putOld.Some? && Free(p, t.guest) {
      var o := p.putOld.value;
      forall path: seq<Name> |
        Fits(o + path) && Lookup(t, Guest, Render(path)).Some? && !p.Moved(Lookup(t, Guest, Render(path)).value)
        ensures SameTranslation(t, path, t', o + path)
      {
        LookupIsDeepest(t, path);
        LookupIsDeepest(t', o + path);
        var b := Lookup(t, Guest, Render(path)).value;
        var i :| 0 <= i < |t.guest| && t.guest[i] == b;
        AliasFitsUnder(p, b, path);
        LookupOfPreviousRoot(p, t.guest, first, root, exposed.value, t'.guest, path, b,
                             Lookup(t', Guest, Render(o + path)).value);
      }
    }
  }

  // ----- The lists, changed in place -----

  class NameSpace {
    var guest: seq<Binding>
    var host: seq<Binding>
    var nextId: nat

    function Lists(): Table
      reads this
    {
      Table(guest, host)
    }

    /** get_binding(). */
    method GetBinding(side: Side, path: string) returns (r: Option<Binding>)
      requires path != "" && path[0] == '/'  // asserted by the source
      ensures r == Lookup(Lists(), side, path)
    {
      hide ComparePaths;
      var list := Lists().List(side);
      var i := 0;
      while i < |list|
        invariant 0 <= i <= |list|
        invariant forall j :: 0 <= j < i ==> Skipped(Lists(), side, path) || !Covers(list[j], side, path)
      {
        if Covers(list[i], side, path) {
          // What lies in the root file system itself is not looked up through a binding of what contains it.
          if !(side == Host && ComparePaths(Root(Lists()), "/") != PathsAreEqual && BelongsToGuestfs(Lists(), path)) {
            FirstCoverAt(list, side, path, i);
            return Some(list[i]);
          }
        }
        i := i + 1;
      }
      if !Skipped(Lists(), side, path) {
        FirstCoverNone(list, side, path);
      }
      return None;
    }

    /** insort_binding(). */
    method InsortBinding(side: Side, b: Binding)
      modifies this
      ensures Lists() == Insorted(old(Lists()), side, b) && nextId == old(nextId)
    {
      hide ComparePaths, InsertAt, Without;
      var list := Lists().List(side);
      // `next` is the first element from the start, so that only an empty list leaves it at the head.
      var previous, i := -1, 0;
      while i < |list|
        invariant 0 <= i <= |list|
        invariant previous + 1 == AfterContained(list, side, b, i)
        invariant side == Guest ==> forall j :: 0 <= j < i ==> !SamePath(b, list[j], Guest)
        invariant Lists() == old(Lists()) && nextId == old(nextId)
      {
        var comparison := ComparePaths(PathOf(b, side), PathOf(list[i], side));
        if comparison == PathsAreEqual {
          if side == Host {
            previous := i;
          } else {
            // Same path: one for the other.
            SameIndexAt(list, b, i);
            guest := InsertAt(list, i + 1, b);
            RemoveFromAllLists(list[i]);
            return;
          }
        } else if comparison == Path1IsPrefix {
          // It has to come after what it contains.
          previous := i;
        }
        i := i + 1;
      }
      if side == Guest {
        SameIndexNone(list, b);
      }
      var k := if previous >= 0 then previous + 1 else 0;
      match side
      case Guest => guest := InsertAt(list, k, b);
      case Host => host := InsertAt(list, k, b);
    }

    /** remove_binding_from_all_lists(). */
    method RemoveFromAllLists(b: Binding)
      modifies this
      ensures Lists() == RemovedFromAll(old(Lists()), b) && nextId == old(nextId)
      ensures IdsBelow(old(guest), nextId) ==> IdsBelow(guest, nextId)
    {
      WithoutIds(guest, b);
      guest := Without(guest, b);
      host := Without(host, b);
    }

    /** insort_binding3(), which allocates the binding. */
    method InsortBinding3(hostPath: string, guestPath: string) returns (b: Binding)
      modifies this
      ensures b == Binding(old(nextId), hostPath, guestPath)
      ensures Lists() == Insorted2(old(Lists()), b) && nextId == old(nextId) + 1
      ensures IdsBelow(old(guest), old(nextId)) ==> IdsBelow(guest, nextId)
    {
      b := Binding(nextId, hostPath, guestPath);
      InsortedIds(Lists(), b);
      nextId := nextId + 1;
      InsortBinding(Guest, b);
      InsortBinding(Host, b);
    }

    /** The end of emulate_mount(), once both paths are canonical. */
    method EmulateMount(hostPath: string, guestPath: string)
      requires Valid(Lists()) && Canonical(hostPath) && Canonical(guestPath)
      modifies this
      ensures Valid(Lists())
      ensures var b := Binding(old(nextId), hostPath, guestPath);
              && Lists() == Insorted2(old(Lists()), b)
              && forall x :: x in guest <==> x == b || (x in old(guest) && x.guest != guestPath)
      ensures IdsBelow(old(guest), old(nextId)) ==> IdsBelow(guest, nextId)
    {
      var b := InsortBinding3(hostPath, guestPath);
      InsortKeeps(old(Lists()), b);
      ghost var t := old(Lists());
      forall x | x in t.guest ensures x.guest == guestPath <==> Key(x, Guest) == Key(b, Guest) {
        InTableGuest(t, x);
        RenderInjective(Key(x, Guest), Key(b, Guest));
      }
    }

    /** The end of emulate_umount(). */
    method EmulateUmount(guestPath: string)
      requires Valid(Lists()) && Canonical(guestPath)
      modifies this
      ensures Valid(Lists())
      ensures forall x :: x in guest <==> x in old(guest) && (guestPath == "/" || x.guest != guestPath)
      ensures IdsBelow(old(guest), nextId) ==> IdsBelow(guest, nextId)
    {
      hide Components, ComparePaths, Sorted, DistinctKeys;
      // The root stays bound.
      if guestPath == "/" {
        return;
      }
      CanonicalAbsolute(guestPath);
      var b := GetBinding(Guest, guestPath);
      UmountTarget(Lists(), guestPath);
      if b.None? || b.value.guest != guestPath {
        return;
      }
      RemoveKeeps(Lists(), b.value);
      RemoveFromAllLists(b.value);
    }

    /** emulate_pivot_root(), once new_root is a guest path and put_old the path p, ended as canonicalize() leaves it.
    The previous tree is exposed at put_old just when that is strictly under the new root and has no such end; with a
    final separator every lookup there misses a separator, and with a final dot nothing is looked up there. */
    method EmulatePivotRoot(newRootGuest: string, putOldGuest: string, ghost p: seq<Name>, ghost finality: Finality)
      returns (ghost pivot: Pivot)
      requires Valid(Lists()) && IdsBelow(guest, nextId)
      requires Canonical(newRootGuest) && newRootGuest != "/" && NoDots(Components(newRootGuest))
      requires putOldGuest == Render(p) + Suffix(p, finality) && NoDots(p)
      modifies this
      ensures Ordered(Lists()) && IdsBelow(guest, nextId)
      ensures pivot == Pivot(Components(newRootGuest), PutOldNames(Components(newRootGuest), p, finality))
      ensures var b := Lookup(old(Lists()), Guest, newRootGuest);
              b.Some? && Prefix(Key(b.value, Guest), pivot.newRoot) &&
              (Fits(Rebased(b.value, pivot.newRoot)) ==>
                 && KeepsNewRoot(pivot, old(Lists()), Lists())
                 && (finality.FinalDot? || !(pivot.newRoot < p) ==> ExposesNothing(pivot, old(Lists()), Lists())))
      ensures KeepsOthers(pivot, old(Lists()), old(nextId), Lists())
      ensures if pivot.newRoot < p && finality.FinalSlash? then
                var oldRoot := Lookup(old(Lists()), Guest, "/");
                oldRoot.Some? && DropsSeparator(pivot, old(Lists()), oldRoot.value, Lists())
              else
                Valid(Lists()) && ExposesPreviousRoot(pivot, old(Lists()), Lists())
    {
      hide Components, ComparePaths, Valid, ToHost, Lookup, PivotState, Canonical, KeepsNewRoot, ExposesPreviousRoot, Fits;
      hide Insorted2, RemovedFromAll, PutOldAfter, Render, Suffix, DropsSeparator, ExposesNothing, Ordered, NoDots, KeepsOthers;
      ghost var t := Lists();
      ghost var n := Components(newRootGuest);
      ghost var slash := n < p && finality.FinalSlash?;
      pivot := Pivot(n, PutOldNames(n, p, finality));
      var newRootHost := ToHost(Lists(), newRootGuest);
      var rootBinding := GetBinding(Guest, "/");
      RootBinding(t);
      var oldRoot := rootBinding.value;
      var putOldAfter := PutOldAfter(putOldGuest, newRootGuest);
      PutOldPlaced(newRootGuest, p, finality);
      NotTheRoot(newRootGuest);
      PutOldPlaceNames(n, p, finality);

      // The root becomes the new one, and the previous one goes to put_old.
      var snapshot := guest;
      ghost var first := nextId;
      RemoveFromAllLists(oldRoot);
      var root := InsortBinding3(newRootHost, "/");
      var exposed := None;
      if putOldAfter.Some? {
        var b := InsortBinding3(oldRoot.host, putOldAfter.value);
        exposed := Some(b);
      }
      PivotBegins(pivot, slash, t, first, root, exposed, oldRoot, newRootGuest, putOldAfter);
      var i := 0;
      while i < |snapshot|
        invariant 0 <= i <= |snapshot| && first <= nextId && IdsBelow(guest, nextId)
        invariant PivotState(pivot, slash, t, i, first, root, exposed, Lists())
      {
        var b := snapshot[i];
        PivotTests(pivot, slash, t, b, newRootGuest, putOldAfter);
        if b == oldRoot || b.guest == "/" {
          PivotSkips(pivot, slash, t, i, first, root, exposed, Lists());
        } else if IsUnder(b.guest, newRootGuest) {
          // A binding under the new root moves with it.
          var before := Lists();
          var c := InsortBinding3(b.host, b.guest[|newRootGuest|..]);
          RemoveFromAllLists(b);
          PivotMoves(pivot, slash, t, i, first, root, exposed, before, c);
        } else if putOldAfter.Some? && !IsAtOrUnder(b.guest, putOldAfter.value) &&
                  |putOldAfter.value| + |b.guest| < PATH_MAX {
          // Any other one is exposed again under put_old.
          var before := Lists();
          var c := InsortBinding3(b.host, putOldAfter.value + b.guest);
          PivotAliases(pivot, slash, t, i, first, root, exposed, before, c);
        } else {
          PivotSkips(pivot, slash, t, i, first, root, exposed, Lists());
        }
        i := i + 1;
      }
      PivotParts(pivot, slash, t, first, root, exposed, Lists());
      PivotEnds(pivot, slash, t, first, root, exposed, oldRoot, Lists(), newRootGuest);
      if Fits(Rebased(Lookup(t, Guest, newRootGuest).value, n)) && (finality.FinalDot? || !(n < p)) {
        NothingAtDot(pivot, t, Lists());
      }
    }
  }

  lemma PivotParts(p: Pivot, slash: bool, t: Table, first: nat, root: Binding, exposed: Option<Binding>, t': Table)
    requires PivotState(p, slash, t, |t.guest|, first, root, exposed, t')
    ensures Ordered(t')
  {
  }

  lemma NotTheRoot(path: string)
    requires Canonical(path) && path != "/"
    ensures Components(path) != []
  {
  }

  lemma PutOldPlaceNames(n: seq<Name>, p: seq<Name>, finality: Finality)
    requires n != []
    ensures var names, text := PutOldNames(n, p, finality), PutOldPlace(n, p, finality);
            && (names.Some? <==> text.Some?)
            && (names.Some? ==> names.value != [] && text.value == PutOldText(names.value, n < p && finality.FinalSlash?))
            && (names.Some? && (finality.FinalDot? || !(n < p)) ==> names.value[|names.value| - 1] == ".")
  {
    hide Components;
    if n < p {
      var o := p[|n|..];
      BodyEnd(o);
      BodySnoc(o, ".");
      assert Body(o) + "/" + "." == Body(o) + "/." && Body(o) + "" == Body(o);
      assert Body(o + ["."]) + "" == Body(o + ["."]) && o + [] == o;
    } else {
      BodySingle(".");
      assert "/." + "" == "/.";
    }
  }

  lemma {:induction false} WithoutIds(list: seq<Binding>, b: Binding)
    ensures forall x :: x in Without(list, b) ==> x in list
  {
    if list != [] {
      WithoutIds(list[1..], b);
    }
  }

  /** Inserting adds nothing but the new binding. */
  lemma InsortedIds(t: Table, b: Binding)
    ensures forall x :: x in Insorted2(t, b).guest ==> x == b || x in t.guest
  {
    hide ComparePaths, Without;
    var k := SameIndex(t.guest, b);
    if k < |t.guest| {
      WithoutIds(InsertAt(t.guest, k + 1, b), t.guest[k]);
    }
  }

  // ----- The steps of emulate_pivot_root() -----

  /** The state of the loop; `slash` says that put_old ends with a separator. */
  ghost predicate PivotState(p: Pivot, slash: bool, t: Table, n: nat, first: nat, root: Binding, exposed: Option<Binding>,
                             t': Table)
  {
    && n <= |t.guest| && Ordered(t') && CanonicalElsewhere(p, t'.guest)
    && Rebasing(p, t.guest, n, first, root, exposed, t'.guest)
    && (!slash ==> Valid(t'))
    && (!slash && p.putOld.Some? && Free(p, t.guest) ==>
          exposed.Some? && Exposing(p, t.guest, n, first, exposed.value, t'.guest))
    && (slash && Free(p, t.guest) ==> exposed.Some? && OnlyDoubled(p, t.guest, n, exposed.value, t'.guest))
  }

  /** Under put_old with its final separator there are but paths with two separators in a row, and what is still to be
  moved away. */
  ghost predicate OnlyDoubled(p: Pivot, before: seq<Binding>, n: nat, exposed: Binding, after: seq<Binding>)
    requires n <= |before|
  {
    exposed in after &&
    forall x :: x in after ==>
      || x == exposed || !Prefix(exposed.guest, MarkOf(x, Guest)) || Prefix(exposed.guest + "/", x.guest)
      || Pending(p, before, n, x)
  }

  ghost predicate Pending(p: Pivot, before: seq<Binding>, n: nat, x: Binding)
    requires n <= |before|
  {
    exists j :: n <= j < |before| && x == before[j] && p.Moved(x)
  }

  /** The texts of put_old and of what is exposed under it. */
  function PutOldText(o: seq<Name>, slash: bool): string {
    Render(o) + if slash then "/" else ""
  }

  lemma RootBinding(t: Table)
    requires Valid(t)
    ensures var b := Lookup(t, Guest, "/"); b.Some? && b.value in t.guest && Key(b.value, Guest) == [] && WellFormed(b.value)
    ensures forall x :: x in t.guest && Key(x, Guest) == [] ==> Some(x) == Lookup(t, Guest, "/")
  {
    hide Components, ComparePaths, Lookup, Sorted;
    ComponentsOfRender([]);
    LookupIsDeepest(t, []);
    KeysAreUnique(t.guest);
    var b := Lookup(t, Guest, "/").value;
    var i :| 0 <= i < |t.guest| && t.guest[i] == b;
  }

  ghost predicate PutOldIs(p: Pivot, slash: bool, putOldAfter: Option<string>) {
    if p.putOld.Some? then p.putOld.value != [] && putOldAfter == Some(PutOldText(p.putOld.value, slash))
    else putOldAfter == None && !slash
  }

  /** What the tests of the loop say of the pivot. */
  lemma PivotTests(p: Pivot, slash: bool, t: Table, b: Binding, newRootGuest: string, putOldAfter: Option<string>)
    requires Valid(t) && b in t.guest
    requires Canonical(newRootGuest) && newRootGuest != "/" && p.newRoot == Components(newRootGuest)
    requires PutOldIs(p, slash, putOldAfter)
    ensures WellFormed(b) && (b.guest == "/" <==> Key(b, Guest) == [])
    ensures IsUnder(b.guest, newRootGuest) <==> p.Moved(b)
    ensures p.Moved(b) ==> b.guest[|newRootGuest|..] == Render(p.MovedKey(b)) && p.MovedKey(b) != []
    ensures p.putOld.Some? && !slash ==> (IsAtOrUnder(b.guest, putOldAfter.value) <==> p.AtPutOld(Key(b, Guest)))
    ensures p.putOld.Some? && !slash ==> (|putOldAfter.value| + |b.guest| < PATH_MAX <==> p.AliasFits(b))
    ensures p.putOld.Some? && !slash && Key(b, Guest) != [] ==> putOldAfter.value + b.guest == Render(p.Alias(b))
  {
    hide Components, Valid, Body, IsUnder, IsAtOrUnder;
    InTableGuest(t, b);
    ComponentsOfRender([]);
    assert b.guest == Render(Key(b, Guest));
    UnderIsPrefix(b.guest, newRootGuest);
    if p.putOld.Some? {
      assert !slash ==> putOldAfter.value == Render(p.putOld.value);
      ComponentsOfRender(p.putOld.value);
      BodyEnd(p.putOld.value);
      UnderIsPrefix(b.guest, Render(p.putOld.value));
      BodyConcat(p.putOld.value, Key(b, Guest));
    }
  }

  lemma InTableGuest(t: Table, b: Binding)
    requires Valid(t) && b in t.guest
    ensures WellFormed(b)
  {
    hide Components, WellFormed, Sorted, DistinctKeys;
    var i :| 0 <= i < |t.guest| && t.guest[i] == b;
  }

  /** The bindings once the root is switched and put_old bound. */
  ghost function Switched(t: Table, oldRoot: Binding, root: Binding, exposed: Option<Binding>): Table {
    var t2 := Insorted2(RemovedFromAll(t, oldRoot), root);
    if exposed.Some? then Insorted2(t2, exposed.value) else t2
  }

  /** What insort_binding2() does to the guest list, in terms of names. */
  lemma InsortRebounds(t: Table, c: Binding)
    requires Ordered(t) && Named(c)
    ensures Ordered(Insorted2(t, c)) && Rebound(t.guest, c, Insorted2(t, c).guest)
    ensures forall x :: x in Insorted2(t, c).guest <==> x == c || (x in t.guest && MarkOf(x, Guest) != MarkOf(c, Guest))
  {
    hide Ordered, Mark, Components, Insorted2, Named;
    InsortOrdered(t, c);
    forall x | x in t.guest && Key(x, Guest) != Key(c, Guest) ensures MarkOf(x, Guest) != MarkOf(c, Guest) {
      NamesOfMark(x.guest);
      NamesOfMark(c.guest);
    }
  }

  lemma SwitchedElements(t: Table, oldRoot: Binding, root: Binding, exposed: Option<Binding>)
    requires Valid(t) && oldRoot in t.guest && WellFormed(root) && root.guest == "/"
    requires exposed.Some? ==> Named(exposed.value) && Key(exposed.value, Guest) != []
    requires Key(oldRoot, Guest) == [] && forall x :: x in t.guest && Key(x, Guest) == [] ==> x == oldRoot
    ensures Ordered(Switched(t, oldRoot, root, exposed))
    ensures (exposed.Some? ==> WellFormed(exposed.value)) ==> Valid(Switched(t, oldRoot, root, exposed))
    ensures forall x :: x in Switched(t, oldRoot, root, exposed).guest ==>
              x == root || Some(x) == exposed || (x in t.guest && Key(x, Guest) != [])
    ensures root in Switched(t, oldRoot, root, exposed).guest
    ensures exposed.Some? ==> exposed.value in Switched(t, oldRoot, root, exposed).guest
    ensures forall x :: x in t.guest && Key(x, Guest) != [] && !(exposed.Some? && Key(x, Guest) == Key(exposed.value, Guest)) ==>
              x in Switched(t, oldRoot, root, exposed).guest
  {
    hide Components, Prefix, Insorted2, RemovedFromAll, WellFormed, Ordered, RootLast, AllWellFormed, Named, Mark;
    var t1 := RemovedFromAll(t, oldRoot);
    RemoveKeeps(t, oldRoot);
    InsortKeeps(t1, root);
    assert Key(root, Guest) == [] by { WellFormedIsNamed(root); }
    InsortRebounds(t1, root) by { WellFormedIsNamed(root); }
    if exposed.Some? {
      InsortRebounds(Insorted2(t1, root), exposed.value);
      if WellFormed(exposed.value) {
        InsortKeeps(Insorted2(t1, root), exposed.value);
      }
    }
  }

  lemma PivotBegins(p: Pivot, slash: bool, t: Table, first: nat, root: Binding, exposed: Option<Binding>, oldRoot: Binding,
                    newRootGuest: string, putOldAfter: Option<string>)
    requires Valid(t) && IdsBelow(t.guest, first) && Canonical(newRootGuest)
    requires Lookup(t, Guest, "/") == Some(oldRoot)
    requires PutOldIs(p, slash, putOldAfter)
    requires root == Binding(first, ToHost(t, newRootGuest), "/")
    requires exposed == if putOldAfter.Some? then Some(Binding(first + 1, oldRoot.host, putOldAfter.value)) else None
    ensures PivotState(p, slash, t, 0, first, root, exposed, Switched(t, oldRoot, root, exposed))
  {
    hide Components, Prefix, Switched, Sorted, DistinctMarks, RootLast, AllWellFormed, ToHost, ComparePaths, Lookup,
         Body, Render;
    hide Ordered, Mark, Free, OnlyDoubled, Valid;
    RootBinding(t);
    ComponentsOfRender([]);
    assert Render([]) == "/" by { RootText(); }
    ToHostCanonical(t, Components(newRootGuest));
    if p.putOld.Some? {
      PutOldTextNames(p.putOld.value, slash);
      WellFormedIsNamed(oldRoot);
    }
    SwitchedElements(t, oldRoot, root, exposed);
    var t' := Switched(t, oldRoot, root, exposed);
    forall x | x in t'.guest ensures Origin(p, t.guest, 0, first, root, exposed, x) && (p.AtPutOld(Key(x, Guest)) || WellFormed(x)) {
      OriginInitially(p, t, first, root, exposed, x);
      if exposed.Some? && x == exposed.value {
        EmptyRest(p.putOld.value);
      } else if x != root {
        InTableGuest(t, x);
      }
    }
    forall j | 0 <= j < |t.guest| && p.Kept(t.guest[j]) ensures Remains(t'.guest, first, t.guest[j]) {
      assert t.guest[j] in t.guest;
    }
    if slash && Free(p, t.guest) {
      DoubledInitially(p, t, root, exposed.value, t'.guest);
    }
  }

  lemma RootText()
    ensures Render([]) == "/"
  {
  }

  lemma EmptyRest(o: seq<Name>)
    ensures Prefix(o, o)
  {
  }

  lemma PutOldTextNames(o: seq<Name>, slash: bool)
    requires o != []
    ensures Components(PutOldText(o, slash)) == o && IsAbsolute(PutOldText(o, slash))
    ensures !slash ==> PutOldText(o, slash) == Render(o) && Canonical(PutOldText(o, slash))
    ensures slash ==> PutOldText(o, slash) == Mark(Render(o))
  {
    hide Components;
    ComponentsOfRender(o);
    MarkOfRender(o);
    NamesOfMark(Render(o));
    BodyEnd(o);
    assert Render(o) + "" == Render(o);
  }

  lemma DoubledInitially(p: Pivot, t: Table, root: Binding, exposed: Binding, after: seq<Binding>)
    requires Valid(t) && Free(p, t.guest) && exposed in after && root.guest == "/"
    requires p.putOld.Some? && p.putOld.value != [] && exposed.guest == PutOldText(p.putOld.value, true)
    requires forall x :: x in after ==> x == root || x == exposed || (x in t.guest && Key(x, Guest) != [])
    ensures OnlyDoubled(p, t.guest, 0, exposed, after)
  {
    hide Components, Valid, Mark, Render, Canonical;
    PutOldTextNames(p.putOld.value, true);
    forall x | x in after
      ensures || x == exposed || !Prefix(exposed.guest, MarkOf(x, Guest)) || Prefix(exposed.guest + "/", x.guest)
              || Pending(p, t.guest, 0, x)
    {
      if x == root {
        LongerThanRoot(p.putOld.value);
      } else if x != exposed {
        InTableGuest(t, x);
        var j :| 0 <= j < |t.guest| && t.guest[j] == x;
        UnderPutOld(p.putOld.value, x);
      }
    }
  }

  lemma LongerThanRoot(o: seq<Name>)
    requires o != []
    ensures !Prefix(Mark(Render(o)), Mark("/"))
  {
    MarkOfRender(o);
    BodyEnd(o);
  }

  /** A canonical path is under put_old, its separator included, when its names are. */
  lemma UnderPutOld(o: seq<Name>, x: Binding)
    requires WellFormed(x)
    ensures Prefix(Mark(Render(o)), MarkOf(x, Guest)) <==> Prefix(o, Key(x, Guest))
  {
    hide Components, Mark;
    ComponentsOfRender(o);
    MarksOfCanonical(Render(o), x.guest);
  }

  lemma OriginInitially(p: Pivot, t: Table, first: nat, root: Binding, exposed: Option<Binding>, x: Binding)
    requires x == root || Some(x) == exposed || (x in t.guest && Key(x, Guest) != [])
    requires IdsBelow(t.guest, first)
    requires exposed.Some? ==> p.putOld == Some(Key(exposed.value, Guest)) && exposed.value.id >= first
    ensures Origin(p, t.guest, 0, first, root, exposed, x)
  {
    hide Components;
    if exposed.Some? && x == exposed.value {
      assert p.AtPutOld(Key(x, Guest));
    } else if x in t.guest && p.Moved(x) {
      var j :| 0 <= j < |t.guest| && t.guest[j] == x;
    }
  }

  lemma PivotEnds(p: Pivot, slash: bool, t: Table, first: nat, root: Binding, exposed: Option<Binding>, oldRoot: Binding,
                  t': Table, newRootGuest: string)
    requires Valid(t) && PivotState(p, slash, t, |t.guest|, first, root, exposed, t')
    requires Canonical(newRootGuest) && p.newRoot == Components(newRootGuest) && root.guest == "/"
    requires root.host == ToHost(t, newRootGuest) && Lookup(t, Guest, "/") == Some(oldRoot)
    requires p.putOld.Some? ==> exposed.Some? && p.putOld.value != [] && exposed.value.host == oldRoot.host
                                && exposed.value.guest == PutOldText(p.putOld.value, slash)
    ensures var b := Lookup(t, Guest, newRootGuest);
            b.Some? && Prefix(Key(b.value, Guest), p.newRoot) &&
            (Fits(Rebased(b.value, p.newRoot)) ==> KeepsNewRoot(p, t, t'))
    ensures !slash ==> Valid(t') && ExposesPreviousRoot(p, t, t')
    ensures slash ==> DropsSeparator(p, t, oldRoot, t')
    ensures IdsBelow(t.guest, first) ==> KeepsOthers(p, t, first, t')
  {
    hide KeepsOthers, IdsBelow;
    if IdsBelow(t.guest, first) {
      PivotKeepsOthers(p, t, t', first, root, exposed);
    }
    hide Components, Rebasing, Exposing, Prefix, Valid, ToHost, ComparePaths, Lookup, Body, Fits, Render, Ordered;
    hide KeepsNewRoot, ExposesPreviousRoot, OnlyDoubled, CanonicalElsewhere, Free;
    RootBinding(t);
    ToHostCanonical(t, p.newRoot);
    if !slash {
      PivotExposesPreviousRoot(p, t, t', first, root, exposed, oldRoot);
    } else if p.putOld.Some? && Free(p, t.guest) {
      forall path: seq<Name>
        ensures var text := Render(p.putOld.value + path);
                && LookupIs(t', text, Render(p.putOld.value) + "/", oldRoot.host)
                && (path != [] ==>
                      && ToHost(t', text) == WithoutSeparator(oldRoot.host, p.putOld.value, path)
                      && (ToHost(t', text) == Render(Key(oldRoot, Host) + path) <==> oldRoot.host == Render(p.putOld.value)))
      {
        FoundWithSlash(p, t, exposed.value, t', path);
        if path != [] {
          TranslatedWithoutSeparator(t', exposed.value, p.putOld.value, path);
          SeparatorIsMissing(oldRoot, p.putOld.value, path);
        }
      }
    }
    if Fits(Rebased(Lookup(t, Guest, newRootGuest).value, p.newRoot)) {
      PivotKeepsNewRoot(p, t, t', first, root, exposed);
    }
  }

  /** put_old and the paths under it are found there: two separators in a row start no canonical path. */
  lemma FoundWithSlash(p: Pivot, t: Table, exposed: Binding, t': Table, path: seq<Name>)
    requires Ordered(t') && OnlyDoubled(p, t.guest, |t.guest|, exposed, t'.guest)
    requires p.putOld.Some? && p.putOld.value != [] && exposed.guest == PutOldText(p.putOld.value, true)
    ensures Lookup(t', Guest, Render(p.putOld.value + path)) == Some(exposed)
  {
    hide Components, ComparePaths, Mark, Sorted, DistinctMarks, AllNamed, Covers, Body, Render, Pending;
    var o := p.putOld.value;
    var text := Render(o + path);
    PutOldTextNames(o, true);
    RenderAbsolute(o + path);
    MarksUnder(o, path);
    NamedElement(t'.guest, exposed);
    assert Mark(exposed.guest) == exposed.guest by { MarkTwice(Render(o)); }
    CoversText(exposed, Guest, text);
    var b := Lookup(t', Guest, text).value;
    NamedElement(t'.guest, b);
    CoversText(b, Guest, text);
    FirstCoverIsDeepest(t'.guest, Guest, text);
    assert !Pending(p, t.guest, |t.guest|, b) by { NonePending(p, t.guest, b); }
    if Prefix(exposed.guest + "/", b.guest) {
      NotDoubled(o, path);
      PrefixTransitive(exposed.guest + "/", b.guest, MarkOf(b, Guest)) by { MarkIsLonger(b.guest); }
      PrefixTransitive(exposed.guest + "/", MarkOf(b, Guest), Mark(text));
    }
  }

  lemma NonePending(p: Pivot, before: seq<Binding>, x: Binding)
    ensures !Pending(p, before, |before|, x)
  {
  }

  lemma MarkTwice(path: string)
    ensures Mark(Mark(path)) == Mark(path)
  {
  }

  lemma MarkIsLonger(path: string)
    ensures Prefix(path, Mark(path))
  {
  }

  lemma MarksUnder(o: seq<Name>, path: seq<Name>)
    ensures Prefix(Mark(Render(o)), Mark(Render(o + path)))
  {
    hide Mark, Components;
    ComponentsOfRender(o);
    ComponentsOfRender(o + path);
    MarksOfCanonical(Render(o), Render(o + path));
  }

  lemma NotDoubled(o: seq<Name>, path: seq<Name>)
    ensures !Prefix(Mark(Render(o)) + "/", Mark(Render(o + path)))
  {
    if path == [] {
      assert o + path == o;
      return;
    }
    MarkOfRender(o);
    MarkOfRender(o + path);
    BodyConcat(o, path);
    hide Mark, Render;
    var a, c := Body(o) + "/" + "/", Body(o) + Body(path) + "/";
    assert Body(path)[0] == '/' && Body(path)[1] == path[0][0] && path[0][0] in path[0];
    assert a[|Body(o)| + 1] == '/' && c[|Body(o)| + 1] == Body(path)[1];
  }

  /** What substitute_binding() makes of it. */
  lemma TranslatedWithoutSeparator(t: Table, b: Binding, o: seq<Name>, path: seq<Name>)
    requires Lookup(t, Guest, Render(o + path)) == Some(b) && o != [] && path != []
    requires b.guest == PutOldText(o, true) && Canonical(b.host)
    ensures ToHost(t, Render(o + path)) == WithoutSeparator(b.host, o, path)
  {
    hide Components, ComparePaths, Lookup, Mark, Render, Canonical;
    CanonicalIsAbsolute(b.host);
    PutOldTextNames(o, true);
    SubstitutesUnlessSame(b, o);
    TextsUnder(o, path);
  }

  lemma TextsUnder(o: seq<Name>, path: seq<Name>)
    requires o != [] && path != []
    ensures |PutOldText(o, true)| >= 3 && |Render(path)| >= 2
    ensures |Render(o + path)| == |PutOldText(o, true)| - 1 + |Render(path)|
    ensures Render(o + path)[|PutOldText(o, true)|..] == Render(path)[1..]
  {
    BodyConcat(o, path);
    BodyEnd(o);
    BodyEnd(path);
    assert Render(o + path) == Body(o) + Body(path);
  }

  lemma SubstitutesUnlessSame(b: Binding, o: seq<Name>)
    requires o != [] && b.guest == PutOldText(o, true) && Canonical(b.host)
    ensures b.host != "" && b.guest != "" && (b.NeedSubstitution() <==> b.host != Render(o))
  {
    hide Components, ComparePaths, Mark, Body;
    CanonicalIsAbsolute(b.host);
    PutOldTextNames(o, true);
    CompareMarks(b.host, b.guest);
    MarkTwice(Render(o));
    ComponentsOfRender(o);
    MarksOfCanonical(b.host, Render(o));
    RenderInjective(Components(b.host), o);
  }

  /** Which is right just when nothing is substituted. */
  lemma SeparatorIsMissing(oldRoot: Binding, o: seq<Name>, path: seq<Name>)
    requires Canonical(oldRoot.host) && o != [] && path != []
    ensures WithoutSeparator(oldRoot.host, o, path) == Render(Key(oldRoot, Host) + path) <==> oldRoot.host == Render(o)
  {
    hide Components;
    var h := Key(oldRoot, Host);
    RenderInjective(h, o);
    RenderInjective(o + path, h + path);
    BodyConcat(h, path);
    BodyEnd(path);
    if h != [] {
      BodyEnd(h);
    }
    assert o + path == h + path <==> o == h by {
      if o + path == h + path {
        assert |o| == |h| && (o + path)[..|o|] == o && (h + path)[..|h|] == h;
      }
    }
  }

  lemma PivotSkips(p: Pivot, slash: bool, t: Table, n: nat, first: nat, root: Binding, exposed: Option<Binding>, t': Table)
    requires n < |t.guest| && PivotState(p, slash, t, n, first, root, exposed, t')
    requires !p.Moved(t.guest[n])
    requires !slash && p.Kept(t.guest[n]) && p.putOld.Some? ==> p.AtPutOld(Key(t.guest[n], Guest)) || !p.AliasFits(t.guest[n])
    ensures PivotState(p, slash, t, n + 1, first, root, exposed, t')
  {
    hide Components, Valid, Rebasing, Exposing, Prefix, Ordered, CanonicalElsewhere, Mark;
    StepSkip(p, t.guest, n, first, root, exposed, t'.guest);
    if p.putOld.Some? && Free(p, t.guest) && !slash {
      ExposeSkip(p, t.guest, n, first, exposed.value, t'.guest);
    }
    if slash && Free(p, t.guest) {
      forall x | Pending(p, t.guest, n, x) ensures Pending(p, t.guest, n + 1, x) {
      }
    }
  }

  lemma PivotMoves(p: Pivot, slash: bool, t: Table, n: nat, first: nat, root: Binding, exposed: Option<Binding>,
                   before: Table, c: Binding)
    requires n < |t.guest| && PivotState(p, slash, t, n, first, root, exposed, before)
    requires Valid(t) && IdsBelow(t.guest, first) && p.Moved(t.guest[n])
    requires WellFormed(t.guest[n]) && c.id >= first && c.guest == Render(p.MovedKey(t.guest[n])) && c.host == t.guest[n].host
    requires exposed.Some? ==> exposed.value.id >= first
    requires slash ==> exposed.Some? && p.putOld.Some? && p.putOld.value != [] && exposed.value.guest == PutOldText(p.putOld.value, true)
    ensures PivotState(p, slash, t, n + 1, first, root, exposed, RemovedFromAll(Insorted2(before, c), t.guest[n]))
  {
    hide Components, Rebasing, Exposing, Prefix, Insorted2, RemovedFromAll, Ordered, RootLast, AllWellFormed, Render,
         Canonical;
    hide Mark, Named, OnlyDoubled, Free;
    var b := t.guest[n];
    ComponentsOfRender(p.MovedKey(b));
    var between := Insorted2(before, c);
    var after := RemovedFromAll(between, b);
    WellFormedIsNamed(c);
    WellFormedIsNamed(b);
    InsortRebounds(before, c);
    RemoveOrdered(between, b);
    if !slash {
      InsortKeeps(before, c);
      RemoveKeeps(between, b);
    }
    MovedKeyNonempty(p, b);
    KeysAreDistinct(t.guest) by { OrderedParts(t); }
    StepMoved(p, t.guest, n, first, root, exposed, before.guest, c, between.guest, after.guest);
    if p.putOld.Some? && Free(p, t.guest) && !slash {
      ExposeMoved(p, t.guest, n, first, exposed.value, before.guest, c, between.guest, after.guest);
    }
    if slash && Free(p, t.guest) {
      FreeMoved(p, t.guest, n);
      DoubledMoved(p, t.guest, n, exposed.value, before.guest, c, between.guest, after.guest);
    }
  }

  lemma FreeMoved(p: Pivot, before: seq<Binding>, n: nat)
    requires Free(p, before) && n < |before| && p.Moved(before[n])
    ensures !p.AtPutOld(p.MovedKey(before[n]))
  {
  }

  lemma DoubledMoved(p: Pivot, list: seq<Binding>, n: nat, exposed: Binding, before: seq<Binding>, c: Binding,
                     between: seq<Binding>, after: seq<Binding>)
    requires n < |list| && OnlyDoubled(p, list, n, exposed, before) && exposed.id != list[n].id
    requires p.putOld.Some? && p.putOld.value != [] && exposed.guest == PutOldText(p.putOld.value, true)
    requires WellFormed(c) && !p.AtPutOld(Key(c, Guest))
    requires forall x :: x in between <==> x == c || (x in before && MarkOf(x, Guest) != MarkOf(c, Guest))
    requires Unbound(between, list[n], after)
    ensures OnlyDoubled(p, list, n + 1, exposed, after)
  {
    hide Components, Mark, WellFormed, Render;
    PutOldTextNames(p.putOld.value, true);
    UnderPutOld(p.putOld.value, c);
    assert MarkOf(exposed, Guest) == exposed.guest by { MarkTwice(Render(p.putOld.value)); }
    forall x | x in after
      ensures || x == exposed || !Prefix(exposed.guest, MarkOf(x, Guest)) || Prefix(exposed.guest + "/", x.guest)
              || Pending(p, list, n + 1, x)
    {
      if Pending(p, list, n, x) {
        assert x != list[n];
      }
    }
  }

  lemma PivotAliases(p: Pivot, slash: bool, t: Table, n: nat, first: nat, root: Binding, exposed: Option<Binding>,
                     before: Table, c: Binding)
    requires n < |t.guest| && PivotState(p, slash, t, n, first, root, exposed, before)
    requires Valid(t) && p.Kept(t.guest[n]) && p.putOld.Some? && p.putOld.value != []
    requires WellFormed(t.guest[n]) && c.id >= first && c.host == t.guest[n].host
    requires c.guest == if slash then PutOldText(p.putOld.value, true) + t.guest[n].guest else Render(p.Alias(t.guest[n]))
    requires slash ==> exposed.Some? && exposed.value.guest == PutOldText(p.putOld.value, true)
    ensures PivotState(p, slash, t, n + 1, first, root, exposed, Insorted2(before, c))
  {
    hide Components, Rebasing, Exposing, Prefix, Insorted2, Ordered, RootLast, AllWellFormed, Render, Canonical;
    hide Mark, Named, OnlyDoubled, Free;
    var b := t.guest[n];
    ComponentsOfRender(p.Alias(b));
    var after := Insorted2(before, c);
    WellFormedIsNamed(b);
    NamedIsAbsolute(b);
    AliasNames(p.putOld.value, b, slash, c);
    InsortRebounds(before, c);
    if !slash {
      InsortKeeps(before, c);
    }
    StepAlias(p, t.guest, n, first, root, exposed, before.guest, c, after.guest);
    assert p.AtPutOld(Key(c, Guest)) by { StartsAlias(p.putOld.value, Key(b, Guest)); }
    if p.putOld.Some? && Free(p, t.guest) && !slash {
      KeysAreDistinct(t.guest) by { OrderedParts(t); }
      ExposeAlias(p, t.guest, n, first, exposed.value, before.guest, c, after.guest);
    }
    if slash && Free(p, t.guest) {
      DoubledAlias(p, t.guest, n, exposed.value, before.guest, c, after.guest);
    }
  }

  lemma StartsAlias(o: seq<Name>, key: seq<Name>)
    ensures Prefix(o, o + key)
  {
  }

  lemma AliasNames(o: seq<Name>, b: Binding, slash: bool, c: Binding)
    requires WellFormed(b) && o != [] && c.host == b.host && Key(b, Guest) != []
    requires c.guest == if slash then PutOldText(o, true) + b.guest else Render(o + Key(b, Guest))
    ensures Named(c) && Key(c, Guest) == o + Key(b, Guest)
    ensures !slash ==> WellFormed(c)
  {
    hide Components;
    WellFormedIsNamed(b);
    ComponentsOfRender(o + Key(b, Guest));
    RenderAbsolute(o + Key(b, Guest));
    if slash {
      PutOldTextNames(o, true);
      ComponentsConcat(PutOldText(o, true), b.guest);
    }
  }

  lemma DoubledAlias(p: Pivot, list: seq<Binding>, n: nat, exposed: Binding, before: seq<Binding>, c: Binding,
                     after: seq<Binding>)
    requires n < |list| && OnlyDoubled(p, list, n, exposed, before) && p.Kept(list[n]) && IsAbsolute(list[n].guest)
    requires p.putOld.Some? && p.putOld.value != [] && exposed.guest == PutOldText(p.putOld.value, true)
    requires c.guest == exposed.guest + list[n].guest
    requires forall x :: x in after <==> x == c || (x in before && MarkOf(x, Guest) != MarkOf(c, Guest))
    ensures OnlyDoubled(p, list, n + 1, exposed, after)
  {
    hide Components, Mark, Render;
    PutOldTextNames(p.putOld.value, true);
    assert MarkOf(exposed, Guest) == exposed.guest by { MarkTwice(Render(p.putOld.value)); }
    MarkIsLonger(c.guest);
    assert |MarkOf(c, Guest)| > |exposed.guest|;
    assert (exposed.guest + "/") == c.guest[..|exposed.guest| + 1];
    forall x | x in after
      ensures || x == exposed || !Prefix(exposed.guest, MarkOf(x, Guest)) || Prefix(exposed.guest + "/", x.guest)
              || Pending(p, list, n + 1, x)
    {
      if Pending(p, list, n, x) {
        assert !p.Moved(list[n]);
      }
    }
  }

  // ----- What the loops rely on -----

  lemma {:induction false} FirstCoverAt(list: seq<Binding>, side: Side, path: string, k: nat)
    requires k < |list| && Covers(list[k], side, path)
    requires forall j :: 0 <= j < k ==> !Covers(list[j], side, path)
    ensures FirstCover(list, side, path) == Some(list[k])
  {
    hide Covers;
    if k > 0 {
      assert forall j :: 0 <= j < |list[1..]| ==> list[1..][j] == list[j + 1];
      FirstCoverAt(list[1..], side, path, k - 1);
    }
  }

  lemma {:induction false} FirstCoverNone(list: seq<Binding>, side: Side, path: string)
    requires forall j :: 0 <= j < |list| ==> !Covers(list[j], side, path)
    ensures FirstCover(list, side, path) == None
  {
    hide Covers;
    if list != [] {
      assert forall j :: 0 <= j < |list[1..]| ==> list[1..][j] == list[j + 1];
      FirstCoverNone(list[1..], side, path);
    }
  }

  lemma SameIndexAt(list: seq<Binding>, b: Binding, k: nat)
    requires k < |list| && SamePath(b, list[k], Guest)
    requires forall j :: 0 <= j < k ==> !SamePath(b, list[j], Guest)
    ensures SameIndex(list, b) == k
  {
    hide SamePath;
  }

  lemma SameIndexNone(list: seq<Binding>, b: Binding)
    requires forall j :: 0 <= j < |list| ==> !SamePath(b, list[j], Guest)
    ensures SameIndex(list, b) == |list|
  {
    hide SamePath;
  }

  lemma CanonicalAbsolute(path: string)
    requires Canonical(path)
    ensures path != "" && path[0] == '/'
  {
  }

  /** The binding found for the target is bound at the target itself, if any is. */
  lemma UmountTarget(t: Table, guestPath: string)
    requires Valid(t) && Canonical(guestPath)
    ensures var b := Lookup(t, Guest, guestPath);
            && b.Some? && b.value in t.guest
            && (Key(b.value, Guest) == [] ==> b.value.guest == "/")
            && forall x :: x in t.guest && x.guest == guestPath ==> x == b.value
  {
    hide Components, ComparePaths, Lookup, Sorted;
    LookupIsLongestPrefix(t, guestPath);
    KeysAreUnique(t.guest);
    var b := Lookup(t, Guest, guestPath).value;
    var i :| 0 <= i < |t.guest| && t.guest[i] == b;
    assert b.guest == Render(Key(b, Guest));
    forall x | x in t.guest && x.guest == guestPath ensures x == b {
      PrefixesCompare(Key(x, Guest), Key(b, Guest), Components(guestPath));
    }
  }

  // ----- Where the source falls short of the real calls -----

  /** umount after mount: emulate_umount() is the inverse of emulate_mount() exactly when nothing was bound at the
  target, since a mount over a binding replaces it. */
  lemma UmountUndoesMount(t: Table, b: Binding, mounted: Table, unmounted: Table)
    requires Valid(t) && WellFormed(b) && b !in t.guest && b.guest != "/"
    requires mounted == Insorted2(t, b)
    requires forall x :: x in unmounted.guest <==> x in mounted.guest && x.guest != b.guest
    ensures (forall x :: x in unmounted.guest <==> x in t.guest) <==> (forall x :: x in t.guest ==> x.guest != b.guest)
  {
    hide Components, Insorted2, Sorted, DistinctKeys;
    InsortKeeps(t, b);
    forall x | x in t.guest ensures x.guest == b.guest <==> Key(x, Guest) == Key(b, Guest) {
      InTableGuest(t, x);
      RenderInjective(Key(x, Guest), Key(b, Guest));
    }
  }
}
