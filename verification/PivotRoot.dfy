/** What emulate_pivot_root() (syscall/enter.c) does to the bindings, and what it keeps of lookups. */
module PivotRoot {
  import opened Basics
  import opened Paths
  import opened Bindings
  import opened Translation

  // ----- The tests of the source -----

  /** b's guest path is strictly under the new root. */
  predicate IsUnder(path: string, root: string) {
    |path| > |root| && path[..|root|] == root && path[|root|] == '/'
  }

  predicate IsAtOrUnder(path: string, root: string) {
    |path| >= |root| && path[..|root|] == root && (|path| == |root| || path[|root|] == '/')
  }

  /** put_old as a path under the new root, if it is under it. */
  function PutOldAfter(putOld: string, newRoot: string): Option<string> {
    if IsUnder(putOld, newRoot) || (newRoot == "/" && putOld != "" && putOld[0] == '/') then
      var after := putOld[if |newRoot| == 1 then 0 else |newRoot|..];
      if |after| > 1 && after[0] == '/' then Some(after) else None
    else None
  }

  lemma UnderIsPrefix(path: string, root: string)
    requires Canonical(path) && Canonical(root) && root != "/"
    ensures var p, r := Components(path), Components(root);
            && (IsUnder(path, root) <==> Prefix(r, p) && r != p)
            && (IsAtOrUnder(path, root) <==> Prefix(r, p))
            && (IsUnder(path, root) ==> path[|root|..] == Render(p[|r|..]) && p[|r|..] != [])
  {
    hide Components;
    var p, r := Components(path), Components(root);
    BodyPrefix(r, p);
    if p != [] {
      BodyEnd(p);
    }
    BodyEnd(r);
    if Prefix(r, p) {
      var rest := p[|r|..];
      assert p == r + rest;
      BodyConcat(r, rest);
    }
  }

  lemma PutOldIsPrefix(putOld: string, newRoot: string)
    requires Canonical(putOld) && Canonical(newRoot) && newRoot != "/"
    ensures var p, n := Components(putOld), Components(newRoot);
            PutOldAfter(putOld, newRoot) == if Prefix(n, p) && n != p then Some(Render(p[|n|..])) else None
  {
    hide Components;
    var p, n := Components(putOld), Components(newRoot);
    UnderIsPrefix(putOld, newRoot);
    assert |newRoot| > 1 by { BodyEnd(n); }
    if IsUnder(putOld, newRoot) {
      BodyEnd(p[|n|..]);
    }
  }

  /** Where the previous root goes, of a put_old that ends as canonicalize() leaves it: nothing chops what ends it. */
  function PutOldPlace(n: seq<Name>, p: seq<Name>, finality: Finality): Option<string> {
    if n < p then Some(Render(p[|n|..]) + Suffix(p, finality))
    else if p == n && finality.FinalDot? then Some("/.")
    else None
  }

  /** Its components. */
  function PutOldNames(n: seq<Name>, p: seq<Name>, finality: Finality): Option<seq<Name>> {
    if n < p then Some(p[|n|..] + if finality.FinalDot? then ["."] else [])
    else if p == n && finality.FinalDot? then Some(["."])
    else None
  }

  lemma PutOldPlaced(newRoot: string, p: seq<Name>, finality: Finality)
    requires Canonical(newRoot) && newRoot != "/" && NoDots(Components(newRoot))
    ensures var n := Components(newRoot);
            PutOldAfter(Render(p) + Suffix(p, finality), newRoot) == PutOldPlace(n, p, finality)
  {
    hide Components;
    var n, text := Components(newRoot), Render(p) + Suffix(p, finality);
    if finality.FinalDot? {
      DottedPutOld(newRoot, p);
    } else if finality.FinalSlash? && p != [] {
      SlashedPutOld(newRoot, p);
    } else {
      assert text == Render(p);
      ComponentsOfRender(p);
      PutOldIsPrefix(text, newRoot);
      if n < p {
        assert Render(p[|n|..]) + "" == Render(p[|n|..]);
      }
    }
  }

  lemma DottedPutOld(newRoot: string, p: seq<Name>)
    requires Canonical(newRoot) && newRoot != "/" && NoDots(Components(newRoot))
    ensures PutOldAfter(Render(p) + Suffix(p, FinalDot), newRoot) == PutOldPlace(Components(newRoot), p, FinalDot)
  {
    hide Components, Canonical, PutOldAfter, NoDots, Body, Render;
    var n, p' := Components(newRoot), p + ["."];
    DottedText(p);
    ComponentsOfRender(p');
    PutOldIsPrefix(Render(p'), newRoot);
    PrefixSnoc(n, p, ".");
    if n <= p {
      DottedRest(p[|n|..]);
      assert n == p ==> p[|n|..] == [];
    }
  }

  lemma DottedText(p: seq<Name>)
    ensures Render(p) + Suffix(p, FinalDot) == Render(p + ["."])
  {
    DottedRest(p);
  }

  lemma DottedRest(rest: seq<Name>)
    ensures Render(rest + ["."]) == if rest == [] then "/." else Render(rest) + "/."
  {
    BodySnoc(rest, ".");
    BodySingle(".");
    assert [] + ["."] == ["."];
    assert Body(rest) + "/" + "." == Body(rest) + "/.";
  }

  lemma PrefixSnoc(n: seq<Name>, p: seq<Name>, c: Name)
    ensures n <= p + [c] && n != p + [c] <==> n <= p
    ensures n <= p ==> (p + [c])[|n|..] == p[|n|..] + [c]
    ensures (p + [c])[|p|..] == [c]
  {
    if |n| <= |p| {
      assert (p + [c])[..|n|] == p[..|n|];
    }
  }

  lemma SlashedPutOld(newRoot: string, p: seq<Name>)
    requires Canonical(newRoot) && newRoot != "/" && p != []
    ensures PutOldAfter(Body(p) + "/", newRoot) == PutOldPlace(Components(newRoot), p, FinalSlash)
  {
    hide Components;
    var n, text := Components(newRoot), Body(p) + "/";
    BodyEnd(n);
    BodyPrefix(n, p);
    if n <= p {
      SlashedRest(n, p);
      if n != p {
        BodyEnd(p[|n|..]);
      }
    }
  }

  lemma SlashedRest(n: seq<Name>, p: seq<Name>)
    requires n <= p
    ensures var x, text := Body(n), Body(p) + "/";
            |x| <= |text| && text[..|x|] == x && text[|x|..] == Body(p[|n|..]) + "/"
  {
    BodyConcat(n, p[|n|..]);
    assert p == n + p[|n|..];
    assert Body(p) + "/" == Body(n) + (Body(p[|n|..]) + "/");
  }

  // ----- Which binding goes where -----

  /** The paths a pivot is about: the new root, and the place of the previous root under it if there is one. */
  datatype Pivot = Pivot(newRoot: seq<Name>, putOld: Option<seq<Name>>) {
    ghost predicate Moved(b: Binding) {
      Prefix(newRoot, Key(b, Guest)) && newRoot != Key(b, Guest)
    }
    /** Neither the root nor under the new one: these bindings stay where they are. */
    ghost predicate Kept(b: Binding) {
      Key(b, Guest) != [] && !Moved(b)
    }
    ghost function MovedKey(b: Binding): seq<Name>
      requires Moved(b)
    {
      Key(b, Guest)[|newRoot|..]
    }
    ghost predicate AtPutOld(key: seq<Name>) {
      putOld.Some? && Prefix(putOld.value, key)
    }
    ghost function Alias(b: Binding): seq<Name>
      requires putOld.Some?
    {
      putOld.value + Key(b, Guest)
    }
    ghost predicate AliasFits(b: Binding)
      requires putOld.Some?
    {
      |Render(putOld.value)| + |b.guest| < PATH_MAX
    }
  }

  /** The bindings while the loop of emulate_pivot_root() has handled the first n of the snapshot.
  `first` is the identity of the first binding it made, root the one it put at "/", exposed the one at put_old. */
  ghost predicate Rebasing(p: Pivot, before: seq<Binding>, n: nat, first: nat, root: Binding,
                           exposed: Option<Binding>, after: seq<Binding>)
    requires n <= |before|
  {
    && root in after && Key(root, Guest) == [] && root.id >= first
    && (exposed.Some? ==> p.putOld.Some? && exposed.value.id >= first && Key(exposed.value, Guest) == p.putOld.value)
    && (forall x :: x in after ==> Origin(p, before, n, first, root, exposed, x))
    && (forall j :: 0 <= j < n && p.Moved(before[j]) && !p.AtPutOld(p.MovedKey(before[j])) ==>
          Stands(after, first, p.MovedKey(before[j]), before[j].host))
    && AllRemain(p, before, first, after)
  }

  /** The old bindings that stay where they are. */
  ghost predicate AllRemain(p: Pivot, before: seq<Binding>, first: nat, after: seq<Binding>) {
    forall j :: 0 <= j < |before| && p.Kept(before[j]) ==> Remains(after, first, before[j])
  }

  /** An old binding is still there, unless the pivot put another one at its very guest path. */
  ghost predicate Remains(after: seq<Binding>, first: nat, b: Binding) {
    b in after || exists x :: x in after && x.id >= first && Key(x, Guest) == Key(b, Guest)
  }

  lemma RemainAfter(p: Pivot, before: seq<Binding>, first: nat, after: seq<Binding>, c: Binding, after': seq<Binding>)
    requires AllRemain(p, before, first, after) && Rebound(after, c, after') && c.id >= first
    ensures AllRemain(p, before, first, after')
  {
    hide Components, Prefix;
    forall j | 0 <= j < |before| && p.Kept(before[j]) ensures Remains(after', first, before[j]) {
      RemainsAfter(first, before[j], after, c, after');
    }
  }

  lemma RemainsAfter(first: nat, b: Binding, after: seq<Binding>, c: Binding, after': seq<Binding>)
    requires Remains(after, first, b) && Rebound(after, c, after') && c.id >= first
    ensures Remains(after', first, b)
  {
    hide Components;
    if b !in after {
      var x :| x in after && x.id >= first && Key(x, Guest) == Key(b, Guest);
      assert x in after' || Key(c, Guest) == Key(b, Guest);
    }
  }

  lemma RemainWithout(p: Pivot, before: seq<Binding>, first: nat, after: seq<Binding>, b: Binding, after': seq<Binding>)
    requires AllRemain(p, before, first, after) && Unbound(after, b, after') && b.id < first && !p.Kept(b)
    ensures AllRemain(p, before, first, after')
  {
    hide Components, Prefix;
    forall j | 0 <= j < |before| && p.Kept(before[j]) ensures Remains(after', first, before[j]) {
      if before[j] !in after {
        var x :| x in after && x.id >= first && Key(x, Guest) == Key(before[j], Guest);
        assert x in after';
      }
    }
  }

  /** Some binding made by the pivot has that key and host path. */
  ghost predicate Stands(after: seq<Binding>, first: nat, key: seq<Name>, host: string) {
    exists x :: x in after && x.id >= first && Key(x, Guest) == key && x.host == host
  }

  /** Where a binding comes from. */
  ghost predicate Origin(p: Pivot, before: seq<Binding>, n: nat, first: nat, root: Binding,
                         exposed: Option<Binding>, x: Binding)
    requires n <= |before|
  {
    || x == root
    || (x.id < first && x in before && p.Kept(x))
    || (x.id < first && (exists j :: n <= j < |before| && x == before[j] && p.Moved(x)))
    || (x.id >= first && exists j :: 0 <= j < n && MovedFrom(p, before[j], x))
    || (p.AtPutOld(Key(x, Guest)) && x.id >= first &&
        (Some(x) == exposed || exists j :: 0 <= j < n && AliasOf(p, before[j], x)))
  }

  ghost predicate MovedFrom(p: Pivot, b: Binding, x: Binding) {
    p.Moved(b) && Key(x, Guest) == p.MovedKey(b) && x.host == b.host
  }

  ghost predicate AliasOf(p: Pivot, b: Binding, x: Binding) {
    p.putOld.Some? && p.Kept(b) && Key(x, Guest) == p.Alias(b) && x.host == b.host
  }

  /** What insort_binding2() and remove_binding_from_all_lists() do to the elements of the guest list. */
  ghost predicate Rebound(after: seq<Binding>, c: Binding, after': seq<Binding>) {
    && c in after'
    && (forall x :: x in after' ==> x == c || x in after)
    && (forall x :: x in after && Key(x, Guest) != Key(c, Guest) ==> x in after')
  }

  ghost predicate Unbound(after: seq<Binding>, b: Binding, after': seq<Binding>) {
    forall x :: x in after' <==> x in after && x != b
  }

  lemma OriginSkip(p: Pivot, before: seq<Binding>, n: nat, first: nat, root: Binding, exposed: Option<Binding>, x: Binding)
    requires n < |before| && Origin(p, before, n, first, root, exposed, x)
    requires x == before[n] ==> !p.Moved(x)
    ensures Origin(p, before, n + 1, first, root, exposed, x)
  {
    hide Components, Prefix;
  }

  lemma StepSkip(p: Pivot, before: seq<Binding>, n: nat, first: nat, root: Binding, exposed: Option<Binding>,
                 after: seq<Binding>)
    requires n < |before| && !p.Moved(before[n])
    requires Rebasing(p, before, n, first, root, exposed, after)
    ensures Rebasing(p, before, n + 1, first, root, exposed, after)
  {
    hide Components, Prefix, Origin, Stands;
    forall x | x in after ensures Origin(p, before, n + 1, first, root, exposed, x) {
      OriginSkip(p, before, n, first, root, exposed, x);
    }
  }

  lemma StandsAfter(first: nat, key: seq<Name>, host: string, after: seq<Binding>, c: Binding, after': seq<Binding>)
    requires Stands(after, first, key, host) && Rebound(after, c, after') && Key(c, Guest) != key
    ensures Stands(after', first, key, host)
  {
    hide Components;
  }

  lemma StandsWithout(first: nat, key: seq<Name>, host: string, after: seq<Binding>, b: Binding, after': seq<Binding>)
    requires Stands(after, first, key, host) && Unbound(after, b, after') && b.id < first
    ensures Stands(after', first, key, host)
  {
    hide Components;
  }

  lemma MovedKeysDiffer(p: Pivot, b: Binding, c: Binding)
    requires p.Moved(b) && p.Moved(c) && Key(b, Guest) != Key(c, Guest)
    ensures p.MovedKey(b) != p.MovedKey(c)
  {
    hide Components;
    assert Key(b, Guest) == p.newRoot + p.MovedKey(b);
    assert Key(c, Guest) == p.newRoot + p.MovedKey(c);
  }

  lemma MovedKeyNonempty(p: Pivot, b: Binding)
    requires p.Moved(b)
    ensures p.MovedKey(b) != [] && Key(b, Guest) != []
  {
    hide Components;
    assert Key(b, Guest) == p.newRoot + p.MovedKey(b);
  }

  /** A binding under the new root moves with the pivot. */
  lemma StepMoved(p: Pivot, before: seq<Binding>, n: nat, first: nat, root: Binding, exposed: Option<Binding>,
                  after: seq<Binding>, c: Binding, between: seq<Binding>, after': seq<Binding>)
    requires n < |before| && DistinctKeys(before) && before[n].id < first && p.Moved(before[n])
    requires Rebasing(p, before, n, first, root, exposed, after)
    requires c.id >= first && Key(c, Guest) == p.MovedKey(before[n]) && c.host == before[n].host
    requires Rebound(after, c, between) && Unbound(between, before[n], after')
    ensures Rebasing(p, before, n + 1, first, root, exposed, after')
  {
    hide Components, Prefix, Origin, Stands, Rebound, Unbound, AllRemain;
    RemainAfter(p, before, first, after, c, between);
    RemainWithout(p, before, first, between, before[n], after');
    StepMovedOrigin(p, before, n, first, root, exposed, after, c, between, after');
    MovedKeyNonempty(p, before[n]);
    assert root in after' by { RootSurvives(root, after, c, between, before[n], first, after'); }
    forall j | 0 <= j < n + 1 && p.Moved(before[j]) && !p.AtPutOld(p.MovedKey(before[j]))
      ensures Stands(after', first, p.MovedKey(before[j]), before[j].host)
    {
      if j < n {
        MovedKeysDiffer(p, before[j], before[n]);
        StandsAfter(first, p.MovedKey(before[j]), before[j].host, after, c, between);
      } else {
        StandsItself(first, c, after, between);
      }
      StandsWithout(first, p.MovedKey(before[j]), before[j].host, between, before[n], after');
    }
  }

  lemma StandsItself(first: nat, c: Binding, after: seq<Binding>, after': seq<Binding>)
    requires Rebound(after, c, after') && c.id >= first
    ensures Stands(after', first, Key(c, Guest), c.host)
  {
    hide Components;
  }

  lemma RootSurvives(root: Binding, after: seq<Binding>, c: Binding, between: seq<Binding>, b: Binding, first: nat,
                     after': seq<Binding>)
    requires root in after && Key(root, Guest) != Key(c, Guest) && root.id >= first > b.id
    requires Rebound(after, c, between) && Unbound(between, b, after')
    ensures root in after'
  {
    hide Components;
  }

  lemma StepMovedOrigin(p: Pivot, before: seq<Binding>, n: nat, first: nat, root: Binding, exposed: Option<Binding>,
                        after: seq<Binding>, c: Binding, between: seq<Binding>, after': seq<Binding>)
    requires n < |before| && p.Moved(before[n])
    requires forall x :: x in after ==> Origin(p, before, n, first, root, exposed, x)
    requires c.id >= first && Key(c, Guest) == p.MovedKey(before[n]) && c.host == before[n].host
    requires Rebound(after, c, between) && Unbound(between, before[n], after')
    ensures forall x :: x in after' ==> Origin(p, before, n + 1, first, root, exposed, x)
  {
    hide Components, Prefix;
    forall x | x in after' ensures Origin(p, before, n + 1, first, root, exposed, x) {
      if x == c {
        assert MovedFrom(p, before[n], x);
      } else {
        assert x in after;
        OriginSkip(p, before, n, first, root, exposed, x);
      }
    }
  }

  /** A kept binding is exposed again under put_old. */
  lemma StepAlias(p: Pivot, before: seq<Binding>, n: nat, first: nat, root: Binding, exposed: Option<Binding>,
                  after: seq<Binding>, c: Binding, after': seq<Binding>)
    requires n < |before| && p.Kept(before[n]) && p.putOld.Some?
    requires Rebasing(p, before, n, first, root, exposed, after)
    requires c.id >= first && Key(c, Guest) == p.Alias(before[n]) && c.host == before[n].host
    requires Rebound(after, c, after')
    ensures Rebasing(p, before, n + 1, first, root, exposed, after')
  {
    hide Components, Origin, Stands, Rebound, AllRemain;
    RemainAfter(p, before, first, after, c, after');
    StepAliasOrigin(p, before, n, first, root, exposed, after, c, after');
    assert p.AtPutOld(Key(c, Guest));
    assert root in after' by { RootKept(root, after, c, after'); }
    forall j | 0 <= j < n + 1 && p.Moved(before[j]) && !p.AtPutOld(p.MovedKey(before[j]))
      ensures Stands(after', first, p.MovedKey(before[j]), before[j].host)
    {
      StandsAfter(first, p.MovedKey(before[j]), before[j].host, after, c, after');
    }
  }

  lemma RootKept(root: Binding, after: seq<Binding>, c: Binding, after': seq<Binding>)
    requires root in after && Key(root, Guest) != Key(c, Guest) && Rebound(after, c, after')
    ensures root in after'
  {
    hide Components;
  }

  lemma StepAliasOrigin(p: Pivot, before: seq<Binding>, n: nat, first: nat, root: Binding, exposed: Option<Binding>,
                        after: seq<Binding>, c: Binding, after': seq<Binding>)
    requires n < |before| && p.Kept(before[n]) && p.putOld.Some?
    requires forall x :: x in after ==> Origin(p, before, n, first, root, exposed, x)
    requires c.id >= first && Key(c, Guest) == p.Alias(before[n]) && c.host == before[n].host
    requires Rebound(after, c, after')
    ensures forall x :: x in after' ==> Origin(p, before, n + 1, first, root, exposed, x)
  {
    hide Components;
    forall x | x in after' ensures Origin(p, before, n + 1, first, root, exposed, x) {
      if x == c {
        assert AliasOf(p, before[n], x);
        assert p.AtPutOld(Key(x, Guest));
      } else {
        assert x in after;
        OriginSkip(p, before, n, first, root, exposed, x);
      }
    }
  }

  // ----- The place of the previous root -----

  /** No binding, kept or moved, already sits at or under put_old. */
  ghost predicate Free(p: Pivot, before: seq<Binding>) {
    forall j :: 0 <= j < |before| ==>
      && (p.Kept(before[j]) ==> !p.AtPutOld(Key(before[j], Guest)))
      && (p.Moved(before[j]) ==> !p.AtPutOld(p.MovedKey(before[j])))
  }

  ghost predicate Exposing(p: Pivot, before: seq<Binding>, n: nat, first: nat, exposed: Binding, after: seq<Binding>)
    requires n <= |before|
  {
    && p.putOld.Some? && exposed in after && Key(exposed, Guest) == p.putOld.value
    && (forall j :: 0 <= j < n && p.Kept(before[j]) && p.AliasFits(before[j]) ==>
          Stands(after, first, p.Alias(before[j]), before[j].host))
  }

  lemma ExposeMoved(p: Pivot, before: seq<Binding>, n: nat, first: nat, exposed: Binding,
                    after: seq<Binding>, c: Binding, between: seq<Binding>, after': seq<Binding>)
    requires n < |before| && before[n].id < first <= exposed.id && p.Moved(before[n]) && Free(p, before)
    requires Exposing(p, before, n, first, exposed, after)
    requires Key(c, Guest) == p.MovedKey(before[n])
    requires Rebound(after, c, between) && Unbound(between, before[n], after')
    ensures Exposing(p, before, n + 1, first, exposed, after')
  {
    hide Components, Stands, Rebound, Unbound;
    assert p.AtPutOld(Key(exposed, Guest));
    RootSurvives(exposed, after, c, between, before[n], first, after');
    forall j | 0 <= j < n + 1 && p.Kept(before[j]) && p.AliasFits(before[j])
      ensures Stands(after', first, p.Alias(before[j]), before[j].host)
    {
      assert j < n;
      assert p.AtPutOld(p.Alias(before[j]));
      StandsAfter(first, p.Alias(before[j]), before[j].host, after, c, between);
      StandsWithout(first, p.Alias(before[j]), before[j].host, between, before[n], after');
    }
  }

  lemma ExposeAlias(p: Pivot, before: seq<Binding>, n: nat, first: nat, exposed: Binding,
                    after: seq<Binding>, c: Binding, after': seq<Binding>)
    requires n < |before| && DistinctKeys(before) && p.Kept(before[n])
    requires Exposing(p, before, n, first, exposed, after)
    requires c.id >= first && Key(c, Guest) == p.Alias(before[n]) && c.host == before[n].host
    requires Rebound(after, c, after')
    ensures Exposing(p, before, n + 1, first, exposed, after')
  {
    hide Components, Stands, Rebound;
    assert Key(exposed, Guest) != Key(c, Guest) by {
      assert |p.Alias(before[n])| > |p.putOld.value|;
    }
    RootKept(exposed, after, c, after');
    forall j | 0 <= j < n + 1 && p.Kept(before[j]) && p.AliasFits(before[j])
      ensures Stands(after', first, p.Alias(before[j]), before[j].host)
    {
      if j < n {
        AliasesDiffer(p, before[j], before[n]);
        StandsAfter(first, p.Alias(before[j]), before[j].host, after, c, after');
      } else {
        StandsItself(first, c, after, after');
      }
    }
  }

  lemma AliasesDiffer(p: Pivot, b: Binding, c: Binding)
    requires p.putOld.Some? && Key(b, Guest) != Key(c, Guest)
    ensures p.Alias(b) != p.Alias(c)
  {
    hide Components;
    assert p.Alias(b)[|p.putOld.value|..] == Key(b, Guest);
    assert p.Alias(c)[|p.putOld.value|..] == Key(c, Guest);
  }

  lemma ExposeSkip(p: Pivot, before: seq<Binding>, n: nat, first: nat, exposed: Binding, after: seq<Binding>)
    requires n < |before| && Exposing(p, before, n, first, exposed, after)
    requires p.Kept(before[n]) ==> !p.AliasFits(before[n])
    ensures Exposing(p, before, n + 1, first, exposed, after)
  {
  }

  // ----- Lookups afterwards -----

  /** b is the deepest of these bindings that contains the path. */
  ghost predicate Deepest(list: seq<Binding>, path: seq<Name>, b: Binding) {
    && b in list && Prefix(Key(b, Guest), path)
    && forall x :: x in list && Prefix(Key(x, Guest), path) ==> Prefix(Key(x, Guest), Key(b, Guest))
  }

  ghost predicate UniqueKeys(list: seq<Binding>) {
    forall x, y :: x in list && y in list && Key(x, Guest) == Key(y, Guest) ==> x == y
  }

  /** The path is under no old binding that stays in place, nor at the place of the previous root. */
  ghost predicate Untouched(p: Pivot, before: seq<Binding>, path: seq<Name>) {
    !p.AtPutOld(path) && forall y :: y in before && p.Kept(y) ==> !Prefix(Key(y, Guest), path)
  }

  lemma PrefixOfUntouched(p: Pivot, key: seq<Name>, path: seq<Name>)
    requires Prefix(key, path) && p.AtPutOld(key)
    ensures p.AtPutOld(path)
  {
    PrefixTransitive(p.putOld.value, key, path);
  }

  /** What an untouched path is found under afterwards: the new root, or a binding that moved. */
  lemma FoundUntouched(p: Pivot, before: seq<Binding>, first: nat, root: Binding, exposed: Option<Binding>,
                       after: seq<Binding>, path: seq<Name>, x: Binding)
    requires Rebasing(p, before, |before|, first, root, exposed, after) && Untouched(p, before, path)
    requires x in after && Prefix(Key(x, Guest), path)
    ensures x == root || exists y :: y in before && MovedFrom(p, y, x)
  {
    hide Components, Prefix, Stands;
    assert Origin(p, before, |before|, first, root, exposed, x);
    if p.AtPutOld(Key(x, Guest)) {
      PrefixOfUntouched(p, Key(x, Guest), path);
    }
    if x.id >= first && x != root {
      var j :| 0 <= j < |before| && MovedFrom(p, before[j], x);
    }
  }

  lemma PrefixUnderCommon(n: seq<Name>, a: seq<Name>, b: seq<Name>)
    ensures Prefix(n + a, n + b) <==> Prefix(a, b)
    ensures Prefix(n, n + b)
    ensures n + a == n + b ==> a == b
  {
    assert (n + b)[|n|..] == b && (n + a)[|n|..] == a;
    if Prefix(n + a, n + b) {
      assert a == (n + b)[..|n + a|][|n|..];
    }
  }

  /** A binding under the new root covers, afterwards, what it covered there. */
  lemma MovedStillCovers(p: Pivot, before: seq<Binding>, first: nat, root: Binding, exposed: Option<Binding>,
                         after: seq<Binding>, path: seq<Name>, b: Binding, b': Binding)
    requires Rebasing(p, before, |before|, first, root, exposed, after) && Untouched(p, before, path)
    requires b in before && p.Moved(b) && Prefix(Key(b, Guest), p.newRoot + path)
    requires Deepest(after, path, b')
    ensures Prefix(p.MovedKey(b), Key(b', Guest)) && p.MovedKey(b) != []
  {
    hide Components, Origin;
    var key := p.MovedKey(b);
    assert Key(b, Guest) == p.newRoot + key;
    PrefixUnderCommon(p.newRoot, key, path);
    if p.AtPutOld(key) {
      PrefixOfUntouched(p, key, path);
    }
    var j :| 0 <= j < |before| && before[j] == b;
    assert Stands(after, first, key, b.host);
    MovedKeyNonempty(p, b);
  }

  lemma DeepestMoved(p: Pivot, before: seq<Binding>, first: nat, root: Binding, exposed: Option<Binding>,
                     after: seq<Binding>, path: seq<Name>, b: Binding, b': Binding, y: Binding)
    requires Rebasing(p, before, |before|, first, root, exposed, after) && Untouched(p, before, path)
    requires UniqueKeys(before)
    requires Deepest(before, p.newRoot + path, b) && Deepest(after, path, b')
    requires y in before && MovedFrom(p, y, b')
    ensures b == y
  {
    hide Components, Origin, Stands, Rebasing, Untouched;
    var n := p.newRoot;
    assert Key(y, Guest) == n + Key(b', Guest);
    PrefixUnderCommon(n, Key(b', Guest), path);
    assert Prefix(Key(y, Guest), Key(b, Guest));
    PrefixTransitive(n, Key(y, Guest), Key(b, Guest));
    MovedKeyNonempty(p, y);
    assert p.Moved(b);
    MovedStillCovers(p, before, first, root, exposed, after, path, b, b');
    assert Key(b, Guest) == n + p.MovedKey(b);
    PrefixUnderCommon(n, Key(b', Guest), p.MovedKey(b));
  }

  lemma RootFound(p: Pivot, before: seq<Binding>, first: nat, root: Binding, exposed: Option<Binding>,
                  after: seq<Binding>, path: seq<Name>, b: Binding, bRoot: Binding)
    requires Rebasing(p, before, |before|, first, root, exposed, after) && Untouched(p, before, path)
    requires UniqueKeys(before)
    requires Deepest(before, p.newRoot + path, b) && Deepest(after, path, root) && Deepest(before, p.newRoot, bRoot)
    ensures b == bRoot
  {
    hide Components, Origin, Stands, Untouched;
    var n := p.newRoot;
    if p.Moved(b) {
      MovedStillCovers(p, before, first, root, exposed, after, path, b, root);
    }
    PrefixUnderCommon(n, [], path);
    PrefixesCompare(Key(b, Guest), n, n + path);
    assert Prefix(Key(b, Guest), n);
    PrefixTransitive(Key(bRoot, Guest), n, n + path);
    PrefixesCompare(Key(b, Guest), Key(bRoot, Guest), n);
  }

  /** For every guest path that no old binding holds in place, looking it up afterwards gives what looking it
  up under the new root gave before: the same host components. */
  lemma LookupAfterPivot(p: Pivot, before: seq<Binding>, first: nat, root: Binding, exposed: Option<Binding>,
                         after: seq<Binding>, path: seq<Name>, b: Binding, b': Binding, bRoot: Binding)
    requires Rebasing(p, before, |before|, first, root, exposed, after) && Untouched(p, before, path)
    requires UniqueKeys(before)
    requires Deepest(before, p.newRoot + path, b) && Deepest(after, path, b') && Deepest(before, p.newRoot, bRoot)
    requires Key(root, Host) == Rebased(bRoot, p.newRoot)
    ensures Rebased(b', path) == Rebased(b, p.newRoot + path)
  {
    hide Components, Stands, Origin, Untouched, UniqueKeys;
    FoundUntouched(p, before, first, root, exposed, after, path, b');
    if b' != root {
      var y :| y in before && MovedFrom(p, y, b');
      DeepestMoved(p, before, first, root, exposed, after, path, b, b', y);
      assert Key(y, Guest) == p.newRoot + Key(b', Guest);
      assert (p.newRoot + path)[|Key(y, Guest)|..] == path[|Key(b', Guest)|..];
    } else {
      RootFound(p, before, first, root, exposed, after, path, b, bRoot);
      var k := |Key(b, Guest)|;
      assert path[0..] == path;
      assert (p.newRoot + path)[k..] == p.newRoot[k..] + path;
    }
  }

  lemma FreeElements(p: Pivot, before: seq<Binding>)
    requires Free(p, before)
    ensures forall x :: x in before ==> p.Kept(x) ==> !p.AtPutOld(Key(x, Guest))
  {
  }

  /** What a path under put_old is found under: the previous root, or the alias of a kept binding. */
  lemma FoundExposed(p: Pivot, before: seq<Binding>, first: nat, root: Binding, exposed: Binding,
                     after: seq<Binding>, path: seq<Name>, b': Binding)
    requires Rebasing(p, before, |before|, first, root, Some(exposed), after) && Free(p, before)
    requires Exposing(p, before, |before|, first, exposed, after) && p.putOld.value != []
    requires Deepest(after, p.putOld.value + path, b')
    ensures Prefix(p.putOld.value, Key(b', Guest))
    ensures b' == exposed || exists y :: y in before && AliasOf(p, y, b')
  {
    hide Components, Stands;
    PrefixUnderCommon(p.putOld.value, [], path);
    assert p.AtPutOld(Key(b', Guest));
    assert Origin(p, before, |before|, first, root, Some(exposed), b');
    FreeElements(p, before);
    if b'.id >= first && b' != exposed {
      var j :| 0 <= j < |before| && (MovedFrom(p, before[j], b') || AliasOf(p, before[j], b'));
    }
  }

  /** For every guest path that was not looked up strictly under the new root, looking it up under put_old
  afterwards gives what looking it up gave before. */
  lemma LookupOfPreviousRoot(p: Pivot, before: seq<Binding>, first: nat, root: Binding, exposed: Binding,
                             after: seq<Binding>, path: seq<Name>, b: Binding, b': Binding)
    requires Rebasing(p, before, |before|, first, root, Some(exposed), after) && Free(p, before)
    requires Exposing(p, before, |before|, first, exposed, after) && p.putOld.value != []
    requires UniqueKeys(before)
    requires Deepest(before, path, b) && Deepest(after, p.putOld.value + path, b')
    requires !p.Moved(b) && p.AliasFits(b)
    requires Key(b, Guest) == [] ==> exposed.host == b.host
    ensures Rebased(b', p.putOld.value + path) == Rebased(b, path)
  {
    hide Components, Origin, Free, Rebasing;
    var o := p.putOld.value;
    FoundExposed(p, before, first, root, exposed, after, path, b');
    if b' != exposed {
      var y :| y in before && AliasOf(p, y, b');
      PrefixUnderCommon(o, Key(y, Guest), path);
      assert Prefix(Key(y, Guest), Key(b, Guest));
      KeptDeepest(p, before, first, exposed, after, path, b, b');
      PrefixUnderCommon(o, Key(b, Guest), Key(y, Guest));
      PrefixesCompare(Key(y, Guest), Key(b, Guest), path);
      assert y == b;
      assert (o + path)[|o + Key(b, Guest)|..] == path[|Key(b, Guest)|..];
    } else {
      if Key(b, Guest) != [] {
        KeptDeepest(p, before, first, exposed, after, path, b, b');
      }
      assert (o + path)[|o|..] == path[|Key(b, Guest)|..];
    }
  }

  lemma KeptDeepest(p: Pivot, before: seq<Binding>, first: nat, exposed: Binding, after: seq<Binding>,
                    path: seq<Name>, b: Binding, b': Binding)
    requires Exposing(p, before, |before|, first, exposed, after)
    requires Deepest(before, path, b) && Deepest(after, p.putOld.value + path, b')
    requires p.Kept(b) && p.AliasFits(b)
    ensures Prefix(p.Alias(b), Key(b', Guest))
  {
    hide Components;
    var j :| 0 <= j < |before| && before[j] == b;
    assert Stands(after, first, p.Alias(b), b.host);
    PrefixUnderCommon(p.putOld.value, Key(b, Guest), path);
  }
}
