/** Character-level path handling: path/path.c and the two helpers of path/canon.c.

A C string is a `string` (its terminator is the end of the sequence); a buffer a
function fills is a result.  What a path means is its sequence of components:
`Render` writes such a sequence as a canonical path, `Components` reads any path back. */
module Paths {

  const PATH_MAX: nat := 4096
  const NAME_MAX: nat := 255

  /** The errors the modelled functions return as negative numbers. */
  datatype Errno = ENOENT | ENOTDIR | ELOOP | ENAMETOOLONG | EINVAL | EPERM | EIO

  datatype Result<+T> = Success(value: T) | Failure(error: Errno)

  datatype Comparison = PathsAreEqual | Path1IsPrefix | Path2IsPrefix | PathsAreNotComparable

  /** How a path ends; the source's FINAL_* enumeration. */
  datatype Finality = NotFinal | FinalNormal | FinalSlash | FinalDot

  // ----- What a path means -----

  predicate IsName(s: string) {
    s != "" && '/' !in s
  }

  /** A path component: not empty, without separator. */
  type Name = s: string | IsName(s) witness "a"

  /** The text of a sequence of components: each one after a separator. */
  function Body(cs: seq<Name>): string {
    if cs == [] then "" else "/" + cs[0] + Body(cs[1..])
  }

  function Render(cs: seq<Name>): string {
    if cs == [] then "/" else Body(cs)
  }

  function Parent(cs: seq<Name>): seq<Name> {
    if cs == [] then [] else cs[..|cs| - 1]
  }

  /** Length of the longest separator-free prefix of s. */
  function NameLength(s: string): (n: nat)
    ensures n <= |s|
    ensures '/' !in s[..n]
    ensures n == |s| || s[n] == '/'
  {
    if s == "" || s[0] == '/' then 0 else 1 + NameLength(s[1..])
  }

  function Components(s: string): seq<Name>
    decreases |s|
  {
    if s == "" then []
    else if s[0] == '/' then Components(s[1..])
    else
      var n := NameLength(s);
      [s[..n]] + Components(s[n..])
  }

  predicate NoDots(cs: seq<Name>) {
    "." !in cs && ".." !in cs
  }

  /** May text t follow a complete component? */
  predicate Separates(t: string) {
    t == "" || t[0] == '/'
  }

  /** A path that canonicalize() may leave in a binding: absolute, no empty component, no final separator. */
  ghost predicate Canonical(p: string) {
    p == Render(Components(p))
  }

  lemma {:induction false} BodyConcat(a: seq<Name>, b: seq<Name>)
    ensures Body(a + b) == Body(a) + Body(b)
  {
    if a == [] {
      assert a + b == b;
    } else {
      BodyConcat(a[1..], b);
      assert (a + b)[1..] == a[1..] + b;
    }
  }

  lemma BodySingle(name: Name)
    ensures Body([name]) == "/" + name
  {
    assert [name][1..] == [];
  }

  lemma BodySnoc(cs: seq<Name>, name: Name)
    ensures Body(cs + [name]) == Body(cs) + "/" + name
  {
    BodyConcat(cs, [name]);
    BodySingle(name);
  }

  lemma {:induction false} NameLengthConcat(s: string, t: string)
    requires Separates(t)
    ensures NameLength(s + t) == NameLength(s)
  {
    if s == "" {
      assert s + t == t;
    } else if s[0] != '/' {
      assert (s + t)[1..] == s[1..] + t;
      NameLengthConcat(s[1..], t);
    }
  }

  lemma {:induction false} ComponentsConcat(a: string, t: string)
    requires Separates(t)
    ensures Components(a + t) == Components(a) + Components(t)
    decreases |a|
  {
    if a == "" {
      assert a + t == t;
    } else if a[0] == '/' {
      assert (a + t)[1..] == a[1..] + t;
      ComponentsConcat(a[1..], t);
    } else {
      var n := NameLength(a);
      NameLengthConcat(a, t);
      assert (a + t)[..n] == a[..n] && (a + t)[n..] == a[n..] + t;
      ComponentsConcat(a[n..], t);
    }
  }

  lemma ComponentsOfName(name: Name)
    ensures Components(name) == [name]
    ensures Components("/" + name) == [name]
  {
    var n := NameLength(name);
    assert forall i :: 0 <= i < |name| ==> name[i] in name;
    assert n == |name|;
    assert name[..n] == name && name[n..] == "";
    assert name[0] in name;
    assert ("/" + name)[1..] == name;
  }

  /** Reading back a canonical path gives the components it was written from. */
  lemma {:induction false} ComponentsOfBody(cs: seq<Name>)
    ensures Components(Body(cs)) == cs
  {
    if cs != [] {
      ComponentsOfBody(cs[1..]);
      ComponentsOfName(cs[0]);
      ComponentsConcat("/" + cs[0], Body(cs[1..]));
    }
  }

  lemma ComponentsOfRender(cs: seq<Name>)
    ensures Components(Render(cs)) == cs
    ensures Canonical(Render(cs))
  {
    ComponentsOfBody(cs);
    assert "/"[1..] == "";
  }

  lemma BodyEnd(cs: seq<Name>)
    requires cs != []
    ensures |Body(cs)| >= 2 && Body(cs)[0] == '/' && Body(cs)[|Body(cs)| - 1] != '/'
    ensures Body(cs)[|Body(cs)| - 1] == cs[|cs| - 1][|cs[|cs| - 1]| - 1]
  {
    var last := cs[|cs| - 1];
    BodySnoc(cs[..|cs| - 1], last);
    assert cs == cs[..|cs| - 1] + [last];
    assert last[|last| - 1] in last;
  }

  /** Component prefixes are exactly the text prefixes that stop at a separator. */
  lemma BodyPrefix(a: seq<Name>, b: seq<Name>)
    ensures a <= b <==> Body(a) <= Body(b) && Separates(Body(b)[|Body(a)|..])
    ensures a <= b && |Body(a)| == |Body(b)| ==> a == b
  {
    if a <= b {
      var rest := b[|a|..];
      assert b == a + rest;
      BodyConcat(a, rest);
      assert Body(b)[|Body(a)|..] == Body(rest);
    }
    if Body(a) <= Body(b) {
      var t := Body(b)[|Body(a)|..];
      if Separates(t) {
        assert Body(b) == Body(a) + t;
        ComponentsConcat(Body(a), t);
        ComponentsOfBody(a);
        ComponentsOfBody(b);
      }
    }
  }

  lemma RenderInjective(a: seq<Name>, b: seq<Name>)
    ensures Render(a) == Render(b) <==> a == b
  {
    hide Components;
    ComponentsOfRender(a);
    ComponentsOfRender(b);
  }

  lemma RenderLength(a: seq<Name>, b: seq<Name>)
    requires a <= b
    ensures |Render(a)| <= |Render(b)|
  {
    BodyPrefix(a, b);
    if b != [] {
      BodyEnd(b);
    }
  }

  // ----- compare_paths2 (path/path.c) -----

  /** Is `path` a text for `cs`, with or without a final separator? */
  ghost predicate Denotes(path: string, cs: seq<Name>) {
    (path == Body(cs) + "/" || (cs != [] && path == Body(cs)))
  }

  function ComparePaths(path1: string, path2: string): Comparison {
    if path1 == "" || path2 == "" then PathsAreNotComparable
    else
      var length1 := if path1[|path1| - 1] == '/' then |path1| - 1 else |path1|;
      var length2 := if path2[|path2| - 1] == '/' then |path2| - 1 else |path2|;
      var lengthMin := if length1 < length2 then length1 else length2;
      var longer := if length1 < length2 then path2 else path1;
      if lengthMin < |longer| && longer[lengthMin] != '/' then PathsAreNotComparable
      else if path1[..lengthMin] != path2[..lengthMin] then PathsAreNotComparable
      else if length1 == length2 then PathsAreEqual
      else if length1 < length2 then Path1IsPrefix
      else Path2IsPrefix
  }

  /** How two component sequences are related. */
  function CompareComponents(a: seq<Name>, b: seq<Name>): Comparison {
    if a == b then PathsAreEqual
    else if a <= b then Path1IsPrefix
    else if b <= a then Path2IsPrefix
    else PathsAreNotComparable
  }

  lemma DenotesStripped(path: string, cs: seq<Name>)
    requires Denotes(path, cs)
    ensures |path| > 0
    ensures var n := if path[|path| - 1] == '/' then |path| - 1 else |path|; path[..n] == Body(cs)
  {
    if cs != [] {
      BodyEnd(cs);
    }
  }

  /** compare_paths2() compares whole components, whatever final separators the two paths carry. */
  lemma ComparePathsSound(path1: string, path2: string, a: seq<Name>, b: seq<Name>)
    requires Denotes(path1, a) && Denotes(path2, b)
    ensures ComparePaths(path1, path2) == CompareComponents(a, b)
  {
    hide Body;
    DenotesStripped(path1, a);
    DenotesStripped(path2, b);
    var x, y := Body(a), Body(b);
    if |x| < |y| {
      assert path2[|x|] == y[|x|];
      assert path2[..|x|] == y[..|x|];
      PrefixOfText(a, b);
      assert !(b <= a) by { BodyPrefix(b, a); }
    } else {
      assert |y| < |x| ==> path1[|y|] == x[|y|];
      assert path1[..|y|] == x[..|y|];
      PrefixOfText(b, a);
      BodyPrefix(a, b);
    }
  }

  /** BodyPrefix, with the two tests written the way compare_paths2() makes them. */
  lemma PrefixOfText(a: seq<Name>, b: seq<Name>)
    requires |Body(a)| <= |Body(b)|
    ensures a <= b <==> Body(a) == Body(b)[..|Body(a)|] && (|Body(a)| == |Body(b)| || Body(b)[|Body(a)|] == '/')
    ensures a <= b && |Body(a)| == |Body(b)| ==> a == b
  {
    BodyPrefix(a, b);
  }

  lemma CompareCanonical(path1: string, path2: string)
    requires Canonical(path1) && Canonical(path2)
    ensures ComparePaths(path1, path2) == CompareComponents(Components(path1), Components(path2))
  {
    ComparePathsSound(path1, path2, Components(path1), Components(path2));
  }

  // ----- join_paths (path/path.c) -----

  /** join_paths() of two paths. */
  function JoinPaths(first: string, second: string): Result<string> {
    if |first| + 1 >= PATH_MAX then Failure(ENAMETOOLONG)
    else if first != "" && first[|first| - 1] != '/' && (second == "" || second[0] != '/') then
      if |first| + |second| + 1 + 1 >= PATH_MAX then Failure(ENAMETOOLONG) else Success(first + "/" + second)
    else if first != "" && first[|first| - 1] == '/' && second != "" && second[0] == '/' then
      if |first| + |second| - 1 + 1 >= PATH_MAX then Failure(ENAMETOOLONG) else Success(first + second[1..])
    else
      if |first| + |second| + 1 >= PATH_MAX then Failure(ENAMETOOLONG) else Success(first + second)
  }

  /** Joining a component to a canonical path appends it to the components, if and only if there is room for that. */
  lemma JoinAppends(cs: seq<Name>, name: Name)
    ensures var r := JoinPaths(Render(cs), name);
            && (r.Success? ==> r.value == Render(cs + [name]))
            && (r.Success? <==> |Render(cs + [name])| + 1 < PATH_MAX)
  {
    BodyConcat(cs, [name]);
    assert Body([name]) == "/" + name + Body([name][1..]);
    if cs != [] {
      BodyEnd(cs);
      assert Render(cs) + "/" + name == Body(cs) + ("/" + name);
    } else {
      assert cs + [name] == [name];
    }
    assert name[0] in name;
  }

  // ----- substitute_path_prefix (path/path.c) -----

  /** substitute_path_prefix(); when the new path does not fit the buffer is left alone. */
  function SubstitutePathPrefix(path: string, oldLength: nat, newPrefix: string): Result<string>
    requires oldLength <= |path|
  {
    if |newPrefix| == 1 then
      Success(if |path| - oldLength != 0 then path[oldLength..] else "/" + path[..0])
    else if oldLength == 1 then
      if |newPrefix| + |path| >= PATH_MAX then Failure(ENAMETOOLONG)
      else Success(if |path| > 1 then newPrefix + path else newPrefix)
    else
      if |path| - oldLength + |newPrefix| >= PATH_MAX then Failure(ENAMETOOLONG)
      else Success(newPrefix + path[oldLength..])
  }

  /** Exactly the leading components are replaced, in the three length cases. */
  lemma SubstituteReplacesPrefix(src: seq<Name>, dst: seq<Name>, rest: seq<Name>)
    requires src != [] || dst != []  // need_substitution: never "/" for both
    ensures |Render(src)| <= |Render(src + rest)|
    ensures var r := SubstitutePathPrefix(Render(src + rest), |Render(src)|, Render(dst));
            && (r.Success? ==> r.value == Render(dst + rest))
            && (|Render(dst + rest)| + 1 < PATH_MAX ==> r.Success?)
  {
    RenderLength(src, src + rest);
    BodyConcat(src, rest);
    BodyConcat(dst, rest);
    if src != [] { BodyEnd(src); }
    if dst != [] { BodyEnd(dst); }
    if rest != [] { BodyEnd(rest); }
    if dst == [] {
      assert dst + rest == rest;
      assert Render(src + rest)[|Body(src)|..] == Body(rest);
    } else if src == [] {
      assert src + rest == rest;
      if rest == [] { assert dst + rest == dst; }
    } else {
      assert Render(src + rest)[|Body(src)|..] == Body(rest);
    }
  }

  /** Substituting with the two prefixes swapped undoes a substitution. */
  lemma SubstituteRoundTrip(src: seq<Name>, dst: seq<Name>, rest: seq<Name>)
    requires src != [] || dst != []
    requires |Render(src + rest)| + 1 < PATH_MAX
    ensures |Render(src)| <= |Render(src + rest)|
    ensures var r := SubstitutePathPrefix(Render(src + rest), |Render(src)|, Render(dst));
            r.Success? ==>
              |Render(dst)| <= |r.value| &&
              SubstitutePathPrefix(r.value, |Render(dst)|, Render(src)) == Success(Render(src + rest))
  {
    SubstituteReplacesPrefix(src, dst, rest);
    SubstituteReplacesPrefix(dst, src, rest);
  }

  // ----- chop_finality (path/path.c) -----

  function ChopFinality(path: string): string
    requires path != ""
    requires path[|path| - 1] == '.' ==> |path| >= 2  // asserted by the source
  {
    if path[|path| - 1] == '.' then
      if |path| == 2 then path[..|path| - 1] else path[..|path| - 2]
    else if path[|path| - 1] == '/' then
      if |path| > 1 then path[..|path| - 1] else path
    else path
  }

  /** The suffix canonicalize() puts back after the canonical path. */
  function Suffix(cs: seq<Name>, finality: Finality): string {
    match finality
    case FinalSlash => if cs == [] then "" else "/"
    case FinalDot => if cs == [] then "." else "/."
    case _ => ""
  }

  /** chop_finality() removes the suffix it is meant for, except that it takes the final dot of
  a file name for one: with nothing to remove, it is right exactly when the name does not end with a dot. */
  lemma ChopFinalityExact(cs: seq<Name>, finality: Finality)
    ensures var p := Render(cs) + Suffix(cs, finality);
            && p != "" && (p[|p| - 1] == '.' ==> |p| >= 2)
            && (ChopFinality(p) == Render(cs) <==>
                finality.FinalSlash? || finality.FinalDot? || cs == [] ||
                cs[|cs| - 1][|cs[|cs| - 1]| - 1] != '.')
  {
    if cs != [] {
      BodyEnd(cs);
      var p := Render(cs) + Suffix(cs, finality);
      match finality
      case FinalSlash => assert p[..|p| - 1] == Body(cs);
      case FinalDot => assert p[..|p| - 2] == Body(cs);
      case _ => assert p == Body(cs);
    } else {
      assert Render(cs) == "/";
    }
  }

  /** Concretely, a mount point named "a." at the root is taken for the root itself. */
  lemma ChopFinalityTakesNameForRoot()
    ensures ChopFinality(Render(["a."])) == Render([])
  {
    assert Body(["a."]) == "/" + "a." + Body(["a."][1..]);
    assert Render(["a."]) == "/a.";
    assert "/a."[..1] == "/";
  }

  // ----- pop_component and next_component (path/canon.c) -----

  method PopComponent(path: string) returns (popped: string)
    requires path != "" && path[0] == '/'  // asserted by the source
    ensures popped != "" && popped[0] == '/'
    ensures Canonical(path) ==> popped == Render(Parent(Components(path)))
  {
    var offset := |path| - 1;
    // The root has no parent.
    if offset == 0 {
      assert Components(path) == [] by { assert path[1..] == ""; }
      return path;
    }
    ghost var cs := Components(path);
    if Canonical(path) {
      PopTarget(cs);
    }
    while offset > 1 && path[offset] == '/'
      invariant 1 <= offset < |path|
      invariant Canonical(path) ==> offset == |path| - 1
    {
      offset := offset - 1;
    }
    while offset > 1 && path[offset] != '/'
      invariant 1 <= offset < |path|
      invariant Canonical(path) ==> |Body(cs[..|cs| - 1])| <= offset
    {
      offset := offset - 1;
    }
    popped := path[..offset];
    if Canonical(path) {
      PopCut(path, cs[..|cs| - 1], cs[|cs| - 1], offset);
    }
  }

  lemma PopTarget(cs: seq<Name>)
    requires cs != []
    ensures var path, b := Body(cs), Body(cs[..|cs| - 1]);
            path == b + "/" + cs[|cs| - 1] && |b| < |path| - 1 && path[|path| - 1] != '/'
  {
    hide Body;
    BodySnoc(cs[..|cs| - 1], cs[|cs| - 1]);
    assert cs == cs[..|cs| - 1] + [cs[|cs| - 1]];
    BodyEnd(cs);
  }

  lemma PopCut(path: string, front: seq<Name>, last: Name, offset: nat)
    requires path == Body(front) + "/" + last
    requires 1 <= offset < |path| && |Body(front)| <= offset
    requires offset <= 1 || path[offset] == '/'
    ensures path[..offset] == Render(front)
  {
    var b := Body(front);
    assert forall i :: |b| < i < |path| ==> path[i] == last[i - |b| - 1];
    assert forall i :: 0 <= i < |last| ==> last[i] in last;
    if front == [] {
      assert path[..1] == "/";
    } else {
      BodyEnd(front);
      assert path[..|b|] == b;
    }
  }

  lemma SkipSeparator(path: string, i: nat)
    requires i < |path| && path[i] == '/'
    ensures Components(path[i..]) == Components(path[i + 1..])
  {
    assert path[i..][1..] == path[i + 1..];
  }

  lemma ComponentRead(path: string, start: nat, end: nat)
    requires start <= end <= |path| && '/' !in path[start..end]
    requires end == |path| || path[end] == '/'
    ensures start == end ==> start == |path| || path[start] == '/'
    ensures Components(path[start..]) ==
            (if start == end then [] else [path[start..end]]) + Components(path[end..])
  {
    var component, rest := path[start..end], path[end..];
    assert path[start..] == component + rest;
    ComponentsConcat(component, rest);
    if component != "" {
      ComponentsOfName(component);
    }
  }

  lemma ComponentsAtName(path: string, i: nat)
    requires i < |path| && path[i] != '/'
    ensures Components(path[i..]) != []
  {
  }

  /** The two loops of next_component() that skip separators. */
  method SkipSeparators(path: string, cursor: nat) returns (i: nat)
    requires cursor <= |path|
    ensures cursor <= i <= |path|
    ensures i == |path| || path[i] != '/'
    ensures forall k :: cursor <= k < i ==> path[k] == '/'
    ensures Components(path[i..]) == Components(path[cursor..])
  {
    i := cursor;
    while i < |path| && path[i] == '/'
      invariant cursor <= i <= |path|
      invariant forall k :: cursor <= k < i ==> path[k] == '/'
      invariant Components(path[i..]) == Components(path[cursor..])
    {
      SkipSeparator(path, i);
      i := i + 1;
    }
  }

  /** next_component(): read the component at the cursor and move to the next one. */
  method NextComponent(path: string, cursor: nat)
      returns (finality: Result<Finality>, component: string, next: nat)
    requires cursor <= |path|
    ensures cursor <= next <= |path|
    ensures finality.Success? ==>
              var todo := Components(path[cursor..]);
              && component == (if todo == [] then "" else todo[0])
              && Components(path[next..]) == (if todo == [] then [] else todo[1..])
              && finality.value == (if |todo| >= 2 then NotFinal
                                    else if |todo| == 1 && path[|path| - 1] == '/' then FinalSlash
                                    else FinalNormal)
              && (finality.value.NotFinal? ==> cursor < next)
    ensures finality.Failure? <==> Components(path[cursor..]) != [] && |Components(path[cursor..])[0]| >= NAME_MAX
    ensures finality.Failure? ==> finality.error.ENAMETOOLONG?
  {
    var start := SkipSeparators(path, cursor);
    var i := start;
    while i < |path| && path[i] != '/'
      invariant start <= i <= |path|
      invariant forall k :: start <= k < i ==> path[k] != '/'
    {
      i := i + 1;
    }
    ComponentRead(path, start, i);
    if i - start >= NAME_MAX {
      return Failure(ENAMETOOLONG), "", i;
    }
    component := path[start..i];
    var wantDir := i < |path| && path[i] == '/';
    next := SkipSeparators(path, i);
    if next == |path| {
      assert wantDir ==> path[|path| - 1] == '/';
      finality := Success(if wantDir then FinalSlash else FinalNormal);
    } else {
      ComponentsAtName(path, next);
      finality := Success(NotFinal);
    }
  }
}
