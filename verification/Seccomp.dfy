/** The BPF program that tells the kernel which syscalls to report (syscall/seccomp.c). */
module SeccompFilter {
  import opened Basics
  import opened Sysnums

  // ----- BPF -----

  /** A word of flags, as the set of its bits: `|` is union. */
  type Flags = set<nat>

  datatype Verdict = Trace(flags: Flags) | Allow | Kill

  datatype Insn =
    | LoadArch                                    // BPF_LD + BPF_W + BPF_ABS, the architecture
    | LoadNumber                                  // BPF_LD + BPF_W + BPF_ABS, the syscall number
    | JumpIfEqual(k: nat, onTrue: nat, onFalse: nat)
    | Jump(k: nat)
    | Ret(verdict: Verdict)

  /** What the program answers for a syscall; None when it runs off its end. */
  function Exec(p: seq<Insn>, pc: nat, acc: nat, arch: nat, number: nat): Option<Verdict>
    decreases |p| - pc
  {
    if pc >= |p| then None
    else
      match p[pc]
      case LoadArch => Exec(p, pc + 1, arch, arch, number)
      case LoadNumber => Exec(p, pc + 1, number, arch, number)
      case JumpIfEqual(k, onTrue, onFalse) => Exec(p, pc + 1 + (if acc == k then onTrue else onFalse), acc, arch, number)
      case Jump(k) => Exec(p, pc + 1 + k, acc, arch, number)
      case Ret(verdict) => Some(verdict)
  }

  /** The kernel's own check: every jump lands inside the program, every constant fits, and it ends with a return. */
  ghost predicate WellFormed(p: seq<Insn>) {
    && p != [] && p[|p| - 1].Ret?
    && (forall i :: 0 <= i < |p| ==> InsideFrom(p[i], |p| - i))
  }

  /** An instruction that stays within the `left` ones of which it is the first. */
  predicate InsideFrom(insn: Insn, left: nat) {
    match insn
    case JumpIfEqual(k, onTrue, onFalse) => 1 + onTrue < left && 1 + onFalse < left && k <= UINT32_MAX && onTrue < 256 && onFalse < 256
    case Jump(k) => 1 + k < left && k <= UINT32_MAX
    case Ret(_) => true
    case _ => 1 < left
  }

  const UINT32_MAX: nat := 0xFFFF_FFFF
  /** program->len is an unsigned short. */
  const LEN_LIMIT: nat := 0x1_0000

  // ----- Merging the requests of PRoot and of its extensions -----

  type Sysnum = x: nat | x != VOID witness 1

  datatype Filtered = Filtered(value: Sysnum, flags: Flags)

  function IndexOf(list: seq<Filtered>, s: nat): (r: nat)
    ensures r <= |list|
    ensures r < |list| ==> list[r].value == s
    ensures forall i :: 0 <= i < r ==> list[i].value != s
  {
    if list == [] || list[0].value == s then 0 else 1 + IndexOf(list[1..], s)
  }

  predicate Has(list: seq<Filtered>, s: nat) {
    IndexOf(list, s) < |list|
  }

  /** All the flags a list has for a syscall, together. */
  function FlagsFor(list: seq<Filtered>, s: nat): Flags {
    if list == [] then {} else (if list[0].value == s then list[0].flags else {}) + FlagsFor(list[1..], s)
  }

  ghost predicate Once(list: seq<Filtered>) {
    forall i, j :: 0 <= i < j < |list| ==> list[i].value != list[j].value
  }

  /** The list after one more request. */
  function Merged1(list: seq<Filtered>, f: Filtered): seq<Filtered> {
    var j := IndexOf(list, f.value);
    if j == |list| then list + [f] else list[j := Filtered(f.value, list[j].flags + f.flags)]
  }

  function Merged(list: seq<Filtered>, more: seq<Filtered>): seq<Filtered>
    decreases |more|
  {
    if more == [] then list else Merged(Merged1(list, more[0]), more[1..])
  }

  lemma {:induction false} MergedSnoc(list: seq<Filtered>, more: seq<Filtered>, f: Filtered)
    ensures Merged(list, more + [f]) == Merged1(Merged(list, more), f)
    decreases |more|
  {
    hide Merged1;
    if more == [] {
      assert [f][1..] == [] && more + [f] == [f];
    } else {
      MergedSnoc(Merged1(list, more[0]), more[1..], f);
      assert (more + [f])[1..] == more[1..] + [f];
    }
  }

  /** merge_filtered_sysnums(). */
  method MergeFilteredSysnums(list: seq<Filtered>, more: seq<Filtered>) returns (merged: seq<Filtered>)
    ensures merged == Merged(list, more)
  {
    hide Merged, Merged1;
    merged := list;
    assert more[..0] == [];
    MergedNone(list);
    for i := 0 to |more|
      invariant merged == Merged(list, more[..i])
    {
      MergedSnoc(list, more[..i], more[i]);
      assert more[..i + 1] == more[..i] + [more[i]];
      merged := MergeOne(merged, more[i]);
    }
    assert more[..|more|] == more;
  }

  lemma MergedNone(list: seq<Filtered>)
    ensures Merged(list, []) == list
  {
  }

  /** One turn of its outer loop. */
  method MergeOne(list: seq<Filtered>, f: Filtered) returns (merged: seq<Filtered>)
    ensures merged == Merged1(list, f)
  {
    // Is that number listed already?
    var j := 0;
    while j < |list| && list[j].value != f.value
      invariant 0 <= j <= |list|
      invariant forall i :: 0 <= i < j ==> list[i].value != f.value
    {
      j := j + 1;
    }
    assert j == IndexOf(list, f.value);
    if j == |list| {
      merged := list + [f];
    } else {
      merged := list[j := list[j].(flags := list[j].flags + f.flags)];
    }
  }

  lemma {:induction false} FlagsConcat(a: seq<Filtered>, b: seq<Filtered>, s: nat)
    ensures FlagsFor(a + b, s) == FlagsFor(a, s) + FlagsFor(b, s)
  {
    if a == [] {
      assert a + b == b;
    } else {
      FlagsConcat(a[1..], b, s);
      assert (a + b)[1..] == a[1..] + b;
    }
  }

  lemma {:induction false} FlagsUpdate(list: seq<Filtered>, j: nat, flags: Flags, s: nat)
    requires j < |list|
    ensures FlagsFor(list[j := Filtered(list[j].value, list[j].flags + flags)], s) ==
            FlagsFor(list, s) + (if list[j].value == s then flags else {})
  {
    var list' := list[j := Filtered(list[j].value, list[j].flags + flags)];
    if j == 0 {
      assert list'[1..] == list[1..];
    } else {
      FlagsUpdate(list[1..], j - 1, flags, s);
      assert list'[1..] == list[1..][j - 1 := Filtered(list[j].value, list[j].flags + flags)];
    }
  }

  lemma Merged1Keeps(list: seq<Filtered>, f: Filtered, s: nat)
    ensures FlagsFor(Merged1(list, f), s) == FlagsFor(list, s) + FlagsFor([f], s)
    ensures Has(Merged1(list, f), s) <==> Has(list, s) || f.value == s
    ensures Once(list) ==> Once(Merged1(list, f))
  {
    assert [f][1..] == [] && FlagsFor([f], s) == if f.value == s then f.flags else {};
    var j := IndexOf(list, f.value);
    var k, k' := IndexOf(list, s), IndexOf(Merged1(list, f), s);
    if j == |list| {
      FlagsConcat(list, [f], s);
      if k' < |list| { assert list[k'].value == s; }
      if k < |list| { assert Merged1(list, f)[k].value == s; }
      assert Merged1(list, f)[|list|] == f;
    } else {
      FlagsUpdate(list, j, f.flags, s);
      assert forall i :: 0 <= i < |list| ==> Merged1(list, f)[i].value == list[i].value;
      if k' < |list| { assert list[k'].value == s; }
      if k < |list| { assert Merged1(list, f)[k].value == s; }
    }
  }

  /** Merging: every syscall any list asks for is listed once, with all the flags it is asked with. */
  lemma {:induction false} MergedFlags(list: seq<Filtered>, more: seq<Filtered>, s: nat)
    requires Once(list)
    ensures Once(Merged(list, more))
    ensures FlagsFor(Merged(list, more), s) == FlagsFor(list, s) + FlagsFor(more, s)
    ensures Has(Merged(list, more), s) <==> Has(list, s) || Has(more, s)
    decreases |more|
  {
    hide Merged1;
    if more != [] {
      Merged1Keeps(list, more[0], s);
      MergedFlags(Merged1(list, more[0]), more[1..], s);
      assert FlagsFor([more[0]], s) + FlagsFor(more[1..], s) == FlagsFor(more, s);
    }
  }

  /** In a merged list, the flags of an entry are all the flags of its syscall. */
  lemma {:induction false} OnceFlags(list: seq<Filtered>, i: nat)
    requires Once(list) && i < |list|
    ensures FlagsFor(list, list[i].value) == list[i].flags
  {
    if i == 0 {
      NoFlags(list[1..], list[0].value);
    } else {
      OnceFlags(list[1..], i - 1);
    }
  }

  lemma {:induction false} NoFlags(list: seq<Filtered>, s: nat)
    requires forall i :: 0 <= i < |list| ==> list[i].value != s
    ensures FlagsFor(list, s) == {}
  {
    if list != [] {
      NoFlags(list[1..], s);
    }
  }

  // ----- The program -----

  /** One architecture the kernel may report, and its ABIs. */
  datatype Arch = Arch(value: nat, abis: seq<Abi>)

  datatype Entry = Entry(number: nat, flags: Flags)

  function AbiEntry(abi: Abi, f: Filtered, avoider: nat): seq<Entry> {
    var number := Detranslated(abi, f.value, avoider);
    if number == avoider then [] else [Entry(number, f.flags)]
  }

  function AbiEntries(abi: Abi, list: seq<Filtered>, avoider: nat): seq<Entry> {
    if list == [] then [] else AbiEntry(abi, list[0], avoider) + AbiEntries(abi, list[1..], avoider)
  }

  /** The syscalls to trace for the ABIs of an architecture, in order. */
  function Entries(abis: seq<Abi>, list: seq<Filtered>, avoider: nat): seq<Entry> {
    if abis == [] then [] else AbiEntries(abis[0], list, avoider) + Entries(abis[1..], list, avoider)
  }

  function TraceInsns(entries: seq<Entry>): (r: seq<Insn>)
    ensures |r| == 2 * |entries|
  {
    if entries == [] then []
    else [JumpIfEqual(entries[0].number, 0, 1), Ret(Trace(entries[0].flags))] + TraceInsns(entries[1..])
  }

  function Section(value: nat, entries: seq<Entry>): seq<Insn> {
    [LoadArch, JumpIfEqual(value, 1, 0), Jump(2 * |entries| + 2), LoadNumber] + TraceInsns(entries) + [Ret(Allow)]
  }

  function Sections(archs: seq<Arch>, list: seq<Filtered>, avoider: nat): seq<Insn> {
    if archs == [] then []
    else Section(archs[0].value, Entries(archs[0].abis, list, avoider)) + Sections(archs[1..], list, avoider)
  }

  function Compiled(archs: seq<Arch>, list: seq<Filtered>, avoider: nat): seq<Insn> {
    Sections(archs, list, avoider) + [Ret(Kill)]
  }

  predicate NumbersFit(entries: seq<Entry>) {
    forall i :: 0 <= i < |entries| ==> entries[i].number <= UINT32_MAX
  }

  /** When the source reports no error: numbers and lengths fit, and each section starts where program->len can
  tell.  `base` is the length of what is already there. */
  predicate Compilable(archs: seq<Arch>, list: seq<Filtered>, avoider: nat, base: nat)
    decreases |archs|
  {
    archs == [] ||
    (var entries := Entries(archs[0].abis, list, avoider);
     && 1 + 2 * |entries| <= UINT32_MAX - 1
     && NumbersFit(entries)
     && base + 4 < LEN_LIMIT
     && Compilable(archs[1..], list, avoider, base + 5 + 2 * |entries|))
  }

  class Program {
    var filter: seq<Insn>
    var len: nat

    /** new_program_filter(). */
    constructor ()
      ensures filter == [] && len == 0
    {
      filter, len := [], 0;
    }

    method AddStatements(statements: seq<Insn>)
      modifies this`filter
      ensures filter == old(filter) + statements
    {
      filter := filter + statements;
    }

    method AddTraceSyscall(syscall: nat, flags: Flags) returns (ok: bool)
      modifies this`filter
      ensures ok <==> syscall <= UINT32_MAX
      ensures filter == old(filter) + if ok then TraceInsns([Entry(syscall, flags)]) else []
    {
      if syscall > UINT32_MAX {
        assert old(filter) + [] == old(filter);
        return false;
      }
      assert [Entry(syscall, flags)][1..] == [];
      AddStatements([JumpIfEqual(syscall, 0, 1), Ret(Trace(flags))]);
      return true;
    }

    method EndArchSection(nbTracedSyscalls: nat) returns (ok: bool)
      modifies this`filter
      ensures filter == old(filter) + [Ret(Allow)]
      ensures ok <==> |filter| == len + 1 + 2 * nbTracedSyscalls
    {
      AddStatements([Ret(Allow)]);
      // The jump over the section was computed for this length.
      return |filter| == len + 1 + 2 * nbTracedSyscalls;
    }

    method StartArchSection(arch: nat, nbTracedSyscalls: nat) returns (ok: bool)
      modifies this
      ensures ok <==> 1 + 2 * nbTracedSyscalls <= UINT32_MAX - 1
      ensures ok ==> filter == old(filter) + [LoadArch, JumpIfEqual(arch, 1, 0), Jump(2 * nbTracedSyscalls + 2), LoadNumber]
      ensures ok ==> len == |filter| % LEN_LIMIT
    {
      var sectionLength := 1 + nbTracedSyscalls * 2;
      if sectionLength > UINT32_MAX - 1 {
        return false;
      }
      AddStatements([LoadArch, JumpIfEqual(arch, 1, 0), Jump(sectionLength + 1), LoadNumber]);
      len := |filter| % LEN_LIMIT;
      return true;
    }

    method FinalizeProgramFilter()
      modifies this
      ensures filter == old(filter) + [Ret(Kill)] && len == |filter| % LEN_LIMIT
    {
      AddStatements([Ret(Kill)]);
      len := |filter| % LEN_LIMIT;
    }

    /** set_seccomp_filters() first counts the entries of a section, for the jump over them. */
    static method CountTraced(abis: seq<Abi>, list: seq<Filtered>, avoider: nat) returns (n: nat)
      ensures n == |Entries(abis, list, avoider)|
    {
      hide AbiEntries, Entries, Detranslated;
      n := 0;
      NoEntries(list, avoider);
      assert abis[..0] == [];
      for j := 0 to |abis|
        invariant n == |Entries(abis[..j], list, avoider)|
      {
        NoAbiEntries(abis[j], avoider);
        assert list[..0] == [];
        for k := 0 to |list|
          invariant n == |Entries(abis[..j], list, avoider)| + |AbiEntries(abis[j], list[..k], avoider)|
        {
          AbiEntriesSnoc(abis[j], list, k, avoider);
          var syscall := DetranslateSysnum(abis[j], list[k].value, avoider);
          if syscall != avoider {
            n := n + 1;
          }
        }
        assert list[..|list|] == list;
        EntriesSnoc(abis, j, list, avoider);
      }
      assert abis[..|abis|] == abis;
    }

    /** The loops that emit them: false as soon as a number does not fit. */
    method TraceAll(abis: seq<Abi>, list: seq<Filtered>, avoider: nat) returns (ok: bool)
      modifies this`filter
      ensures ok <==> NumbersFit(Entries(abis, list, avoider))
      ensures ok ==> filter == old(filter) + TraceInsns(Entries(abis, list, avoider))
    {
      hide AbiEntries, Entries, Detranslated, TraceInsns;
      ghost var done: seq<Entry> := [];
      ghost var all := Entries(abis, list, avoider);
      NoEntries(list, avoider);
      TraceInsnsNone();
      assert abis[..0] == [];
      for j := 0 to |abis|
        invariant done == Entries(abis[..j], list, avoider)
        invariant NumbersFit(done) && filter == old(filter) + TraceInsns(done)
      {
        EntriesSnoc(abis, j, list, avoider);
        ghost var before := done;
        NoAbiEntries(abis[j], avoider);
        assert list[..0] == [] && before + [] == before;
        for k := 0 to |list|
          invariant done == before + AbiEntries(abis[j], list[..k], avoider)
          invariant NumbersFit(done) && filter == old(filter) + TraceInsns(done)
        {
          // Its number in this ABI, if it has one.
          AbiEntriesSnoc(abis[j], list, k, avoider);
          ghost var prefix := AbiEntries(abis[j], list[..k], avoider);
          var syscall := DetranslateSysnum(abis[j], list[k].value, avoider);
          if syscall == avoider {
            assert prefix + [] == prefix;
            continue;
          }
          ghost var entry := Entry(syscall, list[k].flags);
          assert before + (prefix + [entry]) == done + [entry];
          TraceInsnsConcat(done, [entry]);
          var fits := AddTraceSyscall(syscall, list[k].flags);
          if !fits {
            assert (done + [entry])[|done|] == entry;
            Misfit(abis, j, list, k, avoider, done + [entry]);
            return false;
          }
          done := done + [entry];
        }
        assert list[..|list|] == list;
      }
      assert abis[..|abis|] == abis;
      return true;
    }

    /** set_seccomp_filters(), up to the system calls it ends with. */
    method SetSeccompFilters(archs: seq<Arch>, list: seq<Filtered>, avoider: nat) returns (ok: bool)
      requires filter == []
      modifies this
      ensures ok <==> Compilable(archs, list, avoider, 0)
      ensures ok ==> filter == Compiled(archs, list, avoider) && len == |filter| % LEN_LIMIT
    {
      hide Sections, Compilable, TraceInsns, Entries, NumbersFit;
      assert archs[0..] == archs && archs[..0] == [];
      NoSections(list, avoider);
      for i := 0 to |archs|
        invariant filter == Sections(archs[..i], list, avoider)
        invariant Compilable(archs, list, avoider, 0) <==> Compilable(archs[i..], list, avoider, |filter|)
      {
        var abis := archs[i].abis;
        ghost var entries := Entries(abis, list, avoider);
        SectionsSnoc(archs, i, list, avoider);
        CompilableNext(archs, i, list, avoider, |filter|);
        ghost var before := filter;
        var nbTracedSyscalls := CountTraced(abis, list, avoider);
        ok := StartArchSection(archs[i].value, nbTracedSyscalls);
        if !ok { return; }
        ok := TraceAll(abis, list, avoider);
        if !ok { return; }
        ok := EndArchSection(nbTracedSyscalls);
        LengthTells(|before| + 4, |filter|, nbTracedSyscalls);
        if !ok { return; }
        assert filter == before + Section(archs[i].value, entries);
      }
      assert archs[..|archs|] == archs && archs[|archs|..] == [];
      NothingToCompile(list, avoider, |filter|);
      FinalizeProgramFilter();
      return true;
    }
  }

  lemma LengthTells(start: nat, length: nat, n: nat)
    requires length == start + 2 * n + 1
    ensures length == start % LEN_LIMIT + 1 + 2 * n <==> start < LEN_LIMIT
  {
  }

  lemma Associative<T>(a: seq<T>, b: seq<T>, c: seq<T>)
    ensures a + b + c == a + (b + c)
  {
  }

  lemma NoEntries(list: seq<Filtered>, avoider: nat)
    ensures Entries([], list, avoider) == []
  {
  }

  lemma NoAbiEntries(abi: Abi, avoider: nat)
    ensures AbiEntries(abi, [], avoider) == []
  {
  }

  lemma NoSections(list: seq<Filtered>, avoider: nat)
    ensures Sections([], list, avoider) == []
  {
  }

  lemma NothingToCompile(list: seq<Filtered>, avoider: nat, base: nat)
    ensures Compilable([], list, avoider, base)
  {
  }

  lemma TraceInsnsNone()
    ensures TraceInsns([]) == []
  {
  }

  lemma TraceInsnsCons(a: seq<Entry>, b: seq<Entry>)
    requires a != []
    ensures TraceInsns(a + b) == [JumpIfEqual(a[0].number, 0, 1), Ret(Trace(a[0].flags))] + TraceInsns(a[1..] + b)
    ensures TraceInsns(a) == [JumpIfEqual(a[0].number, 0, 1), Ret(Trace(a[0].flags))] + TraceInsns(a[1..])
  {
    assert (a + b)[1..] == a[1..] + b;
  }

  lemma {:induction false} TraceInsnsConcat(a: seq<Entry>, b: seq<Entry>)
    ensures TraceInsns(a + b) == TraceInsns(a) + TraceInsns(b)
  {
    if a == [] {
      assert a + b == b && TraceInsns(a) == [];
    } else {
      TraceInsnsCons(a, b);
      TraceInsnsConcat(a[1..], b);
      hide TraceInsns;
      Associative([JumpIfEqual(a[0].number, 0, 1), Ret(Trace(a[0].flags))], TraceInsns(a[1..]), TraceInsns(b));
    }
  }

  lemma AbiEntriesCons(abi: Abi, a: seq<Filtered>, b: seq<Filtered>, avoider: nat)
    requires a != []
    ensures AbiEntries(abi, a + b, avoider) == AbiEntry(abi, a[0], avoider) + AbiEntries(abi, a[1..] + b, avoider)
    ensures AbiEntries(abi, a, avoider) == AbiEntry(abi, a[0], avoider) + AbiEntries(abi, a[1..], avoider)
  {
    assert (a + b)[1..] == a[1..] + b;
  }

  lemma {:induction false} AbiEntriesConcat(abi: Abi, a: seq<Filtered>, b: seq<Filtered>, avoider: nat)
    ensures AbiEntries(abi, a + b, avoider) == AbiEntries(abi, a, avoider) + AbiEntries(abi, b, avoider)
  {
    if a == [] {
      assert a + b == b && AbiEntries(abi, a, avoider) == [];
    } else {
      AbiEntriesCons(abi, a, b, avoider);
      AbiEntriesConcat(abi, a[1..], b, avoider);
      hide AbiEntries;
      Associative(AbiEntry(abi, a[0], avoider), AbiEntries(abi, a[1..], avoider), AbiEntries(abi, b, avoider));
    }
  }

  lemma AbiEntriesSnoc(abi: Abi, list: seq<Filtered>, k: nat, avoider: nat)
    requires k < |list|
    ensures var number := Detranslated(abi, list[k].value, avoider);
            AbiEntries(abi, list[..k + 1], avoider) ==
            AbiEntries(abi, list[..k], avoider) + if number == avoider then [] else [Entry(number, list[k].flags)]
  {
    hide Detranslated;
    AbiEntriesConcat(abi, list[..k], [list[k]], avoider);
    assert list[..k + 1] == list[..k] + [list[k]] && [list[k]][1..] == [];
  }

  lemma EntriesCons(a: seq<Abi>, b: seq<Abi>, list: seq<Filtered>, avoider: nat)
    requires a != []
    ensures Entries(a + b, list, avoider) == AbiEntries(a[0], list, avoider) + Entries(a[1..] + b, list, avoider)
    ensures Entries(a, list, avoider) == AbiEntries(a[0], list, avoider) + Entries(a[1..], list, avoider)
  {
    assert (a + b)[1..] == a[1..] + b;
  }

  lemma {:induction false} EntriesConcat(a: seq<Abi>, b: seq<Abi>, list: seq<Filtered>, avoider: nat)
    ensures Entries(a + b, list, avoider) == Entries(a, list, avoider) + Entries(b, list, avoider)
  {
    if a == [] {
      assert a + b == b && Entries(a, list, avoider) == [];
    } else {
      EntriesCons(a, b, list, avoider);
      EntriesConcat(a[1..], b, list, avoider);
      hide Entries;
      Associative(AbiEntries(a[0], list, avoider), Entries(a[1..], list, avoider), Entries(b, list, avoider));
    }
  }

  lemma EntriesSnoc(abis: seq<Abi>, j: nat, list: seq<Filtered>, avoider: nat)
    requires j < |abis|
    ensures Entries(abis[..j + 1], list, avoider) == Entries(abis[..j], list, avoider) + AbiEntries(abis[j], list, avoider)
  {
    hide AbiEntries;
    EntriesConcat(abis[..j], [abis[j]], list, avoider);
    assert abis[..j + 1] == abis[..j] + [abis[j]] && [abis[j]][1..] == [];
  }

  /** One number that does not fit is one too many. */
  lemma Misfit(abis: seq<Abi>, j: nat, list: seq<Filtered>, k: nat, avoider: nat, done: seq<Entry>)
    requires j < |abis| && k < |list|
    requires done == Entries(abis[..j], list, avoider) + AbiEntries(abis[j], list[..k + 1], avoider)
    requires !NumbersFit(done)
    ensures !NumbersFit(Entries(abis, list, avoider))
  {
    hide AbiEntries, Entries;
    AbiEntriesConcat(abis[j], list[..k + 1], list[k + 1..], avoider);
    assert list == list[..k + 1] + list[k + 1..];
    EntriesSnoc(abis, j, list, avoider);
    EntriesConcat(abis[..j + 1], abis[j + 1..], list, avoider);
    assert abis == abis[..j + 1] + abis[j + 1..];
    var all := Entries(abis, list, avoider);
    assert all[..|done|] == done;
    var i :| 0 <= i < |done| && done[i].number > UINT32_MAX;
    assert all[i] == done[i];
  }

  lemma SectionsCons(a: seq<Arch>, b: seq<Arch>, list: seq<Filtered>, avoider: nat)
    requires a != []
    ensures Sections(a + b, list, avoider) == Section(a[0].value, Entries(a[0].abis, list, avoider)) + Sections(a[1..] + b, list, avoider)
    ensures Sections(a, list, avoider) == Section(a[0].value, Entries(a[0].abis, list, avoider)) + Sections(a[1..], list, avoider)
  {
    assert (a + b)[1..] == a[1..] + b;
  }

  lemma {:induction false} SectionsConcat(a: seq<Arch>, b: seq<Arch>, list: seq<Filtered>, avoider: nat)
    ensures Sections(a + b, list, avoider) == Sections(a, list, avoider) + Sections(b, list, avoider)
  {
    if a == [] {
      assert a + b == b && Sections(a, list, avoider) == [];
    } else {
      SectionsCons(a, b, list, avoider);
      SectionsConcat(a[1..], b, list, avoider);
      hide Sections;
      Associative(Section(a[0].value, Entries(a[0].abis, list, avoider)), Sections(a[1..], list, avoider), Sections(b, list, avoider));
    }
  }

  lemma SectionsSnoc(archs: seq<Arch>, i: nat, list: seq<Filtered>, avoider: nat)
    requires i < |archs|
    ensures Sections(archs[..i + 1], list, avoider) ==
            Sections(archs[..i], list, avoider) + Section(archs[i].value, Entries(archs[i].abis, list, avoider))
  {
    hide Section, Entries;
    SectionsConcat(archs[..i], [archs[i]], list, avoider);
    assert archs[..i + 1] == archs[..i] + [archs[i]] && [archs[i]][1..] == [];
  }

  lemma CompilableNext(archs: seq<Arch>, i: nat, list: seq<Filtered>, avoider: nat, base: nat)
    requires i < |archs|
    ensures var entries := Entries(archs[i].abis, list, avoider);
            Compilable(archs[i..], list, avoider, base) <==>
              && 1 + 2 * |entries| <= UINT32_MAX - 1
              && NumbersFit(entries)
              && base + 4 < LEN_LIMIT
              && Compilable(archs[i + 1..], list, avoider, base + 5 + 2 * |entries|)
  {
    hide Entries, NumbersFit;
    assert archs[i..][1..] == archs[i + 1..];
  }

  // ----- What the program answers -----

  function FirstEntry(entries: seq<Entry>, number: nat): (r: Option<Flags>)
    ensures r.Some? ==> Entry(number, r.value) in entries
    ensures r.None? ==> forall e :: e in entries ==> e.number != number
  {
    if entries == [] then None
    else if entries[0].number == number then Some(entries[0].flags)
    else FirstEntry(entries[1..], number)
  }

  function SectionVerdict(entries: seq<Entry>, number: nat): Verdict {
    match FirstEntry(entries, number)
    case None => Allow
    case Some(flags) => Trace(flags)
  }

  /** The verdict of a program: that of the section of the architecture. */
  function Meaning(archs: seq<Arch>, list: seq<Filtered>, avoider: nat, arch: nat, number: nat): Verdict {
    if archs == [] then Kill
    else if archs[0].value == arch then SectionVerdict(Entries(archs[0].abis, list, avoider), number)
    else Meaning(archs[1..], list, avoider, arch, number)
  }

  /** A suffix runs as it would alone: jumps only go forward. */
  lemma {:induction false} ExecSuffix(a: seq<Insn>, b: seq<Insn>, pc: nat, acc: nat, arch: nat, number: nat)
    ensures Exec(a + b, |a| + pc, acc, arch, number) == Exec(b, pc, acc, arch, number)
    decreases |b| - pc
  {
    if pc < |b| {
      assert (a + b)[|a| + pc] == b[pc];
      match b[pc]
      case LoadArch => ExecSuffix(a, b, pc + 1, arch, arch, number);
      case LoadNumber => ExecSuffix(a, b, pc + 1, number, arch, number);
      case JumpIfEqual(k, onTrue, onFalse) =>
        ExecSuffix(a, b, pc + 1 + (if acc == k then onTrue else onFalse), acc, arch, number);
      case Jump(k) => ExecSuffix(a, b, pc + 1 + k, acc, arch, number);
      case Ret(_) =>
    }
  }

  lemma {:induction false} ExecTraces(entries: seq<Entry>, rest: seq<Insn>, arch: nat, number: nat)
    ensures Exec(TraceInsns(entries) + rest, 0, number, arch, number) ==
            match FirstEntry(entries, number)
            case None => Exec(rest, 0, number, arch, number)
            case Some(flags) => Some(Trace(flags))
  {
    if entries == [] {
      assert TraceInsns(entries) + rest == rest;
    } else {
      var e := entries[0];
      var head := [JumpIfEqual(e.number, 0, 1), Ret(Trace(e.flags))];
      var p := TraceInsns(entries) + rest;
      var tail := TraceInsns(entries[1..]) + rest;
      assert p == head + tail;
      assert p[0] == JumpIfEqual(e.number, 0, 1) && p[1] == Ret(Trace(e.flags));
      ExecTraces(entries[1..], rest, arch, number);
      ExecSuffix(head, tail, 0, number, arch, number);
    }
  }

  lemma ExecSection(value: nat, entries: seq<Entry>, rest: seq<Insn>, acc: nat, arch: nat, number: nat)
    ensures Exec(Section(value, entries) + rest, 0, acc, arch, number) ==
            if arch == value then Some(SectionVerdict(entries, number)) else Exec(rest, 0, arch, arch, number)
  {
    var head := [LoadArch, JumpIfEqual(value, 1, 0), Jump(2 * |entries| + 2), LoadNumber];
    var traces := TraceInsns(entries) + ([Ret(Allow)] + rest);
    var p := Section(value, entries) + rest;
    assert p == head + traces;
    assert p[0] == head[0] && p[1] == head[1] && p[2] == head[2] && p[3] == head[3];
    if arch == value {
      assert Exec(p, 0, acc, arch, number) == Exec(p, 1, arch, arch, number);
      assert Exec(p, 1, arch, arch, number) == Exec(p, 3, arch, arch, number);
      assert Exec(p, 3, arch, arch, number) == Exec(p, 4, number, arch, number);
      ExecSuffix(head, traces, 0, number, arch, number);
      ExecTraces(entries, [Ret(Allow)] + rest, arch, number);
    } else {
      var next := |Section(value, entries)|;
      assert Exec(p, 0, acc, arch, number) == Exec(p, 1, arch, arch, number);
      assert Exec(p, 1, arch, arch, number) == Exec(p, 2, arch, arch, number);
      assert Exec(p, 2, arch, arch, number) == Exec(p, next, arch, arch, number);
      ExecSuffix(Section(value, entries), rest, 0, arch, arch, number);
    }
  }

  /** The compiled program always reaches a return, and answers what its sections mean. */
  lemma {:induction false} CompiledMeaning(archs: seq<Arch>, list: seq<Filtered>, avoider: nat, acc: nat, arch: nat,
                                           number: nat)
    ensures Exec(Compiled(archs, list, avoider), 0, acc, arch, number) == Some(Meaning(archs, list, avoider, arch, number))
    decreases |archs|
  {
    hide Entries, Section, SectionVerdict;
    if archs == [] {
      assert Compiled(archs, list, avoider) == [Ret(Kill)];
    } else {
      var entries := Entries(archs[0].abis, list, avoider);
      var rest := Compiled(archs[1..], list, avoider);
      assert Compiled(archs, list, avoider) == Section(archs[0].value, entries) + rest;
      ExecSection(archs[0].value, entries, rest, acc, arch, number);
      CompiledMeaning(archs[1..], list, avoider, arch, arch, number);
    }
  }

  /** All instructions stay inside a program of which `extra` more ones follow. */
  ghost predicate AllInside(p: seq<Insn>, extra: nat) {
    forall i :: 0 <= i < |p| ==> InsideFrom(p[i], |p| - i + extra)
  }

  lemma InsideConcat(a: seq<Insn>, b: seq<Insn>, extra: nat)
    requires AllInside(a, |b| + extra) && AllInside(b, extra)
    ensures AllInside(a + b, extra)
  {
    var p := a + b;
    forall i | 0 <= i < |p| ensures InsideFrom(p[i], |p| - i + extra) {
      if i < |a| {
        assert p[i] == a[i];
      } else {
        assert p[i] == b[i - |a|];
      }
    }
  }

  lemma {:induction false} TracesInside(entries: seq<Entry>, extra: nat)
    requires NumbersFit(entries) && extra >= 1
    ensures AllInside(TraceInsns(entries), extra)
  {
    if entries != [] {
      TracesInside(entries[1..], extra);
      var head := [JumpIfEqual(entries[0].number, 0, 1), Ret(Trace(entries[0].flags))];
      InsideConcat(head, TraceInsns(entries[1..]), extra);
    }
  }

  lemma SectionInside(value: nat, entries: seq<Entry>, extra: nat)
    requires NumbersFit(entries) && value <= UINT32_MAX && 1 + 2 * |entries| <= UINT32_MAX - 1 && extra >= 1
    ensures AllInside(Section(value, entries), extra)
  {
    hide NumbersFit;
    var head := [LoadArch, JumpIfEqual(value, 1, 0), Jump(2 * |entries| + 2), LoadNumber];
    TracesInside(entries, 1 + extra);
    InsideConcat(TraceInsns(entries), [Ret(Allow)], extra);
    InsideConcat(head, TraceInsns(entries) + [Ret(Allow)], extra);
    assert Section(value, entries) == head + (TraceInsns(entries) + [Ret(Allow)]);
  }

  lemma {:induction false} SectionsInside(archs: seq<Arch>, list: seq<Filtered>, avoider: nat, base: nat)
    requires Compilable(archs, list, avoider, base) && forall a :: a in archs ==> a.value <= UINT32_MAX
    ensures AllInside(Compiled(archs, list, avoider), 0)
    decreases |archs|
  {
    hide Entries, Section, NumbersFit;
    if archs == [] {
      assert Compiled(archs, list, avoider) == [Ret(Kill)];
    } else {
      var entries := Entries(archs[0].abis, list, avoider);
      var rest := Compiled(archs[1..], list, avoider);
      assert Compiled(archs, list, avoider) == Section(archs[0].value, entries) + rest;
      SectionsInside(archs[1..], list, avoider, base + 5 + 2 * |entries|);
      SectionInside(archs[0].value, entries, |rest|);
      InsideConcat(Section(archs[0].value, entries), rest, 0);
    }
  }

  /** Whatever the source compiles without an error passes the kernel's check of jumps and constants. */
  lemma CompiledWellFormed(archs: seq<Arch>, list: seq<Filtered>, avoider: nat)
    requires Compilable(archs, list, avoider, 0) && forall a :: a in archs ==> a.value <= UINT32_MAX
    ensures WellFormed(Compiled(archs, list, avoider))
  {
    hide Compilable, Sections;
    SectionsInside(archs, list, avoider, 0);
  }

  // ----- Against the reference meaning -----

  /** The requests make this architecture's syscall `number` traced with these flags: some syscall they ask for has
  this number in one of its ABIs. */
  ghost predicate Asks(abis: seq<Abi>, requests: seq<Filtered>, avoider: nat, number: nat, flags: Flags) {
    number != avoider &&
    exists abi, s: nat :: abi in abis && Has(requests, s) && IsNumber(abi, s, avoider, number) && flags == FlagsFor(requests, s)
  }

  predicate IsNumber(abi: Abi, s: nat, avoider: nat, number: nat) {
    Detranslated(abi, s, avoider) == number
  }

  /** The verdict everyone who asked for this syscall wants. */
  ghost predicate RightVerdict(abis: seq<Abi>, requests: seq<Filtered>, avoider: nat, number: nat, v: Verdict) {
    && (forall flags :: Asks(abis, requests, avoider, number, flags) ==> v == Trace(flags))
    && (v == Allow || v.Trace?)
    && (v.Trace? ==> Asks(abis, requests, avoider, number, v.flags))
  }

  /** No two syscalls share a number unless their flags agree. */
  ghost predicate Agreeing(abis: seq<Abi>, requests: seq<Filtered>, avoider: nat) {
    forall number: nat, f, g :: Asks(abis, requests, avoider, number, f) && Asks(abis, requests, avoider, number, g) ==> f == g
  }

  lemma {:induction false} AbiEntriesFrom(abi: Abi, list: seq<Filtered>, avoider: nat, e: Entry)
    ensures e in AbiEntries(abi, list, avoider) <==>
            exists i :: 0 <= i < |list| && IsNumber(abi, list[i].value, avoider, e.number) && e.number != avoider
                        && e.flags == list[i].flags
  {
    hide Detranslated;
    if list != [] {
      AbiEntriesFrom(abi, list[1..], avoider, e);
      if e in AbiEntries(abi, list, avoider) {
        if e == Entry(Detranslated(abi, list[0].value, avoider), list[0].flags) && e.number != avoider {
          assert IsNumber(abi, list[0].value, avoider, e.number);
        } else {
          var i :| 0 <= i < |list[1..]| && IsNumber(abi, list[1..][i].value, avoider, e.number) && e.flags == list[1..][i].flags;
          assert IsNumber(abi, list[i + 1].value, avoider, e.number);
        }
      }
      if i :| 0 <= i < |list| && IsNumber(abi, list[i].value, avoider, e.number) && e.number != avoider
              && e.flags == list[i].flags {
        if i > 0 {
          assert IsNumber(abi, list[1..][i - 1].value, avoider, e.number);
        }
      }
    }
  }

  lemma {:induction false} EntriesFrom(abis: seq<Abi>, list: seq<Filtered>, avoider: nat, e: Entry)
    ensures e in Entries(abis, list, avoider) <==> exists abi :: abi in abis && e in AbiEntries(abi, list, avoider)
  {
    hide AbiEntries;
    if abis == [] {
      assert Entries(abis, list, avoider) == [];
    } else {
      EntriesFrom(abis[1..], list, avoider, e);
      assert Entries(abis, list, avoider) == AbiEntries(abis[0], list, avoider) + Entries(abis[1..], list, avoider);
      if e in Entries(abis, list, avoider) && e !in AbiEntries(abis[0], list, avoider) {
        var abi :| abi in abis[1..] && e in AbiEntries(abi, list, avoider);
        assert abi in abis;
      }
      assert forall abi :: abi in abis ==> abi == abis[0] || abi in abis[1..];
    }
  }

  /** The entries of a section are what the requests ask for. */
  lemma EntriesAsked(abis: seq<Abi>, requests: seq<Filtered>, avoider: nat, e: Entry)
    ensures e in Entries(abis, Merged([], requests), avoider) <==> Asks(abis, requests, avoider, e.number, e.flags)
  {
    hide Entries, AbiEntries, Merged, Detranslated, IsNumber;
    var list := Merged([], requests);
    EntriesFrom(abis, list, avoider, e);
    if e in Entries(abis, list, avoider) {
      var abi :| abi in abis && e in AbiEntries(abi, list, avoider);
      AbiEntriesFrom(abi, list, avoider, e);
      var i :| 0 <= i < |list| && IsNumber(abi, list[i].value, avoider, e.number) && e.flags == list[i].flags;
      MergedEntry(requests, i);
      assert IsNumber(abi, list[i].value, avoider, e.number);
    }
    if Asks(abis, requests, avoider, e.number, e.flags) {
      var abi, s: nat :| abi in abis && Has(requests, s) && IsNumber(abi, s, avoider, e.number) && e.flags == FlagsFor(requests, s);
      MergedFlags([], requests, s);
      var i := IndexOf(list, s);
      MergedEntry(requests, i);
      AbiEntriesFrom(abi, list, avoider, e);
      assert IsNumber(abi, list[i].value, avoider, e.number);
    }
  }

  lemma MergedEntry(requests: seq<Filtered>, i: nat)
    requires i < |Merged([], requests)|
    ensures var f := Merged([], requests)[i]; Has(requests, f.value) && f.flags == FlagsFor(requests, f.value)
  {
    hide Merged;
    var list := Merged([], requests);
    MergedFlags([], requests, list[i].value);
    OnceFlags(list, i);
    assert Has(list, list[i].value);
  }

  /** Successive merges are one merge of all the requests. */
  lemma {:induction false} MergedConcat(list: seq<Filtered>, a: seq<Filtered>, b: seq<Filtered>)
    ensures Merged(Merged(list, a), b) == Merged(list, a + b)
    decreases |a|
  {
    hide Merged1;
    if a == [] {
      assert a + b == b;
    } else {
      MergedConcat(Merged1(list, a[0]), a[1..], b);
      assert (a + b)[1..] == a[1..] + b;
    }
  }

  /** The verdict of the section of an architecture is the right one. */
  ghost predicate RightAt(abis: seq<Abi>, requests: seq<Filtered>, avoider: nat, number: nat) {
    RightVerdict(abis, requests, avoider, number, SectionVerdict(Entries(abis, Merged([], requests), avoider), number))
  }

  /** For an architecture, every syscall gets the right verdict just when no two syscalls that share a number there
  disagree about their flags. */
  lemma SectionCorrect(abis: seq<Abi>, requests: seq<Filtered>, avoider: nat)
    ensures (forall number: nat :: RightAt(abis, requests, avoider, number)) <==> Agreeing(abis, requests, avoider)
  {
    hide Entries, Merged, Asks, SectionVerdict, RightVerdict;
    if Agreeing(abis, requests, avoider) {
      forall number: nat ensures RightAt(abis, requests, avoider, number) {
        SectionAsked(abis, requests, avoider, number);
        AskedIsRight(abis, requests, avoider, number);
      }
    } else {
      var number: nat, f, g :| Asks(abis, requests, avoider, number, f) && Asks(abis, requests, avoider, number, g) && f != g;
      NotBoth(abis, requests, avoider, number, f, g);
      assert !RightAt(abis, requests, avoider, number);
    }
  }

  lemma AskedIsRight(abis: seq<Abi>, requests: seq<Filtered>, avoider: nat, number: nat)
    requires Agreeing(abis, requests, avoider) && SectionVerdictAsked(abis, requests, avoider, number)
    ensures RightAt(abis, requests, avoider, number)
  {
    hide Entries, Merged, Asks, SectionVerdict;
  }

  lemma NotBoth(abis: seq<Abi>, requests: seq<Filtered>, avoider: nat, number: nat, f: Flags, g: Flags)
    requires Asks(abis, requests, avoider, number, f) && Asks(abis, requests, avoider, number, g) && f != g
    ensures !RightAt(abis, requests, avoider, number)
  {
    hide Entries, Merged, Asks, SectionVerdict;
  }

  /** The verdict is one that somebody asked for, or Allow when nobody asked. */
  ghost predicate SectionVerdictAsked(abis: seq<Abi>, requests: seq<Filtered>, avoider: nat, number: nat) {
    var v := SectionVerdict(Entries(abis, Merged([], requests), avoider), number);
    && (v == Allow || (v.Trace? && Asks(abis, requests, avoider, number, v.flags)))
    && (v == Allow ==> forall flags :: !Asks(abis, requests, avoider, number, flags))
  }

  lemma SectionAsked(abis: seq<Abi>, requests: seq<Filtered>, avoider: nat, number: nat)
    ensures SectionVerdictAsked(abis, requests, avoider, number)
  {
    hide Entries, Merged, Asks;
    var entries := Entries(abis, Merged([], requests), avoider);
    var first := FirstEntry(entries, number);
    if first.Some? {
      EntriesAsked(abis, requests, avoider, Entry(number, first.value));
    } else {
      forall flags: Flags ensures !Asks(abis, requests, avoider, number, flags) {
        EntriesAsked(abis, requests, avoider, Entry(number, flags));
      }
    }
  }

  ghost predicate DistinctArchs(archs: seq<Arch>) {
    forall i, j :: 0 <= i < j < |archs| ==> archs[i].value != archs[j].value
  }

  lemma {:induction false} MeaningOf(archs: seq<Arch>, list: seq<Filtered>, avoider: nat, arch: nat, number: nat)
    requires DistinctArchs(archs)
    ensures forall i :: 0 <= i < |archs| && archs[i].value == arch ==>
              Meaning(archs, list, avoider, arch, number) == SectionVerdict(Entries(archs[i].abis, list, avoider), number)
    ensures (forall i :: 0 <= i < |archs| ==> archs[i].value != arch) ==> Meaning(archs, list, avoider, arch, number) == Kill
    decreases |archs|
  {
    hide Entries, SectionVerdict;
    if archs != [] {
      MeaningOf(archs[1..], list, avoider, arch, number);
      assert forall i :: 1 <= i < |archs| ==> archs[i] == archs[1..][i - 1];
    }
  }

  /** The program answers, and rightly, for every syscall of an architecture. */
  ghost predicate Right(p: seq<Insn>, abis: seq<Abi>, requests: seq<Filtered>, avoider: nat, arch: nat) {
    forall number: nat :: RightAnswer(Exec(p, 0, 0, arch, number), abis, requests, avoider, number)
  }

  ghost predicate RightAnswer(answer: Option<Verdict>, abis: seq<Abi>, requests: seq<Filtered>, avoider: nat, number: nat) {
    answer.Some? && RightVerdict(abis, requests, avoider, number, answer.value)
  }

  /** The filter is correct: a syscall of an unlisted architecture is killed, and all those of a listed one get the
  right verdict, traced with all the flags anyone registered for them or else allowed, just when no two syscalls that
  share a number disagree. */
  lemma FilterCorrect(archs: seq<Arch>, requests: seq<Filtered>, avoider: nat, arch: nat)
    requires DistinctArchs(archs)
    ensures var p := Compiled(archs, Merged([], requests), avoider);
            && ((forall i :: 0 <= i < |archs| ==> archs[i].value != arch) ==>
                  forall number: nat :: Exec(p, 0, 0, arch, number) == Some(Kill))
            && (forall i :: 0 <= i < |archs| && archs[i].value == arch ==>
                  (Right(p, archs[i].abis, requests, avoider, arch) <==> Agreeing(archs[i].abis, requests, avoider)))
  {
    hide Entries, SectionVerdict, Merged, Compiled, RightVerdict, Agreeing, Exec, Meaning;
    var list := Merged([], requests);
    var p := Compiled(archs, list, avoider);
    forall number: nat | forall i :: 0 <= i < |archs| ==> archs[i].value != arch
      ensures Exec(p, 0, 0, arch, number) == Some(Kill)
    {
      CompiledMeaning(archs, list, avoider, 0, arch, number);
      MeaningOf(archs, list, avoider, arch, number);
    }
    forall i | 0 <= i < |archs| && archs[i].value == arch
      ensures Right(p, archs[i].abis, requests, avoider, arch) <==> Agreeing(archs[i].abis, requests, avoider)
    {
      forall number: nat
        ensures RightAnswer(Exec(p, 0, 0, arch, number), archs[i].abis, requests, avoider, number)
                <==> RightAt(archs[i].abis, requests, avoider, number)
      {
        CompiledMeaning(archs, list, avoider, 0, arch, number);
        MeaningOf(archs, list, avoider, arch, number);
      }
      SectionCorrect(archs[i].abis, requests, avoider);
    }
  }

  /** No disagreement is possible between ABIs whose numbers do not overlap, so with a single one in particular: on
  x86-64 the numbers of the x32 ABI start at 0x40000000. */
  lemma DisjointAgree(abis: seq<Abi>, requests: seq<Filtered>, avoider: nat)
    requires forall a, b :: a in abis && b in abis && a != b ==>
               a.offset + |a.table| <= b.offset || b.offset + |b.table| <= a.offset
    ensures Agreeing(abis, requests, avoider)
  {
    forall number: nat, f, g | Asks(abis, requests, avoider, number, f) && Asks(abis, requests, avoider, number, g)
      ensures f == g
    {
      var abi, s: nat :| abi in abis && Has(requests, s) && IsNumber(abi, s, avoider, number) && f == FlagsFor(requests, s);
      var abi', s': nat :| abi' in abis && Has(requests, s') && IsNumber(abi', s', avoider, number) && g == FlagsFor(requests, s');
      DetranslatedInjective(abi, s, if abi == abi' then s' else s, avoider);
    }
  }

  /** What the kernel is given: the whole program just when its length fits program->len. */
  lemma InstalledWhole(p: seq<Insn>)
    ensures p[..|p| % LEN_LIMIT] == p <==> |p| < LEN_LIMIT
  {
  }
}
