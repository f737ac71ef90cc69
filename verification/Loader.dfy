/** The loader that runs in the tracee (loader/loader.c), and the script PRoot compiles for it
(execve/exit.c, loader/script.h). */
module Loader {
  import opened Basics
  import opened Clearing
  import opened LoadMaps

  // ----- The load script -----

  datatype Statement =
    | Open(path: nat)
    | OpenNext(path: nat)
    | MmapFileAt(mapping: Mapping)
    | MmapAnonymousAt(mapping: Mapping)
    | MakeStackExec(start: nat)
    | Start(traced: bool, info: StartInfo)

  datatype StartInfo = StartInfo(stackPointer: nat, entryPoint: nat, atPhdr: nat, atPhent: nat, atPhnum: nat,
                                 atEntry: nat, atExecfn: nat)

  function ProtBits(p: Prot): nat {
    (if p.read then 1 else 0) + (if p.write then 2 else 0) + (if p.exec then 4 else 0)
  }

  function ProtOf(bits: nat): Prot {
    Prot(bits % 2 == 1, bits / 2 % 2 == 1, bits / 4 % 2 == 1)
  }

  /** LOAD_STATEMENT_SIZE, in words. */
  const OPEN_SIZE: nat := 2
  const MMAP_SIZE: nat := 6
  const STACK_EXEC_SIZE: nat := 2
  const START_SIZE: nat := 8

  function MmapFields(m: Mapping): seq<nat> {
    [m.addr, m.length, ProtBits(m.prot), m.offset, m.clearLength]
  }

  /** The words of a statement: its action, then its operands. */
  function Encode(s: Statement): seq<nat> {
    match s
    case OpenNext(path) => [0, path]
    case Open(path) => [1, path]
    case MmapFileAt(m) => [2] + MmapFields(m)
    case MmapAnonymousAt(m) => [3] + MmapFields(m)
    case MakeStackExec(start) => [4, start]
    case Start(traced, i) =>
      [if traced then 5 else 6, i.stackPointer, i.entryPoint, i.atPhdr, i.atPhent, i.atPhnum, i.atEntry, i.atExecfn]
  }

  function EncodeAll(ss: seq<Statement>): seq<nat> {
    if ss == [] then [] else Encode(ss[0]) + EncodeAll(ss[1..])
  }

  function MapStatement(m: Mapping): Statement {
    if m.anonymous then MmapAnonymousAt(m) else MmapFileAt(m)
  }

  function MapStatements(ms: seq<Mapping>): seq<Statement> {
    if ms == [] then [] else [MapStatement(ms[0])] + MapStatements(ms[1..])
  }

  /** An executable or its interpreter, as the compiler needs it. */
  datatype Object = Object(mappings: seq<Mapping>, entry: nat, needsExecutableStack: bool, userPath: string)

  datatype ElfFields = ElfFields(phent: nat, phnum: nat, phoff: nat)

  /** The statements PRoot generates. */
  function Compile(program: Object, interp: Option<Object>, path1: nat, path2: nat, stackPage: nat, traced: bool,
                   info: StartInfo): seq<Statement>
  {
    [Open(path1)] + MapStatements(program.mappings) +
    (match interp
     case None => []
     case Some(o) => [OpenNext(path2)] + MapStatements(o.mappings)) +
    (if NeedsExecutableStack(program, interp) then [MakeStackExec(stackPage)] else []) +
    [Start(traced, info)]
  }

  predicate NeedsExecutableStack(program: Object, interp: Option<Object>) {
    program.needsExecutableStack || (interp.Some? && interp.value.needsExecutableStack)
  }

  // ----- Generating it -----

  lemma EncodeCons(a: seq<Statement>, b: seq<Statement>)
    requires a != []
    ensures EncodeAll(a + b) == Encode(a[0]) + EncodeAll(a[1..] + b)
    ensures EncodeAll(a) == Encode(a[0]) + EncodeAll(a[1..])
  {
    hide Encode;
    assert (a + b)[1..] == a[1..] + b;
  }

  lemma {:induction false} EncodeConcat(a: seq<Statement>, b: seq<Statement>)
    ensures EncodeAll(a + b) == EncodeAll(a) + EncodeAll(b)
  {
    hide Encode;
    if a == [] {
      assert a + b == b && EncodeAll(a) == [];
    } else {
      EncodeCons(a, b);
      EncodeConcat(a[1..], b);
      hide EncodeAll;
      Associative(Encode(a[0]), EncodeAll(a[1..]), EncodeAll(b));
    }
  }

  lemma Associative<T>(a: seq<T>, b: seq<T>, c: seq<T>)
    ensures a + b + c == a + (b + c)
  {
  }

  lemma EncodeSingle(s: Statement)
    ensures EncodeAll([s]) == Encode(s)
  {
    assert [s][1..] == [];
  }

  lemma {:induction false} MapStatementsSnoc(ms: seq<Mapping>, m: Mapping)
    ensures MapStatements(ms + [m]) == MapStatements(ms) + [MapStatement(m)]
  {
    if ms == [] {
      assert ms + [m] == [m];
    } else {
      MapStatementsSnoc(ms[1..], m);
      assert (ms + [m])[1..] == ms[1..] + [m];
    }
  }

  lemma {:induction false} MapStatementsSize(ms: seq<Mapping>)
    ensures |EncodeAll(MapStatements(ms))| == MMAP_SIZE * |ms|
  {
    if ms != [] {
      MapStatementsSize(ms[1..]);
      assert MapStatements(ms)[1..] == MapStatements(ms[1..]);
    }
  }

  lemma NoMapping()
    ensures EncodeAll(MapStatements([])) == []
  {
  }

  lemma NextMapping(ms: seq<Mapping>, i: nat)
    requires i < |ms|
    ensures EncodeAll(MapStatements(ms[..i + 1])) == EncodeAll(MapStatements(ms[..i])) + Encode(MapStatement(ms[i]))
  {
    hide EncodeAll, MapStatements, Encode, MapStatement;
    assert ms[..i + 1] == ms[..i] + [ms[i]];
    MapStatementsSnoc(ms[..i], ms[i]);
    EncodeConcat(MapStatements(ms[..i]), [MapStatement(ms[i])]);
    EncodeSingle(MapStatement(ms[i]));
  }

  /** transcript_mappings(): what it appends at the cursor. */
  method TranscriptMappings(buffer: seq<nat>, mappings: seq<Mapping>) returns (extended: seq<nat>)
    ensures extended == buffer + EncodeAll(MapStatements(mappings))
  {
    hide EncodeAll, MapStatements, ProtBits;
    extended := buffer;
    var i := 0;
    assert mappings[..0] == [];
    NoMapping();
    while i < |mappings|
      invariant 0 <= i <= |mappings|
      invariant extended == buffer + EncodeAll(MapStatements(mappings[..i]))
    {
      var m := mappings[i];
      NextMapping(mappings, i);
      extended := extended + [if m.anonymous then 3 else 2, m.addr, m.length, ProtBits(m.prot), m.offset, m.clearLength];
      i := i + 1;
    }
    assert mappings[..i] == mappings;
  }

  /** The words of the buffer, and the strings that follow them. */
  datatype Transfer = Transfer(script: seq<nat>, strings: string, address: nat)

  function CString(s: string): string {
    s + ['\0']
  }

  /** The string that lies at an address of the tracee's stack once the buffer is transferred there. */
  ghost predicate StringAt(t: Transfer, address: nat, s: string) {
    var from := address - (t.address + WORD_SIZE * |t.script|);
    0 <= from && from + |CString(s)| <= |t.strings| && t.strings[from..from + |CString(s)|] == CString(s)
  }

  function Zeroes(n: nat): string {
    seq(n, i => '\0')
  }

  /** The size of the script, in words. */
  function ScriptWords(program: Object, interp: Option<Object>): nat {
    OPEN_SIZE + MMAP_SIZE * |program.mappings| +
    (if interp.None? then 0 else OPEN_SIZE + MMAP_SIZE * |interp.value.mappings|) +
    (if NeedsExecutableStack(program, interp) then STACK_EXEC_SIZE else 0) + START_SIZE
  }

  /** The statements part of transfer_load_script(): what a cursor fills the buffer with. */
  method TranscriptScript(program: Object, interp: Option<Object>, path1: nat, path2: nat, stackPage: nat, traced: bool,
                          info: StartInfo)
      returns (buffer: seq<nat>)
    ensures buffer == EncodeAll(Compile(program, interp, path1, path2, stackPage, traced, info))
    ensures |buffer| == ScriptWords(program, interp)
  {
    hide NeedsExecutableStack, EncodeAll, MapStatements, Compile;
    CompiledWords(program, interp, path1, path2, stackPage, traced, info);
    CompiledSize(program, interp, path1, path2, stackPage, traced, info);
    buffer := [1, path1];
    buffer := TranscriptMappings(buffer, program.mappings);
    if interp.Some? {
      buffer := buffer + [0, path2];
      buffer := TranscriptMappings(buffer, interp.value.mappings);
    }
    if NeedsExecutableStack(program, interp) {
      buffer := buffer + [4, stackPage];
    }
    buffer := buffer + [if traced then 5 else 6, info.stackPointer, info.entryPoint, info.atPhdr, info.atPhent,
                        info.atPhnum, info.atEntry, info.atExecfn];
  }

  /** transfer_load_script(), for a 64-bit tracee: `alignment` is 16 on 64-bit ARM, the size of a word elsewhere;
  rawPath is None when it is the user path itself.  It returns what is written below the stack pointer. */
  method TransferLoadScript(program: Object, interp: Option<Object>, rawPath: Option<string>, elf: ElfFields,
                            stackPointer: nat, page: nat, traced: bool, alignment: nat)
      returns (r: Transfer, info: StartInfo, path1: nat, path2: nat)
    requires program.mappings != [] && page > 0  // the source reads the first one
    requires alignment == WORD_SIZE || alignment == 2 * WORD_SIZE
    requires stackPointer >= WORD_SIZE * ScriptWords(program, interp) + 2 * WORD_SIZE + |CString(program.userPath)|
                             + (if interp.Some? then |CString(interp.value.userPath)| else 0)
                             + (if rawPath.Some? then |CString(rawPath.value)| else 0)
    ensures r.script == EncodeAll(Compile(program, interp, path1, path2, PageDown(stackPointer, page), traced, info))
    ensures r.address + WORD_SIZE * |r.script| + |r.strings| == stackPointer
    ensures r.address % alignment == 0
    ensures StringAt(r, path1, program.userPath)
    ensures interp.Some? ==> StringAt(r, path2, interp.value.userPath)
    ensures StringAt(r, info.atExecfn, if rawPath.Some? then rawPath.value else program.userPath)
    ensures info.stackPointer == stackPointer && info.atEntry == program.entry
    ensures info.entryPoint == (if interp.Some? then interp.value.entry else program.entry)
    ensures info.atPhent == elf.phent && info.atPhnum == elf.phnum
    ensures info.atPhdr == Wrap(elf.phoff + program.mappings[0].addr)
  {
    hide NeedsExecutableStack, EncodeAll, MapStatements, Compile, Wrap, StringAt, CString, ScriptWords;
    // The strings are put right below the stack pointer, padded to a boundary.
    var string1 := CString(program.userPath);
    var string2 := if interp.Some? then CString(interp.value.userPath) else "";
    var string3 := if rawPath.Some? then CString(rawPath.value) else "";
    var below := stackPointer - |string1| - |string2| - |string3|;
    var padding := below % alignment;
    path1 := below - padding;
    path2 := path1 + |string1|;
    var path3 := if rawPath.None? then path1 else path2 + |string2|;
    var scriptSize := ScriptWords(program, interp);
    var entryPoint := if interp.Some? then interp.value.entry else program.entry;
    info := StartInfo(stackPointer, entryPoint, Wrap(elf.phoff + program.mappings[0].addr), elf.phent, elf.phnum,
                      program.entry, path3);
    EvenSize(program, interp);
    Aligned(below, alignment, scriptSize);
    var address := path1 - WORD_SIZE * scriptSize;
    var buffer := TranscriptScript(program, interp, path1, path2, PageDown(stackPointer, page), traced, info);
    r := Transfer(buffer, string1 + string2 + string3 + Zeroes(padding), address);
    StringsPlaced(r, program.userPath, if interp.Some? then Some(interp.value.userPath) else None, rawPath, padding);
  }

  lemma TwiceIsEven(x: nat, half: nat)
    requires x == half + half
    ensures x % 2 == 0
  {
  }

  lemma EvenSize(program: Object, interp: Option<Object>)
    ensures ScriptWords(program, interp) % 2 == 0
  {
    hide NeedsExecutableStack;
    var n := |program.mappings|;
    var half := 1 + 3 * n + (if interp.None? then 0 else 1 + 3 * |interp.value.mappings|) +
                (if NeedsExecutableStack(program, interp) then 1 else 0) + 4;
    assert ScriptWords(program, interp) == half + half;
    hide ScriptWords;
    TwiceIsEven(ScriptWords(program, interp), half);
  }

  function CStringIfAny(s: Option<string>): string {
    if s.Some? then CString(s.value) else ""
  }

  lemma StringsPlaced(t: Transfer, s1: string, s2: Option<string>, s3: Option<string>, padding: nat)
    requires t.strings == CString(s1) + CStringIfAny(s2) + CStringIfAny(s3) + Zeroes(padding)
    ensures var path1 := t.address + WORD_SIZE * |t.script|;
            var path2 := path1 + |CString(s1)|;
            && StringAt(t, path1, s1)
            && (s2.Some? ==> StringAt(t, path2, s2.value))
            && (s3.Some? ==> StringAt(t, path2 + |CStringIfAny(s2)|, s3.value))
  {
    hide CString, StringAt;
    var path1 := t.address + WORD_SIZE * |t.script|;
    var string1, string2, string3, zeroes := CString(s1), CStringIfAny(s2), CStringIfAny(s3), Zeroes(padding);
    Joined(string1, string2, string3, zeroes);
    Placed(t, "", s1, string2 + string3 + zeroes, path1);
    if s2.Some? {
      Placed(t, string1, s2.value, string3 + zeroes, path1 + |string1|);
    }
    if s3.Some? {
      Placed(t, string1 + string2, s3.value, zeroes, path1 + |string1| + |string2|);
    }
  }

  lemma Joined(a: string, b: string, c: string, d: string)
    ensures a + b + c + d == "" + a + (b + c + d)
    ensures a + b + c + d == a + b + (c + d)
  {
  }

  lemma Placed(t: Transfer, before: string, s: string, after: string, address: nat)
    requires t.strings == before + CString(s) + after
    requires address == t.address + WORD_SIZE * |t.script| + |before|
    ensures StringAt(t, address, s)
  {
  }

  /** The compiled script, in the order the source fills the buffer. */
  lemma CompiledWords(program: Object, interp: Option<Object>, path1: nat, path2: nat, stackPage: nat, traced: bool,
                      info: StartInfo)
    ensures EncodeAll(Compile(program, interp, path1, path2, stackPage, traced, info)) ==
            [1, path1] + EncodeAll(MapStatements(program.mappings)) +
            (if interp.Some? then [0, path2] + EncodeAll(MapStatements(interp.value.mappings)) else []) +
            (if NeedsExecutableStack(program, interp) then [4, stackPage] else []) +
            Encode(Start(traced, info))
  {
    hide NeedsExecutableStack;
    var a, b := [Open(path1)], MapStatements(program.mappings);
    var c := match interp case None => [] case Some(o) => [OpenNext(path2)] + MapStatements(o.mappings);
    var d := if NeedsExecutableStack(program, interp) then [MakeStackExec(stackPage)] else [];
    EncodeConcat(a + b + c + d, [Start(traced, info)]);
    EncodeConcat(a + b + c, d);
    EncodeConcat(a + b, c);
    EncodeConcat(a, b);
    EncodeSingle(Open(path1));
    EncodeSingle(MakeStackExec(stackPage));
    EncodeSingle(Start(traced, info));
    if interp.Some? {
      EncodeConcat([OpenNext(path2)], MapStatements(interp.value.mappings));
      EncodeSingle(OpenNext(path2));
    }
  }

  lemma CompiledSize(program: Object, interp: Option<Object>, path1: nat, path2: nat, stackPage: nat, traced: bool,
                     info: StartInfo)
    ensures |EncodeAll(Compile(program, interp, path1, path2, stackPage, traced, info))| == ScriptWords(program, interp)
  {
    hide EncodeAll, NeedsExecutableStack;
    CompiledWords(program, interp, path1, path2, stackPage, traced, info);
    MapStatementsSize(program.mappings);
    if interp.Some? {
      MapStatementsSize(interp.value.mappings);
    }
  }

  /** Every statement is an even number of words: the script keeps the alignment of what is above it. */
  lemma Aligned(top: nat, alignment: nat, words: nat)
    requires alignment == WORD_SIZE || alignment == 2 * WORD_SIZE
    requires words % 2 == 0 && top >= top % alignment + WORD_SIZE * words
    ensures (top - top % alignment - WORD_SIZE * words) % alignment == 0
  {
  }

  // ----- Interpreting it -----

  /** What the loader asks of the kernel, in order.  A file descriptor is known by its rank among those opened. */
  datatype Action =
    | OpenFile(path: nat, fd: int)
    | CloseFile(fd: int)
    | MapFile(fd: int, mapping: Mapping)
    | MapAnonymous(mapping: Mapping)
    | StackExec(start: nat)
    | Branch(traced: bool, info: StartInfo, atBase: nat)

  /** The variables of _start(). */
  datatype LoaderState = LoaderState(fd: int, count: nat, atBase: nat, resetAtBase: bool)

  const Initially := LoaderState(-1, 0, 0, true)

  function After(st: LoaderState, s: Statement): LoaderState {
    match s
    case Open(_) => st.(fd := st.count, count := st.count + 1, resetAtBase := true)
    case OpenNext(_) => st.(fd := st.count, count := st.count + 1, resetAtBase := true)
    case MmapFileAt(m) => if st.resetAtBase then st.(atBase := m.addr, resetAtBase := false) else st
    case _ => st
  }

  function Actions(st: LoaderState, s: Statement): seq<Action> {
    match s
    case Open(path) => [OpenFile(path, st.count)]
    case OpenNext(path) => [CloseFile(st.fd), OpenFile(path, st.count)]
    case MmapFileAt(m) => [MapFile(st.fd, m)]
    case MmapAnonymousAt(m) => [MapAnonymous(m)]
    case MakeStackExec(start) => [StackExec(start)]
    case Start(traced, info) => [CloseFile(st.fd), Branch(traced, info, st.atBase)]
  }

  /** What a script means. */
  function Trace(st: LoaderState, ss: seq<Statement>): seq<Action>
    decreases ss
  {
    if ss == [] then [] else Actions(st, ss[0]) + Trace(After(st, ss[0]), ss[1..])
  }

  /** The loader checks what the kernel answers, but for mprotect(2). */
  predicate Passes(a: Action, accepts: Action -> bool) {
    a.StackExec? || a.Branch? || accepts(a)
  }

  /** The actions up to and including the first one the kernel refuses. */
  function UpToRefusal(actions: seq<Action>, accepts: Action -> bool): seq<Action> {
    if actions == [] then []
    else if !Passes(actions[0], accepts) then [actions[0]]
    else [actions[0]] + UpToRefusal(actions[1..], accepts)
  }

  predicate AllPass(actions: seq<Action>, accepts: Action -> bool) {
    forall a :: a in actions ==> Passes(a, accepts)
  }

  /** A script ends with its only start statement, and says of each mapping what it is. */
  ghost predicate IsProgram(ss: seq<Statement>) {
    && ss != [] && ss[|ss| - 1].Start?
    && (forall i :: 0 <= i < |ss| - 1 ==> !ss[i].Start?)
    && (forall i :: 0 <= i < |ss| ==> Faithful(ss[i]))
  }

  predicate Faithful(s: Statement) {
    (s.MmapFileAt? ==> !s.mapping.anonymous) && (s.MmapAnonymousAt? ==> s.mapping.anonymous)
  }

  lemma ProtRoundTrip(p: Prot)
    ensures ProtOf(ProtBits(p)) == p
  {
  }

  lemma {:induction false} UpToRefusalConcat(a: seq<Action>, b: seq<Action>, accepts: Action -> bool)
    ensures AllPass(a, accepts) ==> UpToRefusal(a + b, accepts) == a + UpToRefusal(b, accepts)
    ensures !AllPass(a, accepts) ==> UpToRefusal(a + b, accepts) == UpToRefusal(a, accepts)
  {
    if a == [] {
      assert a + b == b;
    } else {
      UpToRefusalConcat(a[1..], b, accepts);
      assert (a + b)[1..] == a[1..] + b;
      assert forall x :: x in a <==> x == a[0] || x in a[1..];
    }
  }

  lemma UpToRefusalAll(a: seq<Action>, accepts: Action -> bool)
    requires AllPass(a, accepts)
    ensures UpToRefusal(a, accepts) == a
  {
    UpToRefusalConcat(a, [], accepts);
    assert a + [] == a;
  }

  /** Decode the statement at the cursor: None when the script stops short, or for an unknown action. */
  function Decode(script: seq<nat>, cursor: nat): Option<Statement> {
    if cursor >= |script| then None
    else
      var left := |script| - cursor;
      var action := script[cursor];
      if action == 0 && left >= OPEN_SIZE then Some(OpenNext(script[cursor + 1]))
      else if action == 1 && left >= OPEN_SIZE then Some(Open(script[cursor + 1]))
      else if (action == 2 || action == 3) && left >= MMAP_SIZE then
        var m := Mapping(script[cursor + 1], script[cursor + 2], script[cursor + 5], ProtOf(script[cursor + 3]),
                         action == 3, script[cursor + 4]);
        Some(if action == 2 then MmapFileAt(m) else MmapAnonymousAt(m))
      else if action == 4 && left >= STACK_EXEC_SIZE then Some(MakeStackExec(script[cursor + 1]))
      else if (action == 5 || action == 6) && left >= START_SIZE then
        Some(Start(action == 5, StartInfo(script[cursor + 1], script[cursor + 2], script[cursor + 3], script[cursor + 4],
                                          script[cursor + 5], script[cursor + 6], script[cursor + 7])))
      else None
  }

  lemma WordAt(before: seq<nat>, words: seq<nat>, after: seq<nat>, k: nat)
    ensures k < |words| ==> (before + words + after)[|before| + k] == words[k]
  {
  }

  /** Decoding undoes encoding, whatever surrounds the statement. */
  lemma DecodeEncode(before: seq<nat>, s: Statement, after: seq<nat>)
    requires Faithful(s)
    ensures Decode(before + Encode(s) + after, |before|) == Some(s)
  {
    hide ProtOf, ProtBits;
    if s.MmapFileAt? || s.MmapAnonymousAt? {
      ProtRoundTrip(s.mapping.prot);
    }
    var words := Encode(s);
    WordAt(before, words, after, 0);
    WordAt(before, words, after, 1);
    WordAt(before, words, after, 2);
    WordAt(before, words, after, 3);
    WordAt(before, words, after, 4);
    WordAt(before, words, after, 5);
    WordAt(before, words, after, 6);
    WordAt(before, words, after, 7);
  }

  function Size(s: Statement): nat {
    match s
    case OpenNext(_) => OPEN_SIZE
    case Open(_) => OPEN_SIZE
    case MmapFileAt(_) => MMAP_SIZE
    case MmapAnonymousAt(_) => MMAP_SIZE
    case MakeStackExec(_) => STACK_EXEC_SIZE
    case Start(_, _) => START_SIZE
  }

  lemma DecodedSize(script: seq<nat>, cursor: nat)
    ensures var s := Decode(script, cursor); s.Some? ==> cursor + Size(s.value) <= |script|
  {
  }

  /** What the loader did of a script, and where it was in it when it branched or died. */
  datatype Outcome = Outcome(trace: seq<Action>, fatal: bool, cursor: nat)

  /** What it does of the words from the cursor on. */
  function Performed(script: seq<nat>, cursor: nat, st: LoaderState, accepts: Action -> bool): Outcome
    requires cursor <= |script|
    decreases |script| - cursor
  {
    match Decode(script, cursor)
    case None => Outcome([], true, cursor)
    case Some(s) =>
      var actions := Actions(st, s);
      DecodedSize(script, cursor);
      if !AllPass(actions, accepts) then Outcome(UpToRefusal(actions, accepts), true, cursor)
      else if s.Start? then Outcome(actions, false, cursor + Size(s))
      else Continued(actions, Performed(script, cursor + Size(s), After(st, s), accepts))
  }

  function Continued(trace: seq<Action>, o: Outcome): Outcome {
    o.(trace := trace + o.trace)
  }

  /** _start(). */
  method Interpret(script: seq<nat>, accepts: Action -> bool) returns (trace: seq<Action>, fatal: bool, cursor: nat)
    ensures Outcome(trace, fatal, cursor) == Performed(script, 0, Initially, accepts)
  {
    hide Decode, Performed;
    trace, fatal, cursor := [], false, 0;
    var fd, count, atBase, resetAtBase := -1, 0, 0, true;
    while true
      invariant cursor <= |script| && !fatal
      invariant Performed(script, 0, Initially, accepts) ==
                Continued(trace, Performed(script, cursor, LoaderState(fd, count, atBase, resetAtBase), accepts))
      decreases |script| - cursor
    {
      ghost var st := LoaderState(fd, count, atBase, resetAtBase);
      DecodedSize(script, cursor);
      var statement := Decode(script, cursor);
      if statement.None? {
        Dies(script, cursor, st, accepts, trace);
        return trace, true, cursor;
      }
      StatementDone(script, cursor, st, accepts, trace);
      var s := statement.value;
      if s.OpenNext? {
        trace := trace + [CloseFile(fd)];
        if !accepts(CloseFile(fd)) {
          return trace, true, cursor;
        }
      }
      match s {
      case OpenNext(path) =>
        trace := trace + [OpenFile(path, count)];
        if !accepts(OpenFile(path, count)) {
          return trace, true, cursor;
        }
        fd, count, resetAtBase := count, count + 1, true;
      case Open(path) =>
        trace := trace + [OpenFile(path, count)];
        if !accepts(OpenFile(path, count)) {
          return trace, true, cursor;
        }
        fd, count, resetAtBase := count, count + 1, true;
      case MmapFileAt(m) =>
        trace := trace + [MapFile(fd, m)];
        if !accepts(MapFile(fd, m)) {
          return trace, true, cursor;
        }
        if resetAtBase {
          atBase, resetAtBase := m.addr, false;
        }
      case MmapAnonymousAt(m) =>
        trace := trace + [MapAnonymous(m)];
        if !accepts(MapAnonymous(m)) {
          return trace, true, cursor;
        }
      case MakeStackExec(start) =>
        trace := trace + [StackExec(start)];
      case Start(traced, info) =>
        trace := trace + [CloseFile(fd)];
        if !accepts(CloseFile(fd)) {
          return trace, true, cursor;
        }
        trace := trace + [Branch(traced, info, atBase)];
        return trace, false, cursor + START_SIZE;
      }
      cursor := cursor + Size(s);
    }
  }

  lemma Dies(script: seq<nat>, cursor: nat, st: LoaderState, accepts: Action -> bool, trace: seq<Action>)
    requires cursor <= |script| && Decode(script, cursor).None?
    ensures Continued(trace, Performed(script, cursor, st, accepts)) == Outcome(trace, true, cursor)
  {
    hide Decode;
  }

  lemma OneOrTwo(actions: seq<Action>, accepts: Action -> bool, trace: seq<Action>)
    requires 1 <= |actions| <= 2
    ensures AllPass(actions, accepts) <==> Passes(actions[0], accepts) && (|actions| == 2 ==> Passes(actions[1], accepts))
    ensures trace + actions == if |actions| == 1 then trace + [actions[0]] else trace + [actions[0]] + [actions[1]]
    ensures !AllPass(actions, accepts) ==>
              trace + UpToRefusal(actions, accepts) ==
              if !Passes(actions[0], accepts) then trace + [actions[0]] else trace + [actions[0]] + [actions[1]]
  {
    hide Passes;
    if |actions| == 1 {
      assert actions == [actions[0]] && actions[1..] == [];
    } else {
      assert actions == [actions[0]] + [actions[1]] && actions[1..] == [actions[1]] && actions[1..][1..] == [];
      assert UpToRefusal(actions[1..], accepts) == [actions[1]];
    }
  }

  lemma ActionsPerformed(script: seq<nat>, cursor: nat, st: LoaderState, accepts: Action -> bool, trace: seq<Action>)
    requires cursor <= |script| && Decode(script, cursor).Some?
    ensures var s := Decode(script, cursor).value; var actions := Actions(st, s);
            && 0 < Size(s) <= |script| - cursor && 1 <= |actions| <= 2 && (s.Start? ==> |actions| == 2)
            && Continued(trace, Performed(script, cursor, st, accepts)) ==
               if !AllPass(actions, accepts) then Outcome(trace + UpToRefusal(actions, accepts), true, cursor)
               else if s.Start? then Outcome(trace + actions, false, cursor + Size(s))
               else Continued(trace + actions, Performed(script, cursor + Size(s), After(st, s), accepts))
  {
    hide Decode, Passes, AllPass, UpToRefusal, After;
    DecodedSize(script, cursor);
    var s := Decode(script, cursor).value;
    var actions := Actions(st, s);
    if AllPass(actions, accepts) && !s.Start? {
      var o := Performed(script, cursor + Size(s), After(st, s), accepts);
      assert trace + (actions + o.trace) == (trace + actions) + o.trace;
    }
  }

  /** What a statement comes down to: its actions, until one is refused. */
  lemma StatementDone(script: seq<nat>, cursor: nat, st: LoaderState, accepts: Action -> bool, trace: seq<Action>)
    requires cursor <= |script| && Decode(script, cursor).Some?
    ensures var s := Decode(script, cursor).value; var actions := Actions(st, s);
            && 0 < Size(s) <= |script| - cursor && 1 <= |actions| <= 2
            && Continued(trace, Performed(script, cursor, st, accepts)) ==
               if !Passes(actions[0], accepts) then Outcome(trace + [actions[0]], true, cursor)
               else if |actions| == 2 && !Passes(actions[1], accepts) then Outcome(trace + [actions[0]] + [actions[1]], true, cursor)
               else if s.Start? then Outcome(trace + [actions[0]] + [actions[1]], false, cursor + Size(s))
               else Continued(if |actions| == 1 then trace + [actions[0]] else trace + [actions[0]] + [actions[1]],
                              Performed(script, cursor + Size(s), After(st, s), accepts))
  {
    hide Decode, Passes, AllPass, UpToRefusal, After, Actions, Size, Performed, Continued;
    ActionsPerformed(script, cursor, st, accepts, trace);
    OneOrTwo(Actions(st, Decode(script, cursor).value), accepts, trace);
  }

  /** Of the words of a program, it does what the program means, and it consumes them all. */
  lemma PerformedIsTrace(ss: seq<Statement>, accepts: Action -> bool)
    requires IsProgram(ss)
    ensures var o, trace := Performed(EncodeAll(ss), 0, Initially, accepts), Trace(Initially, ss);
            && o.trace == UpToRefusal(trace, accepts)
            && (o.fatal <==> !AllPass(trace, accepts))
            && (!o.fatal ==> o.cursor == |EncodeAll(ss)|)
  {
    hide Performed, EncodeAll, Trace, UpToRefusal, AllPass;
    InterpretsInitially(ss, accepts);
    PerformedFrom(EncodeAll(ss), ss, 0, Initially, [], 0, accepts);
    var o := Performed(EncodeAll(ss), 0, Initially, accepts);
    assert [] + o.trace == o.trace;
  }

  lemma {:induction false} PerformedFrom(script: seq<nat>, ss: seq<Statement>, k: nat, state: LoaderState,
                                         trace: seq<Action>, cursor: nat, accepts: Action -> bool)
    requires k < |ss| && cursor <= |script| && Interpreted(script, ss, k, state, trace, cursor, accepts)
    ensures var o, all := Continued(trace, Performed(script, cursor, state, accepts)), Trace(Initially, ss);
            && o.trace == UpToRefusal(all, accepts)
            && (o.fatal <==> !AllPass(all, accepts))
            && (!o.fatal ==> o.cursor == |script|)
    decreases |ss| - k
  {
    hide Decode, EncodeAll, Trace, UpToRefusal, AllPass, Actions, After, Interpreted, Size;
    NextStatement(script, ss, k, state, trace, cursor, accepts);
    var actions := Actions(state, ss[k]);
    DecodedSize(script, cursor);
    if AllPass(actions, accepts) {
      UpToRefusalAll(actions, accepts);
      var cursor' := cursor + Size(ss[k]);
      if k == |ss| - 1 {
        Finished(script, ss, After(state, ss[k]), trace + actions, cursor', accepts);
      } else {
        PerformedFrom(script, ss, k + 1, After(state, ss[k]), trace + actions, cursor', accepts);
        var o := Performed(script, cursor', After(state, ss[k]), accepts);
        assert trace + (actions + o.trace) == (trace + actions) + o.trace;
      }
    }
  }

  /** The first k statements are done, all of them accepted. */
  ghost predicate Interpreted(script: seq<nat>, ss: seq<Statement>, k: nat, state: LoaderState, trace: seq<Action>,
                              cursor: nat, accepts: Action -> bool)
  {
    && k <= |ss| && script == EncodeAll(ss) && IsProgram(ss)
    && script == EncodeAll(ss[..k]) + EncodeAll(ss[k..]) && cursor == |EncodeAll(ss[..k])|
    && AllPass(trace, accepts)
    && trace + Trace(state, ss[k..]) == Trace(Initially, ss)
  }

  lemma InterpretsInitially(ss: seq<Statement>, accepts: Action -> bool)
    requires IsProgram(ss)
    ensures Interpreted(EncodeAll(ss), ss, 0, Initially, [], 0, accepts)
  {
    assert ss[..0] == [] && ss[0..] == ss;
    assert [] + EncodeAll(ss) == EncodeAll(ss);
    assert [] + Trace(Initially, ss) == Trace(Initially, ss);
  }

  /** Where the k-th statement lies in the script. */
  lemma NextWords(script: seq<nat>, ss: seq<Statement>, k: nat)
    requires k < |ss| && IsProgram(ss) && script == EncodeAll(ss[..k]) + EncodeAll(ss[k..])
    ensures Decode(script, |EncodeAll(ss[..k])|) == Some(ss[k])
    ensures script == EncodeAll(ss[..k + 1]) + EncodeAll(ss[k + 1..])
    ensures |EncodeAll(ss[..k + 1])| == |EncodeAll(ss[..k])| + Size(ss[k])
  {
    hide Decode, Encode, EncodeAll, Size;
    var s, rest := ss[k], ss[k + 1..];
    assert ss[k..] == [s] + rest && ss[..k + 1] == ss[..k] + [s];
    EncodeConcat([s], rest);
    EncodeConcat(ss[..k], [s]);
    EncodeSingle(s);
    EncodedSize(s);
    var before, after := EncodeAll(ss[..k]), EncodeAll(rest);
    assert script == before + Encode(s) + after;
    DecodeEncode(before, s, after);
  }

  /** What one turn of the loop of _start() does. */
  lemma NextStatement(script: seq<nat>, ss: seq<Statement>, k: nat, state: LoaderState, trace: seq<Action>,
                      cursor: nat, accepts: Action -> bool)
    requires k < |ss| && Interpreted(script, ss, k, state, trace, cursor, accepts)
    ensures Decode(script, cursor) == Some(ss[k])
    ensures var actions := Actions(state, ss[k]);
            var trace' := trace + UpToRefusal(actions, accepts);
            if AllPass(actions, accepts) then
              && Interpreted(script, ss, k + 1, After(state, ss[k]), trace', cursor + Size(ss[k]), accepts)
              && (ss[k].Start? <==> k == |ss| - 1)
            else
              trace' == UpToRefusal(Trace(Initially, ss), accepts) && !AllPass(Trace(Initially, ss), accepts)
  {
    hide Decode, Actions, After, UpToRefusal, AllPass, EncodeAll, Size, Trace, Faithful;
    NextWords(script, ss, k);
    var s, rest := ss[k], ss[k + 1..];
    assert ss[k..] == [s] + rest;
    TraceStep(state, s, rest);
    var actions, later := Actions(state, s), Trace(After(state, s), rest);
    assert trace + (actions + later) == (trace + actions) + later;
    NextActions(trace, actions, later, accepts);
  }

  /** The whole script is done. */
  lemma Finished(script: seq<nat>, ss: seq<Statement>, state: LoaderState, trace: seq<Action>, cursor: nat,
                 accepts: Action -> bool)
    requires Interpreted(script, ss, |ss|, state, trace, cursor, accepts)
    ensures AllPass(Trace(Initially, ss), accepts) && cursor == |script|
    ensures trace == UpToRefusal(Trace(Initially, ss), accepts)
  {
    hide AllPass, EncodeAll, Trace, UpToRefusal;
    assert ss[..|ss|] == ss && ss[|ss|..] == [];
    NothingLeft(state);
    assert trace + [] == trace;
    UpToRefusalAll(trace, accepts);
  }

  lemma NothingLeft(st: LoaderState)
    ensures EncodeAll([]) == [] && Trace(st, []) == []
  {
  }

  lemma EncodedSize(s: Statement)
    ensures |Encode(s)| == Size(s)
  {
  }

  lemma TraceStep(st: LoaderState, s: Statement, rest: seq<Statement>)
    ensures Trace(st, [s] + rest) == Actions(st, s) + Trace(After(st, s), rest)
  {
    assert ([s] + rest)[1..] == rest;
  }

  lemma NextActions(trace: seq<Action>, actions: seq<Action>, later: seq<Action>, accepts: Action -> bool)
    requires AllPass(trace, accepts)
    ensures AllPass(actions, accepts) ==> AllPass(trace + actions, accepts) && UpToRefusal(actions, accepts) == actions
    ensures var all := trace + (actions + later);
            !AllPass(actions, accepts) ==>
              trace + UpToRefusal(actions, accepts) == UpToRefusal(all, accepts) && !AllPass(all, accepts)
  {
    hide Passes, UpToRefusal;
    UpToRefusalConcat(trace, actions + later, accepts);
    UpToRefusalConcat(actions, later, accepts);
    if AllPass(actions, accepts) {
      UpToRefusalAll(actions, accepts);
    }
  }

  // ----- What a compiled script does -----

  function MapActions(fd: int, ms: seq<Mapping>): seq<Action> {
    if ms == [] then []
    else [if ms[0].anonymous then MapAnonymous(ms[0]) else MapFile(fd, ms[0])] + MapActions(fd, ms[1..])
  }

  /** The address of the first file mapping. */
  function FirstFile(ms: seq<Mapping>): Option<nat> {
    if ms == [] then None else if ms[0].anonymous then FirstFile(ms[1..]) else Some(ms[0].addr)
  }

  function AfterMaps(st: LoaderState, ms: seq<Mapping>): LoaderState {
    var first := FirstFile(ms);
    if st.resetAtBase && first.Some? then st.(atBase := first.value, resetAtBase := false) else st
  }

  lemma {:induction false} MapsTrace(st: LoaderState, ms: seq<Mapping>, rest: seq<Statement>)
    ensures Trace(st, MapStatements(ms) + rest) == MapActions(st.fd, ms) + Trace(AfterMaps(st, ms), rest)
    decreases ms
  {
    hide Trace;
    if ms == [] {
      assert MapStatements(ms) + rest == rest && [] + Trace(st, rest) == Trace(st, rest);
    } else {
      var s := MapStatement(ms[0]);
      assert MapStatements(ms) + rest == [s] + (MapStatements(ms[1..]) + rest);
      TraceStep(st, s, MapStatements(ms[1..]) + rest);
      MapsTrace(After(st, s), ms[1..], rest);
    }
  }

  predicate Opens(s: Statement) {
    s.Open? || s.OpenNext?
  }

  /** Does that action jump to the program, with that AT_BASE, as the last statement asks? */
  predicate EndsAt(trace: seq<Action>, s: Statement, atBase: nat) {
    trace != [] && s.Start? && trace[|trace| - 1] == Branch(s.traced, s.info, atBase)
  }

  /** AT_BASE in any script: the first file mapping after the last file opened, whatever was opened and mapped before. */
  lemma {:induction false} AtBaseOfLast(st: LoaderState, ss: seq<Statement>, i: nat, j: nat)
    requires i < j < |ss| - 1 && Opens(ss[i]) && ss[j].MmapFileAt? && ss[|ss| - 1].Start?
    requires forall k :: i < k < |ss| ==> !Opens(ss[k]) && (k < j ==> !ss[k].MmapFileAt?)
    ensures EndsAt(Trace(st, ss), ss[|ss| - 1], ss[j].mapping.addr)
    decreases ss
  {
    if i > 0 {
      AtBaseOfLast(After(st, ss[0]), ss[1..], i - 1, j - 1);
    } else {
      BaseTaken(After(st, ss[0]), ss[1..], j - 1);
    }
  }

  lemma {:induction false} BaseTaken(st: LoaderState, ss: seq<Statement>, j: nat)
    requires j < |ss| - 1 && st.resetAtBase && ss[j].MmapFileAt? && ss[|ss| - 1].Start?
    requires forall k :: 0 <= k < |ss| ==> !Opens(ss[k]) && (k < j ==> !ss[k].MmapFileAt?)
    ensures EndsAt(Trace(st, ss), ss[|ss| - 1], ss[j].mapping.addr)
    decreases ss
  {
    if j > 0 {
      BaseTaken(After(st, ss[0]), ss[1..], j - 1);
    } else {
      BaseKept(After(st, ss[0]), ss[1..]);
    }
  }

  lemma {:induction false} BaseKept(st: LoaderState, ss: seq<Statement>)
    requires ss != [] && !st.resetAtBase && ss[|ss| - 1].Start?
    requires forall k :: 0 <= k < |ss| ==> !Opens(ss[k])
    ensures EndsAt(Trace(st, ss), ss[|ss| - 1], st.atBase)
    decreases ss
  {
    if |ss| == 1 {
      assert Trace(After(st, ss[0]), ss[1..]) == [];
    } else {
      BaseKept(After(st, ss[0]), ss[1..]);
    }
  }

  /** AT_BASE: the first file mapping of the last object opened. */
  function BaseOf(program: Object, interp: Option<Object>): nat {
    var first := FirstFile(program.mappings);
    var second := if interp.Some? then FirstFile(interp.value.mappings) else None;
    if second.Some? then second.value else if first.Some? then first.value else 0
  }

  /** What a compiled script is meant to do. */
  function Intended(program: Object, interp: Option<Object>, path1: nat, path2: nat, stackPage: nat, traced: bool,
                    info: StartInfo): seq<Action>
  {
    [OpenFile(path1, 0)] + MapActions(0, program.mappings) +
    (if interp.Some? then [CloseFile(0), OpenFile(path2, 1)] + MapActions(1, interp.value.mappings) else []) +
    (if NeedsExecutableStack(program, interp) then [StackExec(stackPage)] else []) +
    [CloseFile(if interp.Some? then 1 else 0), Branch(traced, info, BaseOf(program, interp))]
  }

  /** What follows the mappings. */
  lemma LastTrace(st: LoaderState, stack: bool, stackPage: nat, traced: bool, info: StartInfo)
    ensures Trace(st, (if stack then [MakeStackExec(stackPage)] else []) + [Start(traced, info)]) ==
            (if stack then [StackExec(stackPage)] else []) + [CloseFile(st.fd), Branch(traced, info, st.atBase)]
  {
    var last := [Start(traced, info)];
    TraceStep(st, Start(traced, info), []);
    assert [Start(traced, info)] + [] == last;
    NothingLeft(After(st, Start(traced, info)));
    if stack {
      TraceStep(st, MakeStackExec(stackPage), last);
    } else {
      assert [] + last == last;
    }
  }

  /** The loader does exactly what the script was compiled for, in order. */
  lemma CompiledTrace(program: Object, interp: Option<Object>, path1: nat, path2: nat, stackPage: nat, traced: bool,
                      info: StartInfo)
    ensures Trace(Initially, Compile(program, interp, path1, path2, stackPage, traced, info)) ==
            Intended(program, interp, path1, path2, stackPage, traced, info)
  {
    hide NeedsExecutableStack, Trace, FirstFile, MapStatements, MapActions;
    if interp.Some? {
      InterpretedTrace(program, interp.value, path1, path2, stackPage, traced, info);
    } else {
      var last := (if NeedsExecutableStack(program, interp) then [MakeStackExec(stackPage)] else []) + [Start(traced, info)];
      var opened1 := After(Initially, Open(path1));
      LastTrace(AfterMaps(opened1, program.mappings), NeedsExecutableStack(program, interp), stackPage, traced, info);
      MapsTrace(opened1, program.mappings, last);
      TraceStep(Initially, Open(path1), MapStatements(program.mappings) + last);
      assert Compile(program, interp, path1, path2, stackPage, traced, info) ==
             [Open(path1)] + (MapStatements(program.mappings) + last);
    }
  }

  /** The same, for a program that has an interpreter. */
  lemma InterpretedTrace(program: Object, interp: Object, path1: nat, path2: nat, stackPage: nat, traced: bool,
                         info: StartInfo)
    ensures Trace(Initially, Compile(program, Some(interp), path1, path2, stackPage, traced, info)) ==
            Intended(program, Some(interp), path1, path2, stackPage, traced, info)
  {
    hide NeedsExecutableStack, Trace, FirstFile, MapStatements, MapActions;
    var stack := NeedsExecutableStack(program, Some(interp));
    var last := (if stack then [MakeStackExec(stackPage)] else []) + [Start(traced, info)];
    var opened1 := After(Initially, Open(path1));
    var mapped1 := AfterMaps(opened1, program.mappings);
    var opened2 := After(mapped1, OpenNext(path2));
    LastTrace(AfterMaps(opened2, interp.mappings), stack, stackPage, traced, info);
    MapsTrace(opened2, interp.mappings, last);
    TraceStep(mapped1, OpenNext(path2), MapStatements(interp.mappings) + last);
    var more := [OpenNext(path2)] + (MapStatements(interp.mappings) + last);
    MapsTrace(opened1, program.mappings, more);
    TraceStep(Initially, Open(path1), MapStatements(program.mappings) + more);
    assert Compile(program, Some(interp), path1, path2, stackPage, traced, info) ==
           [Open(path1)] + (MapStatements(program.mappings) + more);
  }

  lemma {:induction false} MapStatementsFaithful(ms: seq<Mapping>)
    ensures forall s :: s in MapStatements(ms) ==> !s.Start? && Faithful(s)
  {
    if ms != [] {
      MapStatementsFaithful(ms[1..]);
    }
  }

  /** So what is compiled is a script the loader understands. */
  lemma CompiledIsProgram(program: Object, interp: Option<Object>, path1: nat, path2: nat, stackPage: nat, traced: bool,
                          info: StartInfo)
    ensures IsProgram(Compile(program, interp, path1, path2, stackPage, traced, info))
  {
    hide NeedsExecutableStack, MapStatements;
    MapStatementsFaithful(program.mappings);
    if interp.Some? {
      MapStatementsFaithful(interp.value.mappings);
    }
    var ss := Compile(program, interp, path1, path2, stackPage, traced, info);
    var front := ss[..|ss| - 1];
    assert forall s :: s in front ==> !s.Start? && Faithful(s);
    assert forall i :: 0 <= i < |front| ==> ss[i] in front;
  }

  /** How files are used: each is opened under the next descriptor, mapped only while open, closed once, and no file
  is left open when the program starts. */
  ghost predicate Disciplined(actions: seq<Action>, open: set<int>, next: int)
    decreases |actions|
  {
    if actions == [] then true
    else
      var a, rest := actions[0], actions[1..];
      match a
      case OpenFile(_, fd) => fd == next && Disciplined(rest, open + {fd}, next + 1)
      case CloseFile(fd) => fd in open && Disciplined(rest, open - {fd}, next)
      case MapFile(fd, m) => fd in open && !m.anonymous && Disciplined(rest, open, next)
      case MapAnonymous(m) => m.anonymous && Disciplined(rest, open, next)
      case StackExec(_) => Disciplined(rest, open, next)
      case Branch(_, _, _) => open == {} && rest == []
  }

  lemma {:induction false} DisciplinedMaps(fd: int, ms: seq<Mapping>, rest: seq<Action>, open: set<int>, next: int)
    requires fd in open && Disciplined(rest, open, next)
    ensures Disciplined(MapActions(fd, ms) + rest, open, next)
  {
    if ms == [] {
      assert MapActions(fd, ms) + rest == rest;
    } else {
      DisciplinedMaps(fd, ms[1..], rest, open, next);
      var all := MapActions(fd, ms) + rest;
      assert all[1..] == MapActions(fd, ms[1..]) + rest;
    }
  }

  /** The end of a script, with its last file open. */
  lemma DisciplinedEnd(fd: int, stack: bool, stackPage: nat, traced: bool, info: StartInfo, base: nat, next: int)
    ensures Disciplined((if stack then [StackExec(stackPage)] else []) + [CloseFile(fd), Branch(traced, info, base)], {fd}, next)
  {
    var last := [Branch(traced, info, base)];
    assert last[1..] == [] && {fd} - {fd} == {};
    assert Disciplined(last, {}, next);
    var closing := [CloseFile(fd), Branch(traced, info, base)];
    assert closing[1..] == last;
    assert Disciplined(closing, {fd}, next);
    if stack {
      assert ([StackExec(stackPage)] + closing)[1..] == closing;
    } else {
      assert [] + closing == closing;
    }
  }

  /** Every file the loader opens is closed exactly once, before the program starts. */
  lemma FilesClosedOnce(program: Object, interp: Option<Object>, path1: nat, path2: nat, stackPage: nat, traced: bool,
                        info: StartInfo)
    ensures Disciplined(Trace(Initially, Compile(program, interp, path1, path2, stackPage, traced, info)), {}, 0)
  {
    hide NeedsExecutableStack, MapActions, BaseOf, Trace, Compile;
    CompiledTrace(program, interp, path1, path2, stackPage, traced, info);
    IntendedDisciplined(program, interp, path1, path2, stackPage, traced, info);
  }

  /** One file for the other. */
  lemma DisciplinedNext(path: nat, mapping: seq<Action>)
    requires Disciplined(mapping, {1}, 2)
    ensures Disciplined([CloseFile(0)] + ([OpenFile(path, 1)] + mapping), {0}, 1)
  {
    var opening := [OpenFile(path, 1)] + mapping;
    assert opening[1..] == mapping && {} + {1} == {1};
    assert Disciplined(opening, {}, 1);
    var closing := [CloseFile(0)] + opening;
    assert closing[1..] == opening && {0} - {0} == {};
  }

  lemma IntendedDisciplined(program: Object, interp: Option<Object>, path1: nat, path2: nat, stackPage: nat, traced: bool,
                            info: StartInfo)
    ensures Disciplined(Intended(program, interp, path1, path2, stackPage, traced, info), {}, 0)
  {
    hide NeedsExecutableStack, MapActions, BaseOf;
    var stack, base := NeedsExecutableStack(program, interp), BaseOf(program, interp);
    var all := Intended(program, interp, path1, path2, stackPage, traced, info);
    if interp.Some? {
      var last := (if stack then [StackExec(stackPage)] else []) + [CloseFile(1), Branch(traced, info, base)];
      DisciplinedEnd(1, stack, stackPage, traced, info, base, 2);
      var mapping := MapActions(1, interp.value.mappings) + last;
      DisciplinedMaps(1, interp.value.mappings, last, {1}, 2);
      var closing := [CloseFile(0)] + ([OpenFile(path2, 1)] + mapping);
      DisciplinedNext(path2, mapping);
      DisciplinedMaps(0, program.mappings, closing, {0}, 1);
      assert all == [OpenFile(path1, 0)] + (MapActions(0, program.mappings) + closing);
      assert all[1..] == MapActions(0, program.mappings) + closing && {} + {0} == {0};
    } else {
      var last := (if stack then [StackExec(stackPage)] else []) + [CloseFile(0), Branch(traced, info, base)];
      DisciplinedEnd(0, stack, stackPage, traced, info, base, 1);
      DisciplinedMaps(0, program.mappings, last, {0}, 1);
      assert all == [OpenFile(path1, 0)] + (MapActions(0, program.mappings) + last);
      assert all[1..] == MapActions(0, program.mappings) + last && {} + {0} == {0};
    }
  }

  // ----- The memory it leaves -----

  /** What the actions do to memory, the k-th file opened holding files[k]; None when the loader is killed. */
  ghost function Effect(mem: Memory, actions: seq<Action>, files: int -> seq<Byte>, page: nat): Option<Memory>
    requires page > 0
    decreases |actions|
  {
    if actions == [] then Some(mem)
    else
      var a, rest := actions[0], actions[1..];
      if a.MapFile? || a.MapAnonymous? then
        match LoadOne(mem, a.mapping, files(if a.MapFile? then a.fd else -1), page)
        case None => None
        case Some(mem') => Effect(mem', rest, files, page)
      else Effect(mem, rest, files, page)
  }

  lemma {:induction false} EffectMaps(mem: Memory, fd: int, ms: seq<Mapping>, rest: seq<Action>, files: int -> seq<Byte>,
                                      page: nat)
    requires page > 0
    ensures Effect(mem, MapActions(fd, ms) + rest, files, page) ==
            match LoadAll(mem, ms, files(fd), page)
            case None => None
            case Some(mem') => Effect(mem', rest, files, page)
    decreases |ms|
  {
    hide LoadOne;
    if ms == [] {
      assert MapActions(fd, ms) + rest == rest;
    } else {
      var all := MapActions(fd, ms) + rest;
      assert all[1..] == MapActions(fd, ms[1..]) + rest;
      AnonymousReadsNoFile(mem, ms[0], files(-1), files(fd), page);
      match LoadOne(mem, ms[0], files(fd), page)
      case None =>
      case Some(mem') => EffectMaps(mem', fd, ms[1..], rest, files, page);
    }
  }

  lemma AnonymousReadsNoFile(mem: Memory, m: Mapping, file: seq<Byte>, file': seq<Byte>, page: nat)
    requires page > 0
    ensures m.anonymous ==> LoadOne(mem, m, file, page) == LoadOne(mem, m, file', page)
  {
  }

  lemma EffectEnd(mem: Memory, fd: int, stack: bool, stackPage: nat, traced: bool, info: StartInfo, base: nat,
                  files: int -> seq<Byte>, page: nat)
    requires page > 0
    ensures Effect(mem, (if stack then [StackExec(stackPage)] else []) + [CloseFile(fd), Branch(traced, info, base)], files, page)
            == Some(mem)
  {
    var last := [Branch(traced, info, base)];
    assert last[1..] == [];
    assert Effect(mem, last, files, page) == Some(mem);
    var closing := [CloseFile(fd), Branch(traced, info, base)];
    assert closing[1..] == last;
    assert Effect(mem, closing, files, page) == Some(mem);
    if stack {
      assert ([StackExec(stackPage)] + closing)[1..] == closing;
    } else {
      assert [] + closing == closing;
    }
  }

  lemma EffectSkips(mem: Memory, a: Action, rest: seq<Action>, files: int -> seq<Byte>, page: nat)
    requires page > 0 && !a.MapFile? && !a.MapAnonymous?
    ensures Effect(mem, [a] + rest, files, page) == Effect(mem, rest, files, page)
  {
    assert ([a] + rest)[1..] == rest;
  }

  /** Interpreting a compiled script maps the program, then its interpreter, each from its own file. */
  lemma CompiledEffect(mem: Memory, program: Object, interp: Option<Object>, path1: nat, path2: nat, stackPage: nat,
                       traced: bool, info: StartInfo, files: int -> seq<Byte>, page: nat)
    requires page > 0
    ensures Effect(mem, Trace(Initially, Compile(program, interp, path1, path2, stackPage, traced, info)), files, page) ==
            match LoadAll(mem, program.mappings, files(0), page)
            case None => None
            case Some(mem') => if interp.None? then Some(mem') else LoadAll(mem', interp.value.mappings, files(1), page)
  {
    hide NeedsExecutableStack, MapActions, BaseOf, Trace, Compile, LoadAll, Effect;
    CompiledTrace(program, interp, path1, path2, stackPage, traced, info);
    var stack, base := NeedsExecutableStack(program, interp), BaseOf(program, interp);
    var all := Intended(program, interp, path1, path2, stackPage, traced, info);
    var end := (if stack then [StackExec(stackPage)] else []) +
               [CloseFile(if interp.Some? then 1 else 0), Branch(traced, info, base)];
    var r := LoadAll(mem, program.mappings, files(0), page);
    if interp.Some? {
      var mapping := MapActions(1, interp.value.mappings) + end;
      var next := [CloseFile(0)] + ([OpenFile(path2, 1)] + mapping);
      assert all == [OpenFile(path1, 0)] + (MapActions(0, program.mappings) + next);
      EffectSkips(mem, OpenFile(path1, 0), MapActions(0, program.mappings) + next, files, page);
      EffectMaps(mem, 0, program.mappings, next, files, page);
      if r.Some? {
        EffectSkips(r.value, CloseFile(0), [OpenFile(path2, 1)] + mapping, files, page);
        EffectSkips(r.value, OpenFile(path2, 1), mapping, files, page);
        EffectMaps(r.value, 1, interp.value.mappings, end, files, page);
        var r' := LoadAll(r.value, interp.value.mappings, files(1), page);
        if r'.Some? {
          EffectEnd(r'.value, 1, stack, stackPage, traced, info, base, files, page);
        }
      }
    } else {
      assert all == [OpenFile(path1, 0)] + (MapActions(0, program.mappings) + end);
      EffectSkips(mem, OpenFile(path1, 0), MapActions(0, program.mappings) + end, files, page);
      EffectMaps(mem, 0, program.mappings, end, files, page);
      if r.Some? {
        EffectEnd(r.value, 0, stack, stackPage, traced, info, base, files, page);
      }
    }
  }

  /** An object made of these program headers, at that base. */
  ghost predicate MadeOf(o: Object, hs: seq<ProgramHeader>, base: nat, page: nat)
    requires page > 0
  {
    && Ascending(hs, page) && (forall h :: h in hs ==> SegmentOk(h, base, page))
    && o.mappings == AllShifted(AllMappings(hs, page), base)
  }

  ghost predicate AllClearable(hs: seq<ProgramHeader>, file: seq<Byte>, page: nat)
    requires page > 0
  {
    forall h :: h in hs ==> Clearable(h, file, page)
  }

  ghost predicate AllLoaded(mem: Memory, hs: seq<ProgramHeader>, file: seq<Byte>, base: nat) {
    forall h :: h in hs ==> SegmentLoaded(mem, h, file, base)
  }

  lemma ObjectLoaded(mem: Memory, o: Object, hs: seq<ProgramHeader>, file: seq<Byte>, base: nat, page: nat)
    requires page > 0 && MadeOf(o, hs, base, page)
    ensures var r := LoadAll(mem, o.mappings, file, page);
            && (r.Some? <==> AllClearable(hs, file, page))
            && (r.Some? ==> AllLoaded(r.value, hs, file, base))
  {
    hide LoadAll, AllMappings, AllShifted, Clearable, SegmentLoaded, SegmentOk, Ascending;
    LoadCorrect(mem, hs, file, base, page);
  }

  /** The words that are transferred to the tracee, interpreted by a loader to which the kernel grants everything. */
  function Execution(program: Object, interp: Option<Object>, path1: nat, path2: nat, stackPage: nat, traced: bool,
                     info: StartInfo): Outcome
  {
    Performed(EncodeAll(Compile(program, interp, path1, path2, stackPage, traced, info)), 0, Initially, _ => true)
  }

  lemma ExecutionIsTrace(program: Object, interp: Option<Object>, path1: nat, path2: nat, stackPage: nat, traced: bool,
                         info: StartInfo)
    ensures var o, script := Execution(program, interp, path1, path2, stackPage, traced, info),
                             EncodeAll(Compile(program, interp, path1, path2, stackPage, traced, info));
            && !o.fatal && o.cursor == |script|
            && o.trace == Trace(Initially, Compile(program, interp, path1, path2, stackPage, traced, info))
  {
    hide Compile, Trace, EncodeAll, Performed, IsProgram;
    CompiledIsProgram(program, interp, path1, path2, stackPage, traced, info);
    var ss := Compile(program, interp, path1, path2, stackPage, traced, info);
    PerformedIsTrace(ss, _ => true);
    UpToRefusalAll(Trace(Initially, ss), _ => true);
  }

  /** From program headers to memory: whatever program and interpreter, each from its own file, at its own page-aligned
  base, and apart from each other, their headers turned into mappings, compiled to words, and those words interpreted,
  leave both images as the ABI says if and only if the end of each segment can be cleared.  The script is consumed
  whole. */
  lemma ExecutableLoaded(mem: Memory, program: Object, hs: seq<ProgramHeader>, base: nat, interp: Option<Object>,
                         interpHs: seq<ProgramHeader>, interpBase: nat, path1: nat, path2: nat, stackPage: nat, traced: bool,
                         info: StartInfo, files: int -> seq<Byte>, page: nat)
    requires page > 0 && MadeOf(program, hs, base, page)
    requires if interp.Some? then MadeOf(interp.value, interpHs, interpBase, page) && Apart(hs, base, interpHs, interpBase, page)
             else interpHs == []
    ensures var o := Execution(program, interp, path1, path2, stackPage, traced, info);
            && !o.fatal && o.cursor == |EncodeAll(Compile(program, interp, path1, path2, stackPage, traced, info))|
            && var r := Effect(mem, o.trace, files, page);
               && (r.Some? <==> AllClearable(hs, files(0), page) && AllClearable(interpHs, files(1), page))
               && (r.Some? ==> AllLoaded(r.value, hs, files(0), base) && AllLoaded(r.value, interpHs, files(1), interpBase))
  {
    hide Effect, Trace, Compile, LoadAll, AllClearable, AllLoaded, MadeOf, Apart, EncodeAll, Execution;
    ExecutionIsTrace(program, interp, path1, path2, stackPage, traced, info);
    CompiledEffect(mem, program, interp, path1, path2, stackPage, traced, info, files, page);
    ObjectLoaded(mem, program, hs, files(0), base, page);
    var first := LoadAll(mem, program.mappings, files(0), page);
    if interp.None? {
      NoSegments(files(1), page);
      if first.Some? {
        NoSegmentsLoaded(first.value, files(1), interpBase);
      }
    } else if first.Some? {
      ObjectLoaded(first.value, interp.value, interpHs, files(1), interpBase, page);
      if LoadAll(first.value, interp.value.mappings, files(1), page).Some? {
        StillLoaded(first.value, program, hs, base, interp.value, interpHs, interpBase, files(0), files(1), page);
      }
    }
  }

  /** What it opens, and where it ends: at the entry point, with the auxiliary vector told the address of the last object opened; and the stack was
  made executable if and only if the program or its interpreter asks for that. */
  lemma ExecutionEnds(program: Object, hs: seq<ProgramHeader>, base: nat, interp: Option<Object>, interpHs: seq<ProgramHeader>,
                      interpBase: nat, path1: nat, path2: nat, stackPage: nat, traced: bool, info: StartInfo, page: nat)
    requires page > 0 && MadeOf(program, hs, base, page)
    requires if interp.Some? then MadeOf(interp.value, interpHs, interpBase, page) else interpHs == []
    ensures var trace := Execution(program, interp, path1, path2, stackPage, traced, info).trace;
            && trace != [] && trace[|trace| - 1] == Branch(traced, info, if interpHs != [] then interpBase + PageDown(interpHs[0].vaddr, page)
                                                                         else if hs != [] then base + PageDown(hs[0].vaddr, page) else 0)
            && (forall a :: a in trace && a.StackExec? ==> a == StackExec(stackPage))
            && (StackExec(stackPage) in trace <==>
                  program.needsExecutableStack || (interp.Some? && interp.value.needsExecutableStack))
            && (forall path, fd :: OpenFile(path, fd) in trace <==>
                  (path == path1 && fd == 0) || (interp.Some? && path == path2 && fd == 1))
  {
    ExecutionIsTrace(program, interp, path1, path2, stackPage, traced, info);
    CompiledTrace(program, interp, path1, path2, stackPage, traced, info);
    IntendedEnds(program, interp, path1, path2, stackPage, traced, info);
    hide MapActions, Execution, Trace, Compile, Intended, MadeOf, FirstFile, PageDown;
    FirstOfObject(program, hs, base, page);
    if interp.Some? {
      FirstOfObject(interp.value, interpHs, interpBase, page);
    }
  }

  lemma IntendedEnds(program: Object, interp: Option<Object>, path1: nat, path2: nat, stackPage: nat, traced: bool, info: StartInfo)
    ensures var all := Intended(program, interp, path1, path2, stackPage, traced, info);
            && all != [] && all[|all| - 1] == Branch(traced, info, BaseOf(program, interp))
            && (forall a :: a in all && a.StackExec? ==> a == StackExec(stackPage))
            && (StackExec(stackPage) in all <==>
                  program.needsExecutableStack || (interp.Some? && interp.value.needsExecutableStack))
            && (forall path, fd :: OpenFile(path, fd) in all <==>
                  (path == path1 && fd == 0) || (interp.Some? && path == path2 && fd == 1))
  {
    hide MapActions, BaseOf;
    OnlyMaps(0, program.mappings);
    if interp.Some? {
      OnlyMaps(1, interp.value.mappings);
    }
    var all := Intended(program, interp, path1, path2, stackPage, traced, info);
    var stack := if NeedsExecutableStack(program, interp) then [StackExec(stackPage)] else [];
    assert NeedsExecutableStack(program, interp) ==> stack[0] in all;
    assert all[0] == OpenFile(path1, 0);
    if interp.Some? {
      var opening := [CloseFile(0), OpenFile(path2, 1)];
      assert opening[1] in all;
    }
  }

  lemma {:induction false} OnlyMaps(fd: int, ms: seq<Mapping>)
    ensures forall a :: a in MapActions(fd, ms) ==> a.MapFile? || a.MapAnonymous?
  {
    if ms != [] {
      OnlyMaps(fd, ms[1..]);
    }
  }

  /** The first mapping of an object is that of the file part of its first segment. */
  lemma FirstOfObject(o: Object, hs: seq<ProgramHeader>, base: nat, page: nat)
    requires page > 0 && MadeOf(o, hs, base, page)
    ensures FirstFile(o.mappings) == if hs == [] then None else Some(base + PageDown(hs[0].vaddr, page))
  {
    hide PageDown, MappingsOf, AllShifted, SegmentOk, Ascending;
    if hs == [] {
      ShiftedNone(base);
    } else {
      var first, rest := MappingsOf(hs[0], page), AllMappings(hs[1..], page);
      ShiftedConcat(first, rest, base);
      assert SegmentOk(hs[0], base, page);
      SegmentFileMapping(hs[0], base, page);
      assert o.mappings[0] == AllShifted(first, base)[0];
    }
  }

  lemma NoSegments(file: seq<Byte>, page: nat)
    requires page > 0
    ensures AllClearable([], file, page)
  {
  }

  lemma NoSegmentsLoaded(mem: Memory, file: seq<Byte>, base: nat)
    ensures AllLoaded(mem, [], file, base)
  {
  }

  lemma StillLoaded(mem: Memory, program: Object, hs: seq<ProgramHeader>, base: nat, interp: Object,
                    interpHs: seq<ProgramHeader>, interpBase: nat, file: seq<Byte>, interpFile: seq<Byte>, page: nat)
    requires page > 0 && MadeOf(program, hs, base, page) && MadeOf(interp, interpHs, interpBase, page)
    requires Apart(hs, base, interpHs, interpBase, page) && AllLoaded(mem, hs, file, base)
    requires LoadAll(mem, interp.mappings, interpFile, page).Some?
    ensures AllLoaded(LoadAll(mem, interp.mappings, interpFile, page).value, hs, file, base)
  {
    hide LoadAll, AllMappings, AllShifted, SegmentLoaded, SegmentOk, Ascending, Apart;
    StaysApart(mem, hs, base, LoadAll(mem, interp.mappings, interpFile, page).value, interpHs, interpBase, file, interpFile, page);
  }
}
