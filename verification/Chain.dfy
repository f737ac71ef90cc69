/** Registers of a tracee (tracee/reg.c) and the syscalls PRoot chains behind the one it requested (syscall/chain.c). */
module Chain {
  import opened Basics
  import opened Sysnums

  datatype Reg =
    | SysargNum | Sysarg1 | Sysarg2 | Sysarg3 | Sysarg4 | Sysarg5 | Sysarg6 | SysargResult | StackPointer | InstrPointer

  /** The slots of a register bank: two registers of the ABI may share one. */
  const NB_SLOTS: nat := 40

  type Bank = s: seq<Word> | |s| == NB_SLOTS witness seq(NB_SLOTS, i => 0)

  /** Where the registers are, the register the trap reads the syscall number from (SYSTRAP_NUM), and the size of the
  trap instruction. */
  datatype Arch = Arch(slot: Reg -> nat, trapNum: Reg, trapSize: nat)

  /** The result may share the slot of an argument, and nothing else is shared. */
  ghost predicate ValidArch(arch: Arch) {
    && (forall r :: arch.slot(r) < NB_SLOTS)
    && (forall r, r' :: r != r' && arch.slot(r) == arch.slot(r') ==>
          (IsArgument(r) && r' == SysargResult) || (IsArgument(r') && r == SysargResult))
    && (arch.trapNum == SysargNum || arch.trapNum == SysargResult)
    && (arch.trapNum == SysargResult ==> forall r :: r != SysargResult ==> arch.slot(r) != arch.slot(SysargResult))
    && 0 < arch.trapSize < WORD_LIMIT
  }

  predicate IsArgument(r: Reg) {
    r.Sysarg1? || r.Sysarg2? || r.Sysarg3? || r.Sysarg4? || r.Sysarg5? || r.Sysarg6?
  }

  /** The registers of 64-bit x86, as user_regs_struct orders them. */
  function X86Slot(r: Reg): nat {
    match r
    case SysargNum => 15 case Sysarg1 => 14 case Sysarg2 => 13 case Sysarg3 => 12 case Sysarg4 => 7 case Sysarg5 => 9
    case Sysarg6 => 8 case SysargResult => 10 case StackPointer => 19 case InstrPointer => 16
  }

  /** The registers of 64-bit ARM: the result takes the place of the first argument. */
  function ArmSlot(r: Reg): nat {
    match r
    case SysargNum => 8 case Sysarg1 => 0 case Sysarg2 => 1 case Sysarg3 => 2 case Sysarg4 => 3 case Sysarg5 => 4
    case Sysarg6 => 5 case SysargResult => 0 case StackPointer => 31 case InstrPointer => 32
  }

  lemma KnownArchs()
    ensures ValidArch(Arch(X86Slot, SysargResult, 2)) && ValidArch(Arch(ArmSlot, SysargNum, 4))
    ensures !GivenBack(Arch(ArmSlot, SysargNum, 4), Sysarg1) && forall r :: IsArgument(r) ==> GivenBack(Arch(X86Slot, SysargResult, 2), r)
  {
  }

  /** A syscall to trigger: its number is neutral. */
  datatype Call = Call(sysnum: nat, arg1: Word, arg2: Word, arg3: Word, arg4: Word, arg5: Word, arg6: Word)

  // ----- The specification -----

  /** The register banks and the chain of a tracee, and its registers as the kernel has them. */
  datatype State = State(current: Bank, original: Bank, modified: Bank, changed: bool, restore: bool,
                         chain: Option<seq<Call>>, forced: Option<Word>, kernel: Bank)

  ghost function Peek(arch: Arch, bank: Bank, r: Reg): Word
    requires ValidArch(arch)
  {
    bank[arch.slot(r)]
  }

  ghost function Poked(arch: Arch, t: State, r: Reg, value: Word): State
    requires ValidArch(arch)
  {
    if Peek(arch, t.current, r) == value then t
    else t.(current := t.current[arch.slot(r) := value], changed := true)
  }

  datatype Poke = Poke(reg: Reg, value: Word)

  ghost function AllPoked(arch: Arch, t: State, pokes: seq<Poke>): State
    requires ValidArch(arch)
    decreases |pokes|
  {
    if pokes == [] then t else AllPoked(arch, Poked(arch, t, pokes[0].reg, pokes[0].value), pokes[1..])
  }

  /** What the handlers of an enter stage do: pokes, an error if they report one, and whether there will be no exit stage. */
  datatype Entry = Entry(pokes: seq<Poke>, fails: Option<Word>, exitless: bool)

  /** What becomes of that at the end of the stage: a syscall that failed is replaced by none, with the error for result; and
  without an exit stage the stack pointer is given back now. */
  ghost function EndPokes(arch: Arch, avoider: Word, original: Bank, e: Entry): seq<Poke>
    requires ValidArch(arch)
  {
    (if e.fails.Some? then [Poke(SysargNum, avoider), Poke(SysargResult, e.fails.value)] else [])
    + (if e.exitless then [Poke(StackPointer, Peek(arch, original, StackPointer))] else [])
  }

  function Registered(t: State, calls: seq<Call>): State {
    if calls == [] then t else t.(chain := Some((if t.chain.Some? then t.chain.value else []) + calls))
  }

  ghost function ArgsPoked(arch: Arch, t: State, call: Call): State
    requires ValidArch(arch)
  {
    var t1 := Poked(arch, t, Sysarg1, call.arg1);
    var t2 := Poked(arch, t1, Sysarg2, call.arg2);
    var t3 := Poked(arch, t2, Sysarg3, call.arg3);
    var t4 := Poked(arch, t3, Sysarg4, call.arg4);
    var t5 := Poked(arch, t4, Sysarg5, call.arg5);
    Poked(arch, t5, Sysarg6, call.arg6)
  }

  /** The registers that trigger a call again at the trap just passed. */
  ghost function CallPoked(arch: Arch, t: State, call: Call, number: Word): State
    requires ValidArch(arch)
  {
    var t1 := Poked(arch, ArgsPoked(arch, t, call), arch.trapNum, number);
    Poked(arch, t1, InstrPointer, Wrap(Peek(arch, t1.current, InstrPointer) - arch.trapSize))
  }

  lemma RegisteredNext(t: State, calls: seq<Call>, call: Call)
    ensures Registered(Registered(t, calls), [call]) == Registered(t, calls + [call])
  {
    var before := if t.chain.Some? then t.chain.value else [];
    assert before + calls + [call] == before + (calls + [call]);
    if calls == [] {
      assert [] + [call] == [call];
    }
  }

  /** The architecture number of a neutral one, in a register. */
  function Number(abi: Abi, sysnum: nat, avoider: Word): Word {
    Wrap(Detranslated(abi, sysnum, avoider))
  }

  ghost function Chained(arch: Arch, abi: Abi, avoider: Word, t: State): State
    requires ValidArch(arch) && t.chain.Some?
  {
    var queue := t.chain.value;
    if queue == [] then
      (if t.forced.Some? then Poked(arch, t, SysargResult, t.forced.value) else t).(chain := None, forced := None)
    else
      CallPoked(arch, t.(restore := false, chain := Some(queue[1..])), queue[0], Number(abi, queue[0].sysnum, avoider))
  }

  /** The registers restored at the very end of a syscall. */
  const RESTORED: seq<Reg> := [SysargNum, Sysarg1, Sysarg2, Sysarg3, Sysarg4, Sysarg5, Sysarg6, StackPointer]

  ghost function Restored(arch: Arch, bank: Bank, original: Bank, rs: seq<Reg>): Bank
    requires ValidArch(arch)
    decreases |rs|
  {
    if rs == [] then bank
    else
      var s := arch.slot(rs[0]);
      Restored(arch, if s != arch.slot(SysargResult) then bank[s := original[s]] else bank, original, rs[1..])
  }

  ghost function Pushed(arch: Arch, t: State): State
    requires ValidArch(arch)
  {
    if !t.changed then t
    else
      var bank := if t.restore then Restored(arch, t.current, t.original, RESTORED) else t.current;
      t.(current := bank, kernel := bank)
  }

  // ----- The source's own form -----

  class Tracee {
    const arch: Arch
    const abi: Abi
    const avoider: Word
    var current: Bank
    var original: Bank
    var modified: Bank
    var regsWereChanged: bool
    var restoreOriginalRegs: bool
    var chain: Option<seq<Call>>
    var forceFinalResult: bool
    var finalResult: Word
    /** The registers themselves: what PTRACE_GETREGS reads and PTRACE_SETREGS writes. */
    var kernel: Bank

    function Value(): State
      reads this
    {
      State(current, original, modified, regsWereChanged, restoreOriginalRegs, chain,
            if forceFinalResult then Some(finalResult) else None, kernel)
    }

    /** poke_reg(). */
    method PokeReg(r: Reg, value: Word)
      requires ValidArch(arch)
      modifies this
      ensures Value() == Poked(arch, old(Value()), r, value)
    {
      if current[arch.slot(r)] == value {
        return;
      }
      current := current[arch.slot(r) := value];
      regsWereChanged := true;
    }

    /** save_current_regs(tracee, ORIGINAL). */
    method SaveOriginalRegs()
      modifies this
      ensures Value() == old(Value()).(changed := false, original := old(current))
    {
      regsWereChanged := false;
      original := current;
    }

    /** fetch_regs(). */
    method FetchRegs()
      modifies this
      ensures Value() == old(Value()).(current := old(kernel))
    {
      current := kernel;
    }

    /** push_specific_regs(). */
    method PushRegs()
      requires ValidArch(arch)
      modifies this
      ensures Value() == Pushed(arch, old(Value()))
    {
      hide Restored;
      if regsWereChanged {
        if restoreOriginalRegs {
          RestoreRegs();
        }
        kernel := current;
      }
    }

    /** The registers push_specific_regs() restores. */
    method RestoreRegs()
      requires ValidArch(arch)
      modifies this`current
      ensures current == Restored(arch, old(current), original, RESTORED)
    {
      hide Restored;
      var i := 0;
      RestoredNone(arch, current, original, RESTORED);
      while i < |RESTORED|
        invariant 0 <= i <= |RESTORED|
        invariant Restored(arch, old(current), original, RESTORED) == Restored(arch, current, original, RESTORED[i..])
      {
        RestoredNext(arch, current, original, RESTORED, i);
        var s := arch.slot(RESTORED[i]);
        if s != arch.slot(SysargResult) {
          current := current[s := original[s]];
        }
        i := i + 1;
      }
      RestoredNone(arch, current, original, RESTORED);
    }

    /** The enter stage of translate_syscall(). */
    method SysenterStage(e: Entry)
      requires ValidArch(arch)
      modifies this
      ensures Value() == Entered(arch, avoider, old(Value()), e)
    {
      hide Pushed, AllPoked, EndPokes;
      FetchRegs();
      restoreOriginalRegs := false;
      if chain.None? {
        SaveOriginalRegs();
        PokeRegs(e.pokes);
        modified := current;
        AllPokedOriginal(arch, old(Value()).(current := old(kernel), original := old(kernel), changed := false, restore := false), e.pokes);
        EndEnter(e);
      }
      PushRegs();
    }

    /** Its end, for a syscall that the tracee requested. */
    method EndEnter(e: Entry)
      requires ValidArch(arch)
      modifies this
      ensures Value() == AllPoked(arch, old(Value()), EndPokes(arch, avoider, old(original), e))
    {
      hide AllPoked, EndPokes;
      EndsPoked(arch, avoider, Value(), e);
      if e.fails.Some? {
        var number := DetranslateSysnum(abi, VOID, avoider);
        PokeReg(SysargNum, number);
        PokeReg(SysargResult, e.fails.value);
      }
      if e.exitless {
        PokeReg(StackPointer, original[arch.slot(StackPointer)]);
      }
    }

    /** The exit stage of translate_syscall(). */
    method SysexitStage(h: Handler)
      requires ValidArch(arch)
      modifies this
      ensures Value() == Exited(arch, abi, avoider, old(Value()), h)
    {
      hide Pushed, AllPoked, Chained;
      FetchRegs();
      restoreOriginalRegs := true;
      PokeRegs(h.pokes);
      RegisterAll(h.calls);
      if h.force.Some? {
        ForceChainFinalResult(h.force.value);
      }
      if chain.Some? {
        ChainNextSyscall();
      }
      PushRegs();
    }

    /** Handlers poke registers one after the other. */
    method PokeRegs(pokes: seq<Poke>)
      requires ValidArch(arch)
      modifies this
      ensures Value() == AllPoked(arch, old(Value()), pokes)
    {
      hide Poked, ValidArch;
      var i := 0;
      while i < |pokes|
        invariant 0 <= i <= |pokes|
        invariant AllPoked(arch, Value(), pokes[i..]) == AllPoked(arch, old(Value()), pokes)
      {
        assert pokes[i..][0] == pokes[i] && pokes[i..][1..] == pokes[i + 1..];
        PokeReg(pokes[i].reg, pokes[i].value);
        i := i + 1;
      }
    }

    method RegisterAll(calls: seq<Call>)
      modifies this
      ensures Value() == Registered(old(Value()), calls)
    {
      var i := 0;
      assert calls[..0] == [];
      while i < |calls|
        invariant 0 <= i <= |calls|
        invariant Value() == Registered(old(Value()), calls[..i])
      {
        assert calls[..i + 1] == calls[..i] + [calls[i]];
        RegisteredNext(old(Value()), calls[..i], calls[i]);
        hide Registered;
        RegisterChainedSyscall(calls[i]);
        i := i + 1;
      }
      assert calls[..i] == calls;
    }

    /** register_chained_syscall(). */
    method RegisterChainedSyscall(call: Call)
      modifies this
      ensures Value() == Registered(old(Value()), [call])
    {
      if chain.None? {
        chain := Some([]);
      }
      chain := Some(chain.value + [call]);
    }

    /** force_chain_final_result(). */
    method ForceChainFinalResult(result: Word)
      modifies this
      ensures Value() == old(Value()).(forced := Some(result))
    {
      forceFinalResult, finalResult := true, result;
    }

    /** restart_original_syscall(). */
    method RestartOriginalSyscall()
      requires ValidArch(arch)
      modifies this
      ensures Value() == Registered(old(Value()), [OriginalCall(arch, abi, original)])
    {
      var sysnum := TranslateSysnum(abi, original[arch.slot(SysargNum)]);
      RegisterChainedSyscall(Call(sysnum, original[arch.slot(Sysarg1)], original[arch.slot(Sysarg2)],
                                  original[arch.slot(Sysarg3)], original[arch.slot(Sysarg4)],
                                  original[arch.slot(Sysarg5)], original[arch.slot(Sysarg6)]));
    }

    /** chain_next_syscall(). */
    method ChainNextSyscall()
      requires ValidArch(arch) && chain.Some?
      modifies this
      ensures Value() == Chained(arch, abi, avoider, old(Value()))
    {
      // The chain is over.
      if chain.value == [] {
        chain := None;
        if forceFinalResult {
          PokeReg(SysargResult, finalResult);
        }
        forceFinalResult, finalResult := false, 0;
        return;
      }
      hide CallPoked;
      // That waits for the end of the chain.
      restoreOriginalRegs := false;
      // Oldest request first.
      var call := chain.value[0];
      chain := Some(chain.value[1..]);
      PokeCall(call);
    }

    /** Its second half: the registers of the forged syscall. */
    method PokeCall(call: Call)
      requires ValidArch(arch)
      modifies this
      ensures Value() == CallPoked(arch, old(Value()), call, Number(abi, call.sysnum, avoider))
    {
      hide Poked, ArgsPoked;
      PokeArgs(call);
      var number := DetranslateSysnum(abi, call.sysnum, avoider);
      PokeReg(arch.trapNum, Wrap(number));
      // The trap instruction is executed again.
      var instrPointer := current[arch.slot(InstrPointer)];
      PokeReg(InstrPointer, Wrap(instrPointer - arch.trapSize));
    }

    method PokeArgs(call: Call)
      requires ValidArch(arch)
      modifies this
      ensures Value() == ArgsPoked(arch, old(Value()), call)
    {
      hide Poked;
      PokeReg(Sysarg1, call.arg1);
      PokeReg(Sysarg2, call.arg2);
      PokeReg(Sysarg3, call.arg3);
      PokeReg(Sysarg4, call.arg4);
      PokeReg(Sysarg5, call.arg5);
      PokeReg(Sysarg6, call.arg6);
    }
  }

  /** The request itself, as a chained call. */
  ghost function OriginalCall(arch: Arch, abi: Abi, original: Bank): Call
    requires ValidArch(arch)
  {
    Call(Translated(abi, Peek(arch, original, SysargNum)), Peek(arch, original, Sysarg1), Peek(arch, original, Sysarg2),
         Peek(arch, original, Sysarg3), Peek(arch, original, Sysarg4), Peek(arch, original, Sysarg5),
         Peek(arch, original, Sysarg6))
  }

  /** A poke changes its own slot only, and remembers when it changes it. */
  lemma PeekPoked(arch: Arch, t: State, r: Reg, value: Word, r': Reg)
    requires ValidArch(arch)
    ensures Peek(arch, Poked(arch, t, r, value).current, r') ==
            if arch.slot(r) == arch.slot(r') then value else Peek(arch, t.current, r')
    ensures var t' := Poked(arch, t, r, value);
            t' == t.(current := t'.current, changed := t.changed || t'.current != t.current)
  {
  }

  // ----- The kernel -----

  /** What a trap asks for: the architecture number of a syscall, and its arguments. */
  datatype Trigger = Trigger(number: Word, arg1: Word, arg2: Word, arg3: Word, arg4: Word, arg5: Word, arg6: Word)

  ghost function TriggerIn(arch: Arch, bank: Bank): Trigger
    requires ValidArch(arch)
  {
    Trigger(Peek(arch, bank, arch.trapNum), Peek(arch, bank, Sysarg1), Peek(arch, bank, Sysarg2), Peek(arch, bank, Sysarg3),
            Peek(arch, bank, Sysarg4), Peek(arch, bank, Sysarg5), Peek(arch, bank, Sysarg6))
  }

  function TriggerOf(abi: Abi, avoider: Word, call: Call): Trigger {
    Trigger(Number(abi, call.sysnum, avoider), call.arg1, call.arg2, call.arg3, call.arg4, call.arg5, call.arg6)
  }

  /** The registers at the enter stop: past the trap, the number where it is reported. */
  ghost function Trapped(arch: Arch, bank: Bank): Bank
    requires ValidArch(arch)
  {
    bank[arch.slot(SysargNum) := Peek(arch, bank, arch.trapNum)]
        [arch.slot(InstrPointer) := Wrap(Peek(arch, bank, InstrPointer) + arch.trapSize)]
  }

  /** An enter stage: the handlers of a syscall the tracee requested poke registers, those of a chained one do not. */
  ghost function Entered(arch: Arch, avoider: Word, t: State, e: Entry): State
    requires ValidArch(arch)
  {
    var t1 := t.(current := t.kernel, restore := false);
    if t.chain.Some? then Pushed(arch, t1)
    else
      var t2 := AllPoked(arch, t1.(original := t.kernel, changed := false), e.pokes);
      Pushed(arch, AllPoked(arch, t2.(modified := t2.current), EndPokes(arch, avoider, t.kernel, e)))
  }

  /** A syscall the tracee requested, up to its exit stop. */
  ghost function Requested(arch: Arch, avoider: Word, t: State, e: Entry, result: Word): State
    requires ValidArch(arch)
  {
    Answered(arch, Entered(arch, avoider, t, e), result)
  }

  ghost function Answered(arch: Arch, t: State, result: Word): State
    requires ValidArch(arch)
  {
    t.(kernel := t.kernel[arch.slot(SysargResult) := result])
  }

  /** What the handlers of an exit stage do. */
  datatype Handler = Handler(pokes: seq<Poke>, calls: seq<Call>, force: Option<Word>)

  /** The state once the handlers of an exit stage are done. */
  ghost function HandledExit(arch: Arch, t: State, h: Handler): State
    requires ValidArch(arch)
  {
    var t1 := AllPoked(arch, t.(current := t.kernel, restore := true), h.pokes);
    var t2 := Registered(t1, h.calls);
    if h.force.Some? then t2.(forced := h.force) else t2
  }

  /** An exit stage. */
  ghost function Exited(arch: Arch, abi: Abi, avoider: Word, t: State, h: Handler): State
    requires ValidArch(arch)
  {
    var t1 := HandledExit(arch, t, h);
    Pushed(arch, if t1.chain.Some? then Chained(arch, abi, avoider, t1) else t1)
  }

  /** A chained syscall up to its exit stop: the tracee traps again, and nothing is translated at the enter stop. */
  ghost function Retrapped(arch: Arch, avoider: Word, t: State, result: Word): State
    requires ValidArch(arch)
  {
    Answered(arch, Entered(arch, avoider, t.(kernel := Trapped(arch, t.kernel)), Entry([], None, false)), result)
  }

  /** The tracee, and the chained syscalls it has triggered. */
  datatype World = World(t: State, log: seq<Trigger>)

  datatype Round = Round(result: Word, handler: Handler)

  ghost function AfterRound(arch: Arch, abi: Abi, avoider: Word, w: World, round: Round): World
    requires ValidArch(arch)
  {
    World(Exited(arch, abi, avoider, Retrapped(arch, avoider, w.t, round.result), round.handler), w.log + [TriggerIn(arch, w.t.kernel)])
  }

  ghost predicate KeepsIp(pokes: seq<Poke>) {
    forall i :: 0 <= i < |pokes| ==> pokes[i].reg != InstrPointer
  }

  // ----- What each stage keeps -----

  lemma {:induction false} AllPokedKeeps(arch: Arch, t: State, pokes: seq<Poke>)
    requires ValidArch(arch)
    ensures var t' := AllPoked(arch, t, pokes);
            && t' == t.(current := t'.current, changed := t'.changed)
            && (t.changed ==> t'.changed)
            && (!t'.changed ==> t'.current == t.current)
            && (KeepsIp(pokes) ==> Peek(arch, t'.current, InstrPointer) == Peek(arch, t.current, InstrPointer))
    decreases |pokes|
  {
    if pokes != [] {
      PeekPoked(arch, t, pokes[0].reg, pokes[0].value, InstrPointer);
      var t1 := Poked(arch, t, pokes[0].reg, pokes[0].value);
      hide Poked;
      AllPokedKeeps(arch, t1, pokes[1..]);
      assert KeepsIp(pokes) ==> KeepsIp(pokes[1..]);
    }
  }

  lemma AllPokedOriginal(arch: Arch, t: State, pokes: seq<Poke>)
    requires ValidArch(arch)
    ensures AllPoked(arch, t, pokes).original == t.original
  {
    AllPokedKeeps(arch, t, pokes);
    hide AllPoked;
  }

  /** One after the other. */
  lemma EndsPoked(arch: Arch, avoider: Word, t: State, e: Entry)
    requires ValidArch(arch)
    ensures var t1 := if e.fails.Some? then Poked(arch, Poked(arch, t, SysargNum, avoider), SysargResult, e.fails.value) else t;
            AllPoked(arch, t, EndPokes(arch, avoider, t.original, e)) ==
            if e.exitless then Poked(arch, t1, StackPointer, Peek(arch, t.original, StackPointer)) else t1
  {
    hide Poked, ValidArch, Peek, AllPoked;
    var last := if e.exitless then [Poke(StackPointer, Peek(arch, t.original, StackPointer))] else [];
    var t1 := if e.fails.Some? then Poked(arch, Poked(arch, t, SysargNum, avoider), SysargResult, e.fails.value) else t;
    if e.fails.Some? {
      var number, result := Poke(SysargNum, avoider), Poke(SysargResult, e.fails.value);
      assert [number, result] + last == [number] + ([result] + last);
      FirstPoked(arch, t, number, [result] + last);
      FirstPoked(arch, Poked(arch, t, SysargNum, avoider), result, last);
    } else {
      assert [] + last == last;
    }
    NonePoked(arch, if e.exitless then Poked(arch, t1, StackPointer, Peek(arch, t.original, StackPointer)) else t1);
    if e.exitless {
      assert [last[0]] + [] == last;
      FirstPoked(arch, t1, last[0], []);
    }
  }

  lemma FirstPoked(arch: Arch, t: State, poke: Poke, pokes: seq<Poke>)
    requires ValidArch(arch)
    ensures AllPoked(arch, t, [poke] + pokes) == AllPoked(arch, Poked(arch, t, poke.reg, poke.value), pokes)
  {
    assert ([poke] + pokes)[1..] == pokes;
  }

  lemma NonePoked(arch: Arch, t: State)
    requires ValidArch(arch)
    ensures AllPoked(arch, t, []) == t
  {
  }

  lemma PeekArgsPoked(arch: Arch, t: State, call: Call, r: Reg)
    requires ValidArch(arch)
    ensures var t' := ArgsPoked(arch, t, call);
            && t' == t.(current := t'.current, changed := t'.changed)
            && (t.changed ==> t'.changed)
            && Peek(arch, t'.current, r) ==
               (if arch.slot(r) == arch.slot(Sysarg6) then call.arg6
                else if arch.slot(r) == arch.slot(Sysarg5) then call.arg5
                else if arch.slot(r) == arch.slot(Sysarg4) then call.arg4
                else if arch.slot(r) == arch.slot(Sysarg3) then call.arg3
                else if arch.slot(r) == arch.slot(Sysarg2) then call.arg2
                else if arch.slot(r) == arch.slot(Sysarg1) then call.arg1
                else Peek(arch, t.current, r))
  {
    var t1 := Poked(arch, t, Sysarg1, call.arg1);
    var t2 := Poked(arch, t1, Sysarg2, call.arg2);
    var t3 := Poked(arch, t2, Sysarg3, call.arg3);
    var t4 := Poked(arch, t3, Sysarg4, call.arg4);
    var t5 := Poked(arch, t4, Sysarg5, call.arg5);
    PeekPoked(arch, t, Sysarg1, call.arg1, r);
    PeekPoked(arch, t1, Sysarg2, call.arg2, r);
    PeekPoked(arch, t2, Sysarg3, call.arg3, r);
    PeekPoked(arch, t3, Sysarg4, call.arg4, r);
    PeekPoked(arch, t4, Sysarg5, call.arg5, r);
    PeekPoked(arch, t5, Sysarg6, call.arg6, r);
    hide Poked, Peek, ValidArch;
  }

  lemma ArgsPokedKeeps(arch: Arch, t: State, call: Call)
    requires ValidArch(arch)
    ensures var t' := ArgsPoked(arch, t, call);
            && t' == t.(current := t'.current, changed := t'.changed)
            && (t.changed ==> t'.changed)
            && Peek(arch, t'.current, InstrPointer) == Peek(arch, t.current, InstrPointer)
            && ArgsAre(arch, t'.current, call)
  {
    PeekArgsPoked(arch, t, call, InstrPointer);
    PeekArgsPoked(arch, t, call, Sysarg1);
    PeekArgsPoked(arch, t, call, Sysarg2);
    PeekArgsPoked(arch, t, call, Sysarg3);
    PeekArgsPoked(arch, t, call, Sysarg4);
    PeekArgsPoked(arch, t, call, Sysarg5);
    PeekArgsPoked(arch, t, call, Sysarg6);
    Slots(arch);
    hide ArgsPoked, Peek, ValidArch;
  }

  lemma ArgumentSlots(arch: Arch)
    requires ValidArch(arch)
    ensures var s := arch.slot;
            && s(Sysarg1) != s(Sysarg2) && s(Sysarg1) != s(Sysarg3) && s(Sysarg1) != s(Sysarg4) && s(Sysarg1) != s(Sysarg5)
            && s(Sysarg1) != s(Sysarg6) && s(Sysarg2) != s(Sysarg3) && s(Sysarg2) != s(Sysarg4) && s(Sysarg2) != s(Sysarg5)
            && s(Sysarg2) != s(Sysarg6) && s(Sysarg3) != s(Sysarg4) && s(Sysarg3) != s(Sysarg5) && s(Sysarg3) != s(Sysarg6)
            && s(Sysarg4) != s(Sysarg5) && s(Sysarg4) != s(Sysarg6) && s(Sysarg5) != s(Sysarg6)
  {
  }

  /** A register that is no argument nor the result shares nothing. */
  lemma OwnSlot(arch: Arch, r: Reg)
    requires ValidArch(arch) && !IsArgument(r) && r != SysargResult
    ensures forall r' :: r' != r ==> arch.slot(r') != arch.slot(r)
  {
  }

  lemma TrapSlots(arch: Arch)
    requires ValidArch(arch)
    ensures forall r' :: IsArgument(r') || r' == InstrPointer ==> arch.slot(r') != arch.slot(arch.trapNum)
  {
  }

  /** The slots that are distinct. */
  lemma Slots(arch: Arch)
    requires ValidArch(arch)
    ensures var s := arch.slot;
            && s(Sysarg1) != s(Sysarg2) && s(Sysarg1) != s(Sysarg3) && s(Sysarg1) != s(Sysarg4) && s(Sysarg1) != s(Sysarg5)
            && s(Sysarg1) != s(Sysarg6) && s(Sysarg2) != s(Sysarg3) && s(Sysarg2) != s(Sysarg4) && s(Sysarg2) != s(Sysarg5)
            && s(Sysarg2) != s(Sysarg6) && s(Sysarg3) != s(Sysarg4) && s(Sysarg3) != s(Sysarg5) && s(Sysarg3) != s(Sysarg6)
            && s(Sysarg4) != s(Sysarg5) && s(Sysarg4) != s(Sysarg6) && s(Sysarg5) != s(Sysarg6)
            && s(InstrPointer) != s(Sysarg1) && s(InstrPointer) != s(Sysarg2) && s(InstrPointer) != s(Sysarg3)
            && s(InstrPointer) != s(Sysarg4) && s(InstrPointer) != s(Sysarg5) && s(InstrPointer) != s(Sysarg6)
            && s(InstrPointer) != s(SysargNum) && s(InstrPointer) != s(SysargResult) && s(InstrPointer) != s(arch.trapNum)
            && s(arch.trapNum) != s(Sysarg1) && s(arch.trapNum) != s(Sysarg2) && s(arch.trapNum) != s(Sysarg3)
            && s(arch.trapNum) != s(Sysarg4) && s(arch.trapNum) != s(Sysarg5) && s(arch.trapNum) != s(Sysarg6)
            && s(StackPointer) != s(SysargResult) && s(SysargNum) != s(SysargResult) && s(InstrPointer) != s(StackPointer)
            && s(SysargNum) != s(Sysarg1) && s(SysargNum) != s(Sysarg2) && s(SysargNum) != s(Sysarg3)
            && s(SysargNum) != s(Sysarg4) && s(SysargNum) != s(Sysarg5) && s(SysargNum) != s(Sysarg6)
    ensures 0 < arch.trapSize < WORD_LIMIT && arch.slot(SysargNum) < NB_SLOTS && arch.slot(InstrPointer) < NB_SLOTS
  {
    assert 0 < arch.trapSize < WORD_LIMIT && arch.slot(SysargNum) < NB_SLOTS && arch.slot(InstrPointer) < NB_SLOTS;
    hide ValidArch;
    ArgumentSlots(arch);
    OwnSlot(arch, InstrPointer);
    OwnSlot(arch, SysargNum);
    OwnSlot(arch, StackPointer);
    TrapSlots(arch);
  }

  ghost predicate ArgsAre(arch: Arch, bank: Bank, call: Call)
    requires ValidArch(arch)
  {
    && Peek(arch, bank, Sysarg1) == call.arg1 && Peek(arch, bank, Sysarg2) == call.arg2
    && Peek(arch, bank, Sysarg3) == call.arg3 && Peek(arch, bank, Sysarg4) == call.arg4
    && Peek(arch, bank, Sysarg5) == call.arg5 && Peek(arch, bank, Sysarg6) == call.arg6
  }

  /** Poking a call moves back to the trap... */
  lemma CallPokedMoves(arch: Arch, t: State, call: Call, number: Word)
    requires ValidArch(arch)
    ensures var t' := CallPoked(arch, t, call, number);
            && t' == t.(current := t'.current, changed := true)
            && Peek(arch, t'.current, InstrPointer) == Wrap(Peek(arch, t.current, InstrPointer) - arch.trapSize)
  {
    hide ValidArch, Wrap, Poked, ArgsPoked, Peek, ArgsAre;
    var t1 := ArgsPoked(arch, t, call);
    ArgsPokedKeeps(arch, t, call);
    var t2 := Poked(arch, t1, arch.trapNum, number);
    var ip := Peek(arch, t1.current, InstrPointer);
    PeekPoked(arch, t1, arch.trapNum, number, InstrPointer);
    PokedAnew(arch, t2, InstrPointer, Wrap(ip - arch.trapSize));
    Slots(arch);
    MovesBack(ip, arch.trapSize);
  }

  lemma PokedAnew(arch: Arch, t: State, r: Reg, value: Word)
    requires ValidArch(arch)
    ensures var t' := Poked(arch, t, r, value);
            && t' == t.(current := t'.current, changed := t'.changed)
            && Peek(arch, t'.current, r) == value
            && (Peek(arch, t.current, r) != value ==> t'.changed)
  {
  }

  /** ...and makes the next trap trigger that call. */
  lemma CallPokedTriggers(arch: Arch, abi: Abi, avoider: Word, t: State, call: Call)
    requires ValidArch(arch)
    ensures TriggerIn(arch, CallPoked(arch, t, call, Number(abi, call.sysnum, avoider)).current) == TriggerOf(abi, avoider, call)
  {
    hide Number;
    var number := Number(abi, call.sysnum, avoider);
    var t1 := ArgsPoked(arch, t, call);
    ArgsPokedKeeps(arch, t, call);
    var t2 := Poked(arch, t1, arch.trapNum, number);
    var ip := Wrap(Peek(arch, t2.current, InstrPointer) - arch.trapSize);
    Slots(arch);
    TwicePoked(arch, t1, arch.trapNum, number, InstrPointer, ip, Sysarg1);
    TwicePoked(arch, t1, arch.trapNum, number, InstrPointer, ip, Sysarg2);
    TwicePoked(arch, t1, arch.trapNum, number, InstrPointer, ip, Sysarg3);
    TwicePoked(arch, t1, arch.trapNum, number, InstrPointer, ip, Sysarg4);
    TwicePoked(arch, t1, arch.trapNum, number, InstrPointer, ip, Sysarg5);
    TwicePoked(arch, t1, arch.trapNum, number, InstrPointer, ip, Sysarg6);
    TwicePoked(arch, t1, arch.trapNum, number, InstrPointer, ip, arch.trapNum);
    hide ArgsPoked, Poked, Peek, ValidArch, Wrap;
  }

  lemma TwicePoked(arch: Arch, t: State, r1: Reg, v1: Word, r2: Reg, v2: Word, r: Reg)
    requires ValidArch(arch)
    ensures Peek(arch, Poked(arch, Poked(arch, t, r1, v1), r2, v2).current, r) ==
            if arch.slot(r) == arch.slot(r2) then v2 else if arch.slot(r) == arch.slot(r1) then v1 else Peek(arch, t.current, r)
  {
    PeekPoked(arch, t, r1, v1, r);
    PeekPoked(arch, Poked(arch, t, r1, v1), r2, v2, r);
  }

  lemma MovesBack(ip: Word, size: nat)
    requires 0 < size < WORD_LIMIT
    ensures Wrap(ip - size) != ip
    ensures Wrap(Wrap(ip - size) + size) == ip
  {
  }

  lemma {:induction false} PeekRestored(arch: Arch, bank: Bank, original: Bank, rs: seq<Reg>, r: Reg)
    requires ValidArch(arch)
    ensures Peek(arch, Restored(arch, bank, original, rs), r) ==
            if arch.slot(r) != arch.slot(SysargResult) && (exists i :: 0 <= i < |rs| && arch.slot(rs[i]) == arch.slot(r))
            then Peek(arch, original, r) else Peek(arch, bank, r)
    decreases |rs|
  {
    if rs != [] {
      var s := arch.slot(rs[0]);
      var bank' := if s != arch.slot(SysargResult) then bank[s := original[s]] else bank;
      PeekRestored(arch, bank', original, rs[1..], r);
      assert (exists i :: 0 <= i < |rs| && arch.slot(rs[i]) == arch.slot(r)) <==>
             s == arch.slot(r) || (exists i :: 0 <= i < |rs[1..]| && arch.slot(rs[1..][i]) == arch.slot(r)) by {
        if i :| 0 <= i < |rs| && arch.slot(rs[i]) == arch.slot(r) {
          if i > 0 { assert rs[1..][i - 1] == rs[i]; }
        }
        if i :| 0 <= i < |rs[1..]| && arch.slot(rs[1..][i]) == arch.slot(r) {
          assert rs[i + 1] == rs[1..][i];
        }
      }
    }
  }

  // ----- Transparency -----

  /** A register that the end of a syscall gives back to the tracee: unless the result is there. */
  ghost predicate GivenBack(arch: Arch, r: Reg) {
    (IsArgument(r) || r == SysargNum || r == StackPointer) && arch.slot(r) != arch.slot(SysargResult)
  }

  ghost predicate AllGivenBack(arch: Arch, bank: Bank, original: Bank)
    requires ValidArch(arch)
  {
    && Peek(arch, bank, InstrPointer) == Peek(arch, original, InstrPointer)
    && (forall r :: GivenBack(arch, r) ==> Peek(arch, bank, r) == Peek(arch, original, r))
  }

  /** An exit stop of the tracee's syscall, or of one chained behind it. */
  ghost predicate AtExit(arch: Arch, t: State, original: Bank)
    requires ValidArch(arch)
  {
    && t.original == original
    && Peek(arch, t.kernel, InstrPointer) == Peek(arch, original, InstrPointer)
    && (t.changed || AllGivenBack(arch, t.kernel, original))
  }

  ghost function Queue(t: State, h: Handler): seq<Call> {
    (if t.chain.Some? then t.chain.value else []) + h.calls
  }

  function Forced(f: Option<Word>, h: Handler): Option<Word> {
    if h.force.Some? then h.force else f
  }

  lemma RestoredGivesBack(arch: Arch, bank: Bank, original: Bank)
    requires ValidArch(arch) && Peek(arch, bank, InstrPointer) == Peek(arch, original, InstrPointer)
    ensures AllGivenBack(arch, Restored(arch, bank, original, RESTORED), original)
    ensures Peek(arch, Restored(arch, bank, original, RESTORED), SysargResult) == Peek(arch, bank, SysargResult)
  {
    PeekRestored(arch, bank, original, RESTORED, InstrPointer);
    PeekRestored(arch, bank, original, RESTORED, SysargResult);
    forall r | GivenBack(arch, r)
      ensures Peek(arch, Restored(arch, bank, original, RESTORED), r) == Peek(arch, original, r)
    {
      PeekRestored(arch, bank, original, RESTORED, r);
      assert RESTORED[0] == SysargNum && RESTORED[1] == Sysarg1 && RESTORED[2] == Sysarg2 && RESTORED[3] == Sysarg3
             && RESTORED[4] == Sysarg4 && RESTORED[5] == Sysarg5 && RESTORED[6] == Sysarg6 && RESTORED[7] == StackPointer;
    }
  }

  // ----- What the registers hold -----

  /** The value of the last poke to that slot, or what was there before if there is none. */
  ghost predicate HoldsLast(arch: Arch, pokes: seq<Poke>, s: nat, before: Word, value: Word) {
    && (forall i :: 0 <= i < |pokes| && IsLastPoke(arch, pokes, i, s) ==> value == pokes[i].value)
    && (NeverPoked(arch, pokes, s) ==> value == before)
  }

  ghost predicate NeverPoked(arch: Arch, pokes: seq<Poke>, s: nat) {
    forall i :: 0 <= i < |pokes| ==> arch.slot(pokes[i].reg) != s
  }

  ghost predicate IsLastPoke(arch: Arch, pokes: seq<Poke>, i: nat, s: nat)
    requires i < |pokes|
  {
    arch.slot(pokes[i].reg) == s && forall j :: i < j < |pokes| ==> arch.slot(pokes[j].reg) != s
  }

  lemma HoldsConcat(arch: Arch, a: seq<Poke>, b: seq<Poke>, s: nat, before: Word, between: Word, value: Word)
    requires HoldsLast(arch, a, s, before, between) && HoldsLast(arch, b, s, between, value)
    ensures HoldsLast(arch, a + b, s, before, value)
  {
    var c := a + b;
    assert c[..|a|] == a && c[|a|..] == b;
    forall i | 0 <= i < |c| && IsLastPoke(arch, c, i, s) ensures value == c[i].value {
      if i < |a| {
        assert IsLastPoke(arch, a, i, s);
        forall j | 0 <= j < |b| ensures arch.slot(b[j].reg) != s {
          assert c[|a| + j] == b[j];
        }
        assert NeverPoked(arch, b, s);
      } else {
        forall j | i - |a| < j < |b| ensures arch.slot(b[j].reg) != s {
          assert c[|a| + j] == b[j];
        }
        assert c[i] == b[i - |a|] && IsLastPoke(arch, b, i - |a|, s);
      }
    }
    if NeverPoked(arch, c, s) {
      forall i | 0 <= i < |b| ensures arch.slot(b[i].reg) != s {
        assert c[|a| + i] == b[i];
      }
      assert NeverPoked(arch, a, s) && NeverPoked(arch, b, s);
    }
  }

  lemma OnePokedHolds(arch: Arch, t: State, poke: Poke, s: nat)
    requires ValidArch(arch) && s < NB_SLOTS
    ensures HoldsLast(arch, [poke], s, t.current[s], Poked(arch, t, poke.reg, poke.value).current[s])
  {
    var value := Poked(arch, t, poke.reg, poke.value).current[s];
    if arch.slot(poke.reg) != s {
      assert !IsLastPoke(arch, [poke], 0, s);
    } else {
      assert [poke][0] == poke && !NeverPoked(arch, [poke], s);
    }
  }

  lemma {:induction false} AllPokedHolds(arch: Arch, t: State, pokes: seq<Poke>, s: nat)
    requires ValidArch(arch) && s < NB_SLOTS
    ensures HoldsLast(arch, pokes, s, t.current[s], AllPoked(arch, t, pokes).current[s])
    decreases |pokes|
  {
    if pokes == [] {
      assert NeverPoked(arch, pokes, s);
    } else {
      var t1 := Poked(arch, t, pokes[0].reg, pokes[0].value);
      hide HoldsLast, Poked, ValidArch;
      OnePokedHolds(arch, t, pokes[0], s);
      AllPokedHolds(arch, t1, pokes[1..], s);
      HoldsConcat(arch, [pokes[0]], pokes[1..], s, t.current[s], t1.current[s], AllPoked(arch, t, pokes).current[s]);
      assert [pokes[0]] + pokes[1..] == pokes;
    }
  }

  /** After an enter stage the kernel runs the syscall with what was poked last in each register, and with what the tracee put
  in the others. */
  lemma EnterHolds(arch: Arch, avoider: Word, t: State, e: Entry, s: nat)
    requires ValidArch(arch) && t.chain.None? && s < NB_SLOTS
    ensures var t' := Entered(arch, avoider, t, e);
            && HoldsLast(arch, e.pokes + EndPokes(arch, avoider, t.kernel, e), s, t.kernel[s], t'.kernel[s])
            && HoldsLast(arch, e.pokes, s, t.kernel[s], t'.modified[s])
            && t'.original == t.kernel && t'.current == t'.kernel && !t'.restore && t'.chain == t.chain && t'.forced == t.forced
  {
    hide HoldsLast, ValidArch, EndPokes, AllPoked;
    var t1 := t.(current := t.kernel, original := t.kernel, changed := false, restore := false);
    var t2 := AllPoked(arch, t1, e.pokes);
    var t3 := t2.(modified := t2.current);
    var end := EndPokes(arch, avoider, t.kernel, e);
    AllPokedKeeps(arch, t1, e.pokes);
    AllPokedKeeps(arch, t3, end);
    AllPokedHolds(arch, t1, e.pokes, s);
    AllPokedHolds(arch, t3, end, s);
    HoldsConcat(arch, e.pokes, end, s, t.kernel[s], t2.current[s], AllPoked(arch, t3, end).current[s]);
  }

  /** A syscall that failed is none, with its error; and a tracee that will not stop at the exit has its stack pointer. */
  lemma EnterEnds(arch: Arch, avoider: Word, t: State, e: Entry)
    requires ValidArch(arch) && t.chain.None?
    ensures var bank := Entered(arch, avoider, t, e).kernel;
            && (e.fails.Some? ==> Peek(arch, bank, SysargNum) == avoider && Peek(arch, bank, SysargResult) == e.fails.value)
            && (e.exitless ==> Peek(arch, bank, StackPointer) == Peek(arch, t.kernel, StackPointer))
  {
    var t1 := t.(current := t.kernel, original := t.kernel, changed := false, restore := false);
    var t2 := AllPoked(arch, t1, e.pokes);
    var t3 := t2.(modified := t2.current);
    AllPokedKeeps(arch, t1, e.pokes);
    AllPokedKeeps(arch, t3, EndPokes(arch, avoider, t.kernel, e));
    EndsPoked(arch, avoider, t3, e);
    Slots(arch);
    PeekEnds(arch, avoider, t3, e);
    hide ValidArch, Peek, AllPoked, Poked, EndPokes;
  }

  lemma PeekEnds(arch: Arch, avoider: Word, t: State, e: Entry)
    requires ValidArch(arch)
    ensures var bank := AllPoked(arch, t, EndPokes(arch, avoider, t.original, e)).current;
            && (e.fails.Some? ==> Peek(arch, bank, SysargNum) == avoider && Peek(arch, bank, SysargResult) == e.fails.value)
            && (e.exitless ==> Peek(arch, bank, StackPointer) == Peek(arch, t.original, StackPointer))
  {
    hide ValidArch, AllPoked, EndPokes;
    EndsPoked(arch, avoider, t, e);
    Slots(arch);
    StackSlot(arch);
  }

  lemma StackSlot(arch: Arch)
    requires ValidArch(arch)
    ensures arch.slot(StackPointer) != arch.slot(SysargNum) && forall r :: arch.slot(r) < NB_SLOTS
  {
  }

  /** The enter stage of a chained syscall changes no register. */
  lemma ChainedEnterHolds(arch: Arch, avoider: Word, t: State, e: Entry)
    requires ValidArch(arch) && t.chain.Some?
    ensures Entered(arch, avoider, t, e) == t.(current := t.kernel, restore := false)
  {
  }

  /** A slot that the end of a syscall leaves alone: that of the result, and of no register it restores. */
  ghost predicate Unrestored(arch: Arch, s: nat) {
    s == arch.slot(SysargResult) || forall r :: IsArgument(r) || r == SysargNum || r == StackPointer ==> arch.slot(r) != s
  }

  lemma RestoredNext(arch: Arch, bank: Bank, original: Bank, rs: seq<Reg>, i: nat)
    requires ValidArch(arch) && i < |rs|
    ensures var s := arch.slot(rs[i]);
            Restored(arch, bank, original, rs[i..]) ==
            Restored(arch, if s != arch.slot(SysargResult) then bank[s := original[s]] else bank, original, rs[i + 1..])
  {
    assert rs[i..][0] == rs[i] && rs[i..][1..] == rs[i + 1..];
  }

  lemma RestoredNone(arch: Arch, bank: Bank, original: Bank, rs: seq<Reg>)
    requires ValidArch(arch)
    ensures rs[0..] == rs && Restored(arch, bank, original, rs[|rs|..]) == bank
  {
  }

  lemma {:induction false} RestoredLeaves(arch: Arch, bank: Bank, original: Bank, rs: seq<Reg>, s: nat)
    requires ValidArch(arch) && s < NB_SLOTS
    requires s == arch.slot(SysargResult) || forall i :: 0 <= i < |rs| ==> arch.slot(rs[i]) != s
    ensures Restored(arch, bank, original, rs)[s] == bank[s]
    decreases |rs|
  {
    if rs != [] {
      var s0 := arch.slot(rs[0]);
      assert s0 != arch.slot(SysargResult) ==> s0 != s;
      RestoredLeaves(arch, if s0 != arch.slot(SysargResult) then bank[s0 := original[s0]] else bank, original, rs[1..], s);
    }
  }

  lemma PushedLeaves(arch: Arch, t: State, s: nat)
    requires ValidArch(arch) && s < NB_SLOTS && (Unrestored(arch, s) || !t.restore)
    requires !t.changed ==> t.current == t.kernel
    ensures Pushed(arch, t).kernel[s] == t.current[s]
  {
    if t.changed && t.restore {
      RestoredLeaves(arch, t.current, t.original, RESTORED, s);
    }
    hide Restored;
  }

  /** After the last exit stage of a syscall, those slots hold what was poked there last, the forced result first of all. */
  lemma ExitHolds(arch: Arch, abi: Abi, avoider: Word, t: State, h: Handler, s: nat)
    requires ValidArch(arch) && s < NB_SLOTS && Unrestored(arch, s) && Queue(t, h) == []
    ensures var t' := Exited(arch, abi, avoider, t, h);
            if t.chain.Some? && Forced(t.forced, h).Some? && s == arch.slot(SysargResult) then t'.kernel[s] == Forced(t.forced, h).value
            else HoldsLast(arch, h.pokes, s, t.kernel[s], t'.kernel[s])
  {
    hide HoldsLast, AllPoked, Unrestored, Restored, Pushed;
    var t0 := t.(current := t.kernel, restore := true);
    AllPokedHolds(arch, t0, h.pokes, s);
    var t1 := HandledExit(arch, t, h);
    StartedExit(arch, t, h);
    var t2 := if t1.chain.Some? then Chained(arch, abi, avoider, t1) else t1;
    PushedLeaves(arch, t2, s);
  }

  /** The state once the handlers are done differs from what they were given by their pokes and requests only. */
  lemma StartedExit(arch: Arch, t: State, h: Handler)
    requires ValidArch(arch)
    ensures var t1 := HandledExit(arch, t, h);
            && t1.current == AllPoked(arch, t.(current := t.kernel, restore := true), h.pokes).current
            && t1.restore && t1.kernel == t.kernel && t1.original == t.original && t1.forced == Forced(t.forced, h)
            && (t.changed ==> t1.changed) && (!t1.changed ==> t1.current == t.kernel)
            && t1.chain == (if t.chain.None? && h.calls == [] then None else Some(Queue(t, h)))
  {
    AllPokedKeeps(arch, t.(current := t.kernel, restore := true), h.pokes);
    hide AllPoked;
    if t.chain.Some? && h.calls == [] {
      assert t.chain.value + [] == t.chain.value;
    } else if t.chain.None? {
      assert [] + h.calls == h.calls;
    }
  }

  /** A slot that the request of a chained syscall does not need. */
  ghost predicate Unforged(arch: Arch, s: nat) {
    s != arch.slot(arch.trapNum) && s != arch.slot(InstrPointer) && forall r :: IsArgument(r) ==> arch.slot(r) != s
  }

  /** Nothing is restored while there is something to chain: the other slots hold what was poked there last. */
  lemma ChainingHolds(arch: Arch, abi: Abi, avoider: Word, t: State, h: Handler, s: nat)
    requires ValidArch(arch) && s < NB_SLOTS && Unforged(arch, s) && Queue(t, h) != []
    ensures HoldsLast(arch, h.pokes, s, t.kernel[s], Exited(arch, abi, avoider, t, h).kernel[s])
  {
    hide HoldsLast, AllPoked, Restored, Pushed, CallPoked, Number, HandledExit;
    var t0 := t.(current := t.kernel, restore := true);
    AllPokedHolds(arch, t0, h.pokes, s);
    var t1 := HandledExit(arch, t, h);
    StartedExit(arch, t, h);
    var queue := Queue(t, h);
    var number := Number(abi, queue[0].sysnum, avoider);
    var t2 := t1.(restore := false, chain := Some(queue[1..]));
    CallPokedElsewhere(arch, t2, queue[0], number, s);
    assert Chained(arch, abi, avoider, t1) == CallPoked(arch, t2, queue[0], number);
    PushedLeaves(arch, CallPoked(arch, t2, queue[0], number), s);
  }

  lemma CallPokedElsewhere(arch: Arch, t: State, call: Call, number: Word, s: nat)
    requires ValidArch(arch) && s < NB_SLOTS && Unforged(arch, s)
    ensures var t' := CallPoked(arch, t, call, number);
            && t'.current[s] == t.current[s] && t'.restore == t.restore && t'.kernel == t.kernel
            && (t.changed ==> t'.changed) && (!t'.changed ==> t'.current == t.current)
  {
    ArgsPokedElsewhere(arch, t, call, s);
    var t1 := ArgsPoked(arch, t, call);
    PokedElsewhere(arch, t1, arch.trapNum, number, s);
    var t2 := Poked(arch, t1, arch.trapNum, number);
    PokedElsewhere(arch, t2, InstrPointer, Wrap(Peek(arch, t2.current, InstrPointer) - arch.trapSize), s);
    hide Poked, ArgsPoked, ValidArch, Wrap;
  }

  lemma ArgsPokedElsewhere(arch: Arch, t: State, call: Call, s: nat)
    requires ValidArch(arch) && s < NB_SLOTS && Unforged(arch, s)
    ensures var t' := ArgsPoked(arch, t, call);
            && t'.current[s] == t.current[s] && t'.restore == t.restore && t'.kernel == t.kernel
            && (t.changed ==> t'.changed) && (!t'.changed ==> t'.current == t.current)
  {
    hide Poked, ValidArch;
    var t1 := Poked(arch, t, Sysarg1, call.arg1);
    var t2 := Poked(arch, t1, Sysarg2, call.arg2);
    var t3 := Poked(arch, t2, Sysarg3, call.arg3);
    var t4 := Poked(arch, t3, Sysarg4, call.arg4);
    var t5 := Poked(arch, t4, Sysarg5, call.arg5);
    PokedElsewhere(arch, t, Sysarg1, call.arg1, s);
    PokedElsewhere(arch, t1, Sysarg2, call.arg2, s);
    PokedElsewhere(arch, t2, Sysarg3, call.arg3, s);
    PokedElsewhere(arch, t3, Sysarg4, call.arg4, s);
    PokedElsewhere(arch, t4, Sysarg5, call.arg5, s);
    PokedElsewhere(arch, t5, Sysarg6, call.arg6, s);
  }

  lemma PokedElsewhere(arch: Arch, t: State, r: Reg, value: Word, s: nat)
    requires ValidArch(arch) && s < NB_SLOTS && arch.slot(r) != s
    ensures var t' := Poked(arch, t, r, value);
            && t'.current[s] == t.current[s] && t'.restore == t.restore && t'.kernel == t.kernel
            && (t.changed ==> t'.changed) && (!t'.changed ==> t'.current == t.current)
  {
  }

  lemma HandledExitKeeps(arch: Arch, t: State, h: Handler, original: Bank)
    requires ValidArch(arch) && AtExit(arch, t, original) && KeepsIp(h.pokes)
    ensures var t' := HandledExit(arch, t, h);
            && t'.original == original && t'.restore && t'.kernel == t.kernel && t'.forced == Forced(t.forced, h)
            && t'.chain == (if t.chain.None? && h.calls == [] then None else Some(Queue(t, h)))
            && Peek(arch, t'.current, InstrPointer) == Peek(arch, original, InstrPointer)
            && (!t'.changed ==> t'.current == t.kernel && AllGivenBack(arch, t.kernel, original))
            && (h.pokes == [] ==> t'.current == t.kernel)
  {
    hide ValidArch;
    AllPokedKeeps(arch, t.(current := t.kernel, restore := true), h.pokes);
    hide AllGivenBack, Peek;
    if t.chain.Some? && h.calls == [] {
      assert t.chain.value + [] == t.chain.value;
    } else if t.chain.None? {
      assert [] + h.calls == h.calls;
    }
  }

  /** The end of a syscall behind which nothing is chained. */
  lemma PlainExit(arch: Arch, abi: Abi, avoider: Word, t: State, h: Handler, original: Bank)
    requires ValidArch(arch) && AtExit(arch, t, original) && KeepsIp(h.pokes)
    requires t.chain.None? && h.calls == []
    ensures var t' := Exited(arch, abi, avoider, t, h);
            && t'.chain.None? && AllGivenBack(arch, t'.kernel, original)
            && ResultHolds(arch, h, Peek(arch, t.kernel, SysargResult), t'.kernel)
  {
    hide ValidArch;
    HandledExitKeeps(arch, t, h, original);
    var t' := HandledExit(arch, t, h);
    RestoredGivesBack(arch, t'.current, original);
    ResultAtExit(arch, abi, avoider, t, h);
    hide HandledExit, Restored, AllGivenBack, Peek, Chained, ResultHolds;
  }

  lemma ResultAtExit(arch: Arch, abi: Abi, avoider: Word, t: State, h: Handler)
    requires ValidArch(arch) && Queue(t, h) == [] && (t.chain.None? || Forced(t.forced, h).None?)
    ensures ResultHolds(arch, h, Peek(arch, t.kernel, SysargResult), Exited(arch, abi, avoider, t, h).kernel)
  {
    hide Exited, HoldsLast;
    ExitHolds(arch, abi, avoider, t, h, arch.slot(SysargResult));
  }

  /** The exit stage at which the chain drains. */
  lemma LastExit(arch: Arch, abi: Abi, avoider: Word, t: State, h: Handler, original: Bank)
    requires ValidArch(arch) && AtExit(arch, t, original) && KeepsIp(h.pokes)
    requires t.chain.Some? && Queue(t, h) == []
    ensures var t' := Exited(arch, abi, avoider, t, h);
            && t'.chain.None? && t'.forced.None? && AllGivenBack(arch, t'.kernel, original)
            && (Forced(t.forced, h).Some? ==> Peek(arch, t'.kernel, SysargResult) == Forced(t.forced, h).value)
            && (Forced(t.forced, h).None? ==> ResultHolds(arch, h, Peek(arch, t.kernel, SysargResult), t'.kernel))
  {
    hide ValidArch;
    HandledExitKeeps(arch, t, h, original);
    var t1 := HandledExit(arch, t, h);
    var t2 := if t1.forced.Some? then Poked(arch, t1, SysargResult, t1.forced.value) else t1;
    Slots(arch);
    if t1.forced.Some? {
      PeekPoked(arch, t1, SysargResult, t1.forced.value, SysargResult);
      PeekPoked(arch, t1, SysargResult, t1.forced.value, InstrPointer);
    }
    RestoredGivesBack(arch, t2.current, original);
    if t1.forced.None? {
      ResultAtExit(arch, abi, avoider, t, h);
    }
    hide HandledExit, Restored, AllGivenBack, Peek, Poked, ResultHolds;
  }

  lemma PushedUnrestored(arch: Arch, t: State)
    requires ValidArch(arch) && t.changed && !t.restore
    ensures Pushed(arch, t) == t.(kernel := t.current)
  {
    hide ValidArch;
  }

  /** An exit stage that chains a syscall. */
  lemma ChainingExit(arch: Arch, abi: Abi, avoider: Word, t: State, h: Handler, original: Bank)
    requires ValidArch(arch) && AtExit(arch, t, original) && KeepsIp(h.pokes)
    requires Queue(t, h) != []
    ensures var t' := Exited(arch, abi, avoider, t, h);
            && t'.chain == Some(Queue(t, h)[1..]) && t'.changed && t'.original == original && t'.forced == Forced(t.forced, h)
            && Peek(arch, t'.kernel, InstrPointer) == Wrap(Peek(arch, original, InstrPointer) - arch.trapSize)
            && TriggerIn(arch, t'.kernel) == TriggerOf(abi, avoider, Queue(t, h)[0])
  {
    hide ValidArch;
    HandledExitKeeps(arch, t, h, original);
    var t1 := HandledExit(arch, t, h);
    var call, number := Queue(t, h)[0], Number(abi, Queue(t, h)[0].sysnum, avoider);
    var t2 := t1.(restore := false, chain := Some(Queue(t, h)[1..]));
    CallPokedMoves(arch, t2, call, number);
    CallPokedTriggers(arch, abi, avoider, t2, call);
    assert Chained(arch, abi, avoider, t1) == CallPoked(arch, t2, call, number) by {
      hide CallPoked, HandledExit, Number;
    }
    PushedUnrestored(arch, CallPoked(arch, t2, call, number));
    hide HandledExit, AllGivenBack, Peek, CallPoked, TriggerIn, TriggerOf, Wrap, Number, Pushed, Chained;
  }

  /** The trap of a chained syscall leads back to where the requested one was. */
  lemma RetrappedKeeps(arch: Arch, avoider: Word, t: State, result: Word, original: Bank)
    requires ValidArch(arch) && t.changed && t.original == original && t.chain.Some?
    requires Peek(arch, t.kernel, InstrPointer) == Wrap(Peek(arch, original, InstrPointer) - arch.trapSize)
    ensures var t' := Retrapped(arch, avoider, t, result);
            && AtExit(arch, t', original) && t'.changed && t'.chain == t.chain && t'.forced == t.forced
            && Peek(arch, t'.kernel, SysargResult) == result
  {
    hide ValidArch, Wrap, AllGivenBack, Restored, AllPoked;
    Slots(arch);
    MovesBack(Peek(arch, original, InstrPointer), arch.trapSize);
    var bank := Trapped(arch, t.kernel);
    PeekSet(arch, t.kernel, SysargNum, Peek(arch, t.kernel, arch.trapNum), InstrPointer);
    PeekSet(arch, t.kernel[arch.slot(SysargNum) := Peek(arch, t.kernel, arch.trapNum)], InstrPointer,
            Wrap(Peek(arch, t.kernel, InstrPointer) + arch.trapSize), InstrPointer);
    PeekSet(arch, bank, SysargResult, result, InstrPointer);
    PeekSet(arch, bank, SysargResult, result, SysargResult);
    hide Peek;
  }

  lemma PeekSet(arch: Arch, bank: Bank, r: Reg, value: Word, r': Reg)
    requires ValidArch(arch)
    ensures |bank[arch.slot(r) := value]| == NB_SLOTS
    ensures Peek(arch, bank[arch.slot(r) := value], r') == if arch.slot(r) == arch.slot(r') then value else Peek(arch, bank, r')
  {
  }

  /** Some chained syscalls were triggered, one is about to be, and the others wait in order. */
  ghost predicate InFlight(arch: Arch, abi: Abi, avoider: Word, w: World, original: Bank, expected: seq<Call>)
    requires ValidArch(arch)
  {
    && w.t.changed && w.t.original == original
    && |w.log| < |expected| && w.log == Triggers(abi, avoider, expected[..|w.log|])
    && w.t.chain == Some(expected[|w.log| + 1..])
    && TriggerIn(arch, w.t.kernel) == TriggerOf(abi, avoider, expected[|w.log|])
    && Peek(arch, w.t.kernel, InstrPointer) == Wrap(Peek(arch, original, InstrPointer) - arch.trapSize)
  }

  /** All of them were triggered, in order; the tracee has its registers back, and the forced result if any, else that of the
  last one as its handlers left it. */
  ghost predicate Drained(arch: Arch, abi: Abi, avoider: Word, w: World, original: Bank, expected: seq<Call>, forced: Option<Word>,
                          last: Round)
    requires ValidArch(arch)
  {
    && w.t.chain.None? && w.log == Triggers(abi, avoider, expected)
    && AllGivenBack(arch, w.t.kernel, original)
    && (forced.Some? ==> Peek(arch, w.t.kernel, SysargResult) == forced.value)
    && (forced.None? ==> ResultHolds(arch, last.handler, last.result, w.t.kernel))
  }

  /** The kernel's result, unless a handler poked that register. */
  ghost predicate ResultHolds(arch: Arch, h: Handler, result: Word, bank: Bank)
    requires ValidArch(arch)
  {
    HoldsLast(arch, h.pokes, arch.slot(SysargResult), result, Peek(arch, bank, SysargResult))
  }

  function Triggers(abi: Abi, avoider: Word, calls: seq<Call>): (r: seq<Trigger>)
    ensures |r| == |calls|
  {
    if calls == [] then [] else Triggers(abi, avoider, calls[..|calls| - 1]) + [TriggerOf(abi, avoider, calls[|calls| - 1])]
  }

  /** One chained syscall. */
  lemma RoundKeeps(arch: Arch, abi: Abi, avoider: Word, w: World, original: Bank, expected: seq<Call>, round: Round)
    requires ValidArch(arch) && InFlight(arch, abi, avoider, w, original, expected) && KeepsIp(round.handler.pokes)
    ensures var w' := AfterRound(arch, abi, avoider, w, round);
            var expected' := expected + round.handler.calls;
            var forced := Forced(w.t.forced, round.handler);
            if |w.log| + 1 < |expected'| then
              InFlight(arch, abi, avoider, w', original, expected') && w'.t.forced == forced
            else
              Drained(arch, abi, avoider, w', original, expected', forced, round)
  {
    hide ValidArch, Retrapped, TriggerIn, TriggerOf, Peek, Wrap, AllGivenBack, AtExit, Triggers, Exited;
    var n, h := |w.log|, round.handler;
    var expected' := expected + h.calls;
    var t := Retrapped(arch, avoider, w.t, round.result);
    RetrappedKeeps(arch, avoider, w.t, round.result, original);
    var w' := AfterRound(arch, abi, avoider, w, round);
    Suffixes(expected, h.calls, n);
    TriggersNext(abi, avoider, expected', n);
    assert expected'[..n] == expected[..n];
    if n + 1 < |expected'| {
      ChainingExit(arch, abi, avoider, t, h, original);
    } else {
      LastExit(arch, abi, avoider, t, h, original);
    }
  }

  lemma Suffixes(expected: seq<Call>, calls: seq<Call>, n: nat)
    requires n < |expected|
    ensures expected[n + 1..] + calls == (expected + calls)[n + 1..]
    ensures n + 1 < |expected + calls| ==> (expected + calls)[n + 1..][1..] == (expected + calls)[n + 2..]
    ensures n + 1 == |expected + calls| ==> (expected + calls)[..n + 1] == expected + calls
    ensures (expected + calls)[n] == expected[n]
  {
  }

  lemma TriggersNext(abi: Abi, avoider: Word, calls: seq<Call>, n: nat)
    requires n < |calls|
    ensures Triggers(abi, avoider, calls[..n + 1]) == Triggers(abi, avoider, calls[..n]) + [TriggerOf(abi, avoider, calls[n])]
  {
    assert calls[..n + 1][..n] == calls[..n];
  }

  /** The rounds of a chain, up to where it drains. */
  ghost predicate Possible(arch: Arch, abi: Abi, avoider: Word, w: World, rounds: seq<Round>)
    requires ValidArch(arch)
    decreases |rounds|
  {
    rounds != [] ==>
      && w.t.chain.Some? && KeepsIp(rounds[0].handler.pokes)
      && Possible(arch, abi, avoider, AfterRound(arch, abi, avoider, w, rounds[0]), rounds[1..])
  }

  ghost function AfterRounds(arch: Arch, abi: Abi, avoider: Word, w: World, rounds: seq<Round>): World
    requires ValidArch(arch)
    decreases |rounds|
  {
    if rounds == [] then w
    else AfterRounds(arch, abi, avoider, AfterRound(arch, abi, avoider, w, rounds[0]), rounds[1..])
  }

  function AllCalls(calls: seq<Call>, rounds: seq<Round>): seq<Call>
    decreases |rounds|
  {
    if rounds == [] then calls else AllCalls(calls + rounds[0].handler.calls, rounds[1..])
  }

  function LastForced(f: Option<Word>, rounds: seq<Round>): Option<Word>
    decreases |rounds|
  {
    if rounds == [] then f else LastForced(Forced(f, rounds[0].handler), rounds[1..])
  }

  lemma {:induction false} RoundsKeep(arch: Arch, abi: Abi, avoider: Word, w: World, original: Bank, expected: seq<Call>,
                                      rounds: seq<Round>)
    requires ValidArch(arch) && InFlight(arch, abi, avoider, w, original, expected)
    requires Possible(arch, abi, avoider, w, rounds)
    ensures var w', expected' := AfterRounds(arch, abi, avoider, w, rounds), AllCalls(expected, rounds);
            if w'.t.chain.Some? then InFlight(arch, abi, avoider, w', original, expected')
            else rounds != [] && Drained(arch, abi, avoider, w', original, expected', LastForced(w.t.forced, rounds), rounds[|rounds| - 1])
    decreases |rounds|
  {
    hide ValidArch;
    if rounds != [] {
      RoundKeeps(arch, abi, avoider, w, original, expected, rounds[0]);
      var w1, expected1 := AfterRound(arch, abi, avoider, w, rounds[0]), expected + rounds[0].handler.calls;
      hide AfterRound;
      if |w.log| + 1 < |expected1| {
        hide InFlight, Drained;
        RoundsKeep(arch, abi, avoider, w1, original, expected1, rounds[1..]);
      } else {
        assert w1.t.chain.None?;
        assert rounds[1..] == [];
      }
    }
  }

  /** The enter stage of a requested syscall, and the kernel's answer. */
  lemma RequestedKeeps(arch: Arch, avoider: Word, t: State, e: Entry, result: Word)
    requires ValidArch(arch) && KeepsIp(e.pokes) && t.chain.None?
    ensures var t' := Requested(arch, avoider, t, e, result);
            && AtExit(arch, t', t.kernel) && t'.chain == t.chain && t'.forced == t.forced
            && Peek(arch, t'.kernel, SysargResult) == result
  {
    var t1 := t.(current := t.kernel, original := t.kernel, changed := false, restore := false);
    AllPokedKeeps(arch, t1, e.pokes);
    var t2 := AllPoked(arch, t1, e.pokes);
    AllPokedKeeps(arch, t2.(modified := t2.current), EndPokes(arch, avoider, t.kernel, e));
    Slots(arch);
    hide AllPoked, EndPokes;
    EndKeepsIp(arch, avoider, t.kernel, e);
  }

  lemma EndKeepsIp(arch: Arch, avoider: Word, original: Bank, e: Entry)
    requires ValidArch(arch)
    ensures KeepsIp(EndPokes(arch, avoider, original, e))
  {
  }

  /** The exit stage of a requested syscall starts its chain. */
  lemma ChainStarts(arch: Arch, abi: Abi, avoider: Word, t: State, e: Entry, result: Word, h: Handler)
    requires ValidArch(arch) && KeepsIp(e.pokes) && KeepsIp(h.pokes)
    requires t.chain.None? && t.forced.None? && h.calls != []
    ensures var t' := Exited(arch, abi, avoider, Requested(arch, avoider, t, e, result), h);
            InFlight(arch, abi, avoider, World(t', []), t.kernel, h.calls) && t'.forced == h.force
  {
    hide ValidArch, Requested, Exited, AtExit, TriggerIn, TriggerOf, Peek, Wrap;
    RequestedKeeps(arch, avoider, t, e, result);
    var t1 := Requested(arch, avoider, t, e, result);
    assert Queue(t1, h) == h.calls && h.calls[..0] == [];
    ChainingExit(arch, abi, avoider, t1, h, t.kernel);
  }

  /** Chained syscalls are transparent: whatever a syscall's enter and exit handlers poke, and whatever they chain behind
  it (chained syscalls may chain more), exactly those syscalls are triggered, in the order they were registered; when
  the chain has drained the tracee is just after its own trap, with the argument registers and the stack pointer it had
  when it made its request, but for the one that holds the result, and its result is the last one forced, if any, else
  that of the last chained syscall. */
  lemma ChainTransparent(arch: Arch, abi: Abi, avoider: Word, t: State, e: Entry, result: Word, h: Handler,
                         rounds: seq<Round>)
    requires ValidArch(arch) && KeepsIp(e.pokes) && KeepsIp(h.pokes)
    requires t.chain.None? && t.forced.None? && h.calls != []
    requires Possible(arch, abi, avoider,
                      World(Exited(arch, abi, avoider, Requested(arch, avoider, t, e, result), h), []), rounds)
    ensures var w := World(Exited(arch, abi, avoider, Requested(arch, avoider, t, e, result), h), []);
            var w', expected := AfterRounds(arch, abi, avoider, w, rounds), AllCalls(h.calls, rounds);
            if w'.t.chain.Some? then InFlight(arch, abi, avoider, w', t.kernel, expected)
            else rounds != [] && Drained(arch, abi, avoider, w', t.kernel, expected, LastForced(h.force, rounds), rounds[|rounds| - 1])
  {
    hide ValidArch, Requested, Exited, InFlight, Drained;
    ChainStarts(arch, abi, avoider, t, e, result, h);
    var w := World(Exited(arch, abi, avoider, Requested(arch, avoider, t, e, result), h), []);
    RoundsKeep(arch, abi, avoider, w, t.kernel, h.calls, rounds);
  }

  /** A syscall behind which nothing is chained is transparent as well. */
  lemma SyscallTransparent(arch: Arch, abi: Abi, avoider: Word, t: State, e: Entry, result: Word, h: Handler)
    requires ValidArch(arch) && KeepsIp(e.pokes) && KeepsIp(h.pokes) && t.chain.None? && h.calls == []
    ensures var bank := Exited(arch, abi, avoider, Requested(arch, avoider, t, e, result), h).kernel;
            AllGivenBack(arch, bank, t.kernel) && ResultHolds(arch, h, result, bank)
  {
    hide ValidArch, Requested, Exited, AtExit;
    RequestedKeeps(arch, avoider, t, e, result);
    PlainExit(arch, abi, avoider, Requested(arch, avoider, t, e, result), h, t.kernel);
  }

  /** Restarting the original syscall chains the very request the tracee made, whatever its arguments became, just when its
  number is that of a syscall, or is the avoider, and is not taken for a syscall of the table. */
  lemma RestartedIsOriginal(arch: Arch, abi: Abi, avoider: Word, original: Bank)
    requires ValidArch(arch) && Distinct(abi.table)
    ensures var number := Peek(arch, original, SysargNum);
            TriggerOf(abi, avoider, OriginalCall(arch, abi, original)) == TriggerIn(arch, original).(number := number) <==>
            Known(abi, number)
            || (number == avoider && (Translated(abi, number) == VOID || Translated(abi, number) !in abi.table))
  {
    DetranslateTranslated(abi, avoider);
    var number := Peek(arch, original, SysargNum);
    if Known(abi, number) {
      assert Detranslated(abi, Translated(abi, number), avoider) == number;
    } else {
      DetranslateUnknown(abi, number, avoider);
      assert Detranslated(abi, Translated(abi, number), avoider) < WORD_LIMIT;
    }
  }
}
