/** Interception of system calls: the handling of trace events (tracee/event.c) and of the two stages of a system
call (syscall/syscall.c), against a kernel that reports seccomp events before or after the enter stop. */
module Intercept {
  import opened Basics

  /** How a tracee is to be restarted: Unset is the source's 0. */
  datatype How = Unset | Cont | Syscall

  /** What the syscall handlers (and extensions) decide: to ask for the exit stop, with or without leaving a mark in
  sysexit_pending, to report an error, and, in exit stages, to register chained syscalls. */
  datatype Reply = Reply(asks: bool, marks: bool, fails: bool, registered: nat)

  datatype Event =
    | Trap                  // enter or exit stop
    | Seccomp(flag: bool)   // PTRACE_EVENT_SECCOMP, with or without FILTER_SYSEXIT
    | Fork                  // PTRACE_EVENT_FORK, VFORK or CLONE
    | Passing               // PTRACE_EVENT_EXEC, VFORK_DONE or EXIT
    | Signal

  /** The fields of a tracee that decide about its syscalls, and the two static variables of the handler.  `enters`
  and `exits` count the stages translated since the current syscall began. */
  datatype State = State(status: int, pending: bool, how: How, last: How, enabled: bool, handled: bool,
                         chain: Option<nat>, detected: bool, after: bool, enters: nat, exits: nat)
  {
    predicate InEnter() {
      status == 0
    }

    predicate Necessary() {
      pending || chain.Some?
    }
  }

  // ----- The specification of the handlers -----

  function Asked(t: State, reply: Reply): State {
    if reply.asks then t.(how := Syscall, pending := t.pending || reply.marks) else t
  }

  function EnterStage(t: State, reply: Reply): State {
    var t1 := Asked(t.(enters := t.enters + 1), reply);
    var t2 := if t.chain.Some? then t1.(how := Syscall) else t1;
    t2.(status := if t2.how == Cont then 0 else if reply.fails then -1 else 1)
  }

  function ExitStage(t: State, reply: Reply): State {
    var t1 := Asked(t.(exits := t.exits + 1, status := 0), reply);
    if t.chain.None? && reply.registered == 0 then t1
    else
      var queued := (if t.chain.Some? then t.chain.value else 0) + reply.registered;
      if queued == 0 then t1.(chain := None) else t1.(chain := Some(queued - 1), how := Syscall)
  }

  function Translated(t: State, reply: Reply): State {
    if t.InEnter() then EnterStage(t, reply) else ExitStage(t, reply)
  }

  function DefaultHow(t: State): How {
    if t.enabled && !t.Necessary() then Cont else Syscall
  }

  /** The enter stage handled on the seccomp event itself. */
  function EnteredAtOnce(t: State, reply: Reply): State {
    var t1 := Translated(t.(how := Cont), reply);
    var t2 := if t1.pending then t1.(how := Syscall) else t1;
    if !t2.after && t2.how == Syscall then t2.(handled := true) else t2
  }

  /** The state after an event; None when an assertion of the source fails. */
  function Handled(t: State, e: Event, reply: Reply): Option<State> {
    var t0 := if t.how == Unset then t.(how := DefaultHow(t)) else t;
    match e
    case Trap =>
      var t1 := if !t.enabled then t0
                else if t.InEnter() then t0.(how := Syscall, pending := true)
                else t0.(how := Cont, pending := false);
      if !t.handled then Some(Translated(t1, reply))
      else if t.InEnter() || t.after then None
      else Some(t1.(handled := false, how := Syscall))
    case Seccomp(flag) =>
      var t1 := if t.detected then t0 else t0.(enabled := true, detected := true, after := !t.InEnter());
      if t1.after && !t.InEnter() then
        if t.last == Cont then None else Some(t1.(how := t.last))
      else if !t.InEnter() then None
      else if !t1.enabled then Some(t1)
      else if flag || t.Necessary() then
        Some((if t1.after then Translated(t1.(how := Syscall), reply) else t1).(how := Syscall))
      else Some(EnteredAtOnce(t1, reply))
    case Passing => Some(if t.last != Unset then t0.(how := t.last) else t0)
    case Fork => Some(t0)
    case Signal => Some(t0)
  }

  /** restart_tracee(). */
  function Restarted(t: State): State {
    t.(last := t.how, how := Unset)
  }

  // ----- The source's own form -----

  class Tracee {
    var status: int
    var sysexitPending: bool
    var restartHow: How
    var lastRestartHow: How
    var seccompEnabled: bool
    var seccompAlreadyHandledEnter: bool
    var chain: Option<nat>
    // The static variables of handle_tracee_event().
    var seccompDetected: bool
    var seccompAfterPtraceEnter: bool
    // The stages translated since the current syscall began.
    var enters: nat
    var exits: nat

    function Value(): State
      reads this
    {
      State(status, sysexitPending, restartHow, lastRestartHow, seccompEnabled, seccompAlreadyHandledEnter, chain,
            seccompDetected, seccompAfterPtraceEnter, enters, exits)
    }

    method Ask(reply: Reply)
      modifies this
      ensures Value() == Asked(old(Value()), reply)
    {
      if reply.asks {
        restartHow := Syscall;
        if reply.marks {
          sysexitPending := true;
        }
      }
    }

    /** translate_syscall(). */
    method TranslateSyscall(reply: Reply)
      modifies this
      ensures Value() == Translated(old(Value()), reply)
    {
      hide EnterStage, ExitStage;
      if status == 0 {
        TranslateEnterStage(reply);
      } else {
        TranslateExitStage(reply);
      }
    }

    method TranslateEnterStage(reply: Reply)
      modifies this
      ensures Value() == EnterStage(old(Value()), reply)
    {
      enters := enters + 1;
      Ask(reply);
      if chain.Some? {
        restartHow := Syscall;
      }
      status := if reply.fails then -1 else 1;
      if restartHow == Cont {
        status := 0;
      }
    }

    method TranslateExitStage(reply: Reply)
      modifies this
      ensures Value() == ExitStage(old(Value()), reply)
    {
      exits := exits + 1;
      Ask(reply);
      Register(reply.registered);
      status := 0;
      if chain.Some? {
        ChainNextSyscall();
      }
    }

    /** register_chained_syscall(), as often as the handler calls it. */
    method Register(count: nat)
      modifies this`chain
      ensures chain == if count == 0 then old(chain) else Some((if old(chain).Some? then old(chain).value else 0) + count)
    {
      if count > 0 {
        chain := Some((if chain.Some? then chain.value else 0) + count);
      }
    }

    /** chain_next_syscall(), as far as the length of the queue and the restart are concerned. */
    method ChainNextSyscall()
      requires chain.Some?
      modifies this
      ensures Value() == if old(chain).value == 0 then old(Value()).(chain := None)
                         else old(Value()).(chain := Some(old(chain).value - 1), how := Syscall)
    {
      if chain.value == 0 {
        chain := None;
      } else {
        chain := Some(chain.value - 1);
        restartHow := Syscall;
      }
    }

    /** handle_tracee_event(): false when an assertion fails. */
    method HandleEvent(e: Event, reply: Reply) returns (sound: bool)
      modifies this
      ensures sound <==> Handled(old(Value()), e, reply).Some?
      ensures sound ==> Value() == Handled(old(Value()), e, reply).value
    {
      hide Translated, EnteredAtOnce, DefaultHow;
      var sysexitNecessary := SetDefaultRestart();
      sound := true;
      if e.Trap? {
        sound := HandleTrap(reply);
      } else if e.Seccomp? {
        sound := HandleSeccomp(e.flag, sysexitNecessary, reply);
      } else if e.Passing? {
        if lastRestartHow != Unset {
          restartHow := lastRestartHow;
        }
      }
    }

    /** The restart mode, unless it was set already. */
    method SetDefaultRestart() returns (sysexitNecessary: bool)
      modifies this`restartHow
      ensures sysexitNecessary == old(Value()).Necessary()
      ensures restartHow == if old(restartHow) == Unset then DefaultHow(old(Value())) else old(restartHow)
      ensures restartHow != Unset
    {
      sysexitNecessary := sysexitPending || chain.Some?;
      if restartHow == Unset {
        restartHow := if seccompEnabled && !sysexitNecessary then Cont else Syscall;
      }
    }

    method HandleTrap(reply: Reply) returns (sound: bool)
      modifies this
      ensures var t := old(Value());
              var t1 := if !t.enabled then t
                        else if t.InEnter() then t.(how := Syscall, pending := true)
                        else t.(how := Cont, pending := false);
              && (sound <==> !(t.handled && (t.InEnter() || t.after)))
              && (sound ==> Value() == if !t.handled then Translated(t1, reply) else t1.(handled := false, how := Syscall))
    {
      hide Translated;
      var inEnter := status == 0;
      if seccompEnabled {
        if inEnter {
          restartHow, sysexitPending := Syscall, true;
        } else {
          restartHow, sysexitPending := Cont, false;
        }
      }
      if !seccompAlreadyHandledEnter {
        TranslateSyscall(reply);
      } else {
        if inEnter || seccompAfterPtraceEnter {
          return false;
        }
        seccompAlreadyHandledEnter := false;
        restartHow := Syscall;
      }
      sound := true;
    }

    method HandleSeccomp(flag: bool, sysexitNecessary: bool, reply: Reply) returns (sound: bool)
      requires sysexitNecessary == Value().Necessary() && restartHow != Unset
      modifies this
      ensures sound <==> Handled(old(Value()), Seccomp(flag), reply).Some?
      ensures sound ==> Value() == Handled(old(Value()), Seccomp(flag), reply).value
    {
      hide Translated, EnteredAtOnce;
      if !seccompDetected {
        seccompEnabled, seccompDetected := true, true;
        seccompAfterPtraceEnter := status != 0;
      }
      if seccompAfterPtraceEnter && status != 0 {
        restartHow := lastRestartHow;
        return restartHow != Cont;
      }
      if status != 0 {
        return false;
      }
      if !seccompEnabled {
        return true;
      }
      if flag || sysexitNecessary {
        if seccompAfterPtraceEnter {
          restartHow := Syscall;
          TranslateSyscall(reply);
        }
        restartHow := Syscall;
        return true;
      }
      EnterAtOnce(reply);
      return true;
    }

    /** The sysenter stage, handled right now. */
    method EnterAtOnce(reply: Reply)
      modifies this
      ensures Value() == EnteredAtOnce(old(Value()), reply)
    {
      hide Translated;
      restartHow := Cont;
      TranslateSyscall(reply);
      if sysexitPending {
        restartHow := Syscall;
      }
      if !seccompAfterPtraceEnter && restartHow == Syscall {
        seccompAlreadyHandledEnter := true;
      }
    }

    /** restart_tracee(). */
    method Restart()
      modifies this
      ensures Value() == Restarted(old(Value()))
    {
      lastRestartHow := restartHow;
      restartHow := Unset;
    }
  }

  // ----- The kernel -----

  /** Where the tracee is: in user code, between the two stops of a syscall entry, or inside the syscall. */
  datatype Phase = User | Middle(traced: bool, flag: bool) | Inside

  /** What one syscall is due: to have its enter stage translated, and its exit stage.  `forkless` says
  that it cannot fork: that the filter flags it or that its enter handler asked for its exit stop, which they do for no
  syscall that forks; or that it is where PRoot finds out about seccomp, the execve(2) that follows its installation. */
  datatype World = World(newOrder: bool, t: State, phase: Phase, owesEnter: bool, owesExit: bool, forkless: bool)
  {
    /** The mode in which the tracee runs. */
    function Mode(): How {
      t.last
    }
  }

  datatype Step =
    | Begin(traced: bool, flag: bool, reply: Reply)   // a syscall starts; traced: the seccomp filter says so
    | Enter(reply: Reply)                             // the second stop of its entry
    | During(e: Event)                                // an event inside the syscall
    | Finish(reply: Reply)                            // the end of the syscall
    | Delivery                                        // a signal is about to be delivered
    | Elsewhere                                       // another tracee made PRoot detect seccomp

  /** Fork events happen in syscalls that fork. */
  ghost predicate Possible(w: World, s: Step) {
    match s
    case Begin(_, _, _) => w.phase.User?
    case Enter(_) => w.phase.Middle?
    case During(e) => w.phase.Inside? && (e.Passing? || (e.Fork? && !w.forkless))
    case Finish(_) => w.phase.Inside?
    case Delivery => w.phase.User?
    case Elsewhere => true
  }

  /** One event, then the restart of the tracee. */
  function Stop(t: State, e: Event, reply: Reply): Option<State> {
    match Handled(t, e, reply)
    case None => None
    case Some(t') => Some(Restarted(t'))
  }

  function Advance(w: World, t: Option<State>, phase: Phase): Option<World> {
    if t.None? then None else Some(w.(t := t.value, phase := phase))
  }

  /** Whether the syscall that starts is due an exit stage before its handler is asked: under seccomp it is when the
  filter flags it or something is pending, and under plain ptrace always. */
  predicate OwedByFlow(w: World, traced: bool, flag: bool) {
    if traced && !(w.newOrder && w.Mode() == Syscall) && (w.t.enabled || !w.t.detected) then flag || w.t.Necessary()
    else w.Mode() == Syscall
  }

  /** The kernel's next step; None when PRoot aborts. */
  function Next(w: World, s: Step): Option<World> {
    match s
    case Begin(traced, flag, reply) =>
      var t := w.t.(enters := 0, exits := 0);
      var first := w.(t := t, owesEnter := traced || w.Mode() == Syscall, owesExit := OwedByFlow(w, traced, flag),
                       forkless := traced && flag);
      if if w.newOrder then w.Mode() == Syscall else traced then
        Settle(first, Stop(t, if w.newOrder then Trap else Seccomp(flag), reply), Middle(traced, flag), reply)
      else Some(first.(phase := Middle(traced, flag)))
    case Enter(reply) =>
      if if w.newOrder then w.phase.Middle? && w.phase.traced else w.Mode() == Syscall then
        Settle(w, Stop(w.t, if w.newOrder then Seccomp(w.phase.flag) else Trap, reply), Inside, reply)
      else Some(w.(phase := Inside))
    case During(e) => Advance(w, Stop(w.t, e, Reply(false, false, false, 0)), Inside)
    case Finish(reply) =>
      if w.Mode() == Syscall then Advance(w, Stop(w.t, Trap, reply), User) else Some(w.(phase := User))
    case Delivery => Advance(w, Stop(w.t, Signal, Reply(false, false, false, 0)), User)
    case Elsewhere =>
      Some(if w.t.detected then w else w.(t := w.t.(detected := true, after := w.newOrder)))
  }

  /** A stop of a syscall entry: a handler that ran there may ask for the exit stage. */
  function Settle(w: World, t: Option<State>, phase: Phase, reply: Reply): Option<World> {
    if t.None? then None
    else
      var ran := t.value.enters > w.t.enters;
      Some(w.(t := t.value, phase := phase, owesExit := w.owesExit || (ran && reply.asks),
                   forkless := w.forkless || (ran && reply.asks) || (t.value.detected && !w.t.detected)))
  }

  // ----- Exactly once -----

  /** What holds whenever the tracee runs. */
  ghost predicate Common(w: World) {
    && w.t.how == Unset && w.Mode() != Unset
    && (w.t.detected ==> w.t.after == w.newOrder)
    && (w.t.enabled ==> w.t.detected)
    && (!w.t.enabled ==> w.Mode() == Syscall)
    && (w.t.Necessary() ==> w.Mode() == Syscall)
  }

  ghost predicate InUser(w: World) {
    w.t.InEnter() && !w.t.handled
  }

  ghost predicate InMiddle(w: World)
    requires w.phase.Middle?
  {
    && w.t.exits == 0
    && (w.newOrder ==> !w.t.handled)
    && (w.t.handled ==> w.t.enabled && w.t.detected && w.forkless)
    && (w.phase.traced && w.phase.flag ==> w.forkless)
    && (w.owesEnter <==> w.phase.traced || w.Mode() == Syscall || w.t.enters == 1)
    && (if w.t.enters == 0 then
          && w.t.InEnter() && !w.t.handled
          && (if w.newOrder then
                && w.Mode() == Cont
                && (w.phase.traced ==> (w.owesExit <==> w.phase.flag))
                && (!w.phase.traced ==> !w.owesExit)
              else (w.phase.traced ==> w.Mode() == Syscall) && (w.owesExit <==> w.Mode() == Syscall))
        else
          && w.t.enters == 1
          && (!w.t.InEnter() <==> w.Mode() == Syscall)
          && (!w.newOrder ==> (w.t.handled <==> w.Mode() == Syscall))
          && (w.newOrder ==> w.Mode() == Syscall)
          && (w.owesExit <==> w.Mode() == Syscall)
          && Remembered(w))
  }

  /** In a syscall that may fork, what makes an exit stop due is remembered. */
  ghost predicate Remembered(w: World) {
    w.t.enabled && w.Mode() == Syscall && !w.forkless ==> w.t.Necessary()
  }

  ghost predicate InInside(w: World) {
    && !w.t.handled && w.t.exits == 0
    && w.t.enters == (if w.owesEnter then 1 else 0)
    && (!w.t.InEnter() <==> w.Mode() == Syscall)
    && (w.owesExit <==> w.Mode() == Syscall)
    && Remembered(w)
  }

  ghost predicate Inv(w: World) {
    && Common(w)
    && (match w.phase
        case User => InUser(w)
        case Middle(_, _) => InMiddle(w)
        case Inside => InInside(w))
  }

  /** The stages a syscall was due, once it is finished. */
  ghost predicate ExactlyOnce(w: World) {
    && w.t.enters == (if w.owesEnter then 1 else 0)
    && w.t.exits == (if w.owesExit then 1 else 0)
  }

  /** A fork event inside a syscall whose exit stage nothing but the running mode remembers. */
  predicate ForgetsExit(w: World) {
    w.phase.Inside? && w.t.enabled && w.Mode() == Syscall && !w.t.Necessary()
  }

  /** The seccomp event that opens a syscall under the old order. */
  lemma BeginSeccompKeeps(w: World, flag: bool, reply: Reply)
    requires Inv(w) && w.phase.User? && !w.newOrder
    ensures var w' := Next(w, Begin(true, flag, reply)); w'.Some? && Inv(w'.value) && w'.value.newOrder == w.newOrder
  {
    var t := w.t.(enters := 0, exits := 0);
    SeccompFirst(t, flag, reply);
    hide Handled;
  }

  /** What handling it leaves: the enter stage is handled at once, unless the exit stage is due anyway. */
  lemma SeccompFirst(t: State, flag: bool, reply: Reply)
    requires t.InEnter() && !t.handled && t.how == Unset && t.last != Unset && (t.enabled ==> t.detected)
    requires (t.detected ==> !t.after) && (!t.enabled ==> t.last == Syscall)
    ensures var r := Handled(t, Seccomp(flag), reply);
            && r.Some? && r.value.detected && !r.value.after && r.value.exits == t.exits && r.value.how != Unset
            && (if (t.enabled || !t.detected) && !flag && !t.Necessary() then
                  && r.value.enabled && r.value.enters == t.enters + 1
                  && (r.value.how == Syscall <==> reply.asks)
                  && (!r.value.InEnter() <==> reply.asks) && (r.value.handled <==> reply.asks)
                  && (r.value.Necessary() ==> reply.asks)
                else
                  && r.value.enters == t.enters && r.value.InEnter() && !r.value.handled && r.value.how == Syscall)
            && (!r.value.enabled ==> !t.enabled && t.detected)
  {
  }

  /** The enter stop that opens a syscall under the new order. */
  lemma BeginTrapKeeps(w: World, traced: bool, flag: bool, reply: Reply)
    requires Inv(w) && w.phase.User? && w.newOrder && w.Mode() == Syscall
    ensures var w' := Next(w, Begin(traced, flag, reply)); w'.Some? && Inv(w'.value) && w'.value.newOrder == w.newOrder
  {
    var t := w.t.(enters := 0, exits := 0);
    TrapFirst(t, reply);
    hide Handled;
  }

  lemma TrapFirst(t: State, reply: Reply)
    requires t.InEnter() && !t.handled && t.how == Unset
    requires !t.enabled || t.Necessary() || t.last == Syscall
    ensures var r := Handled(t, Trap, reply);
            && r.Some? && r.value.detected == t.detected && r.value.after == t.after && r.value.enabled == t.enabled
            && r.value.exits == t.exits && r.value.enters == t.enters + 1 && r.value.how == Syscall
            && !r.value.InEnter() && !r.value.handled && (t.enabled ==> r.value.Necessary())
  {
  }

  /** No stop at first. */
  lemma BeginSilentlyKeeps(w: World, traced: bool, flag: bool, reply: Reply)
    requires Inv(w) && w.phase.User?
    requires if w.newOrder then w.Mode() == Cont else !traced
    ensures var w' := Next(w, Begin(traced, flag, reply)); w'.Some? && Inv(w'.value) && w'.value.newOrder == w.newOrder
  {
  }

  lemma EnterKeeps(w: World, reply: Reply)
    requires Inv(w) && w.phase.Middle?
    ensures var w' := Next(w, Enter(reply)); w'.Some? && Inv(w'.value) && w'.value.newOrder == w.newOrder
  {
    if w.newOrder {
      if w.phase.traced && w.t.enters == 0 {
        SeccompSecond(w.t, w.phase.flag, reply);
        hide Handled;
      }
    } else if w.Mode() == Syscall && w.t.enters == 0 {
      TrapFirst(w.t, reply);
      hide Handled;
    }
  }

  /** The seccomp event of a syscall that had no enter stop, under the new order. */
  lemma SeccompSecond(t: State, flag: bool, reply: Reply)
    requires t.InEnter() && !t.handled && t.how == Unset && t.last == Cont && t.enabled && t.detected && t.after
    requires !t.Necessary()
    ensures var r := Handled(t, Seccomp(flag), reply);
            && r.Some? && r.value.detected && r.value.after && r.value.enabled && !r.value.handled
            && r.value.exits == t.exits && r.value.enters == t.enters + 1
            && r.value.how == (if flag || reply.asks then Syscall else Cont)
            && (!r.value.InEnter() <==> r.value.how == Syscall)
            && (r.value.Necessary() ==> r.value.how == Syscall)
  {
  }

  lemma DuringKeeps(w: World, e: Event)
    requires Inv(w) && Possible(w, During(e))
    ensures var w' := Next(w, During(e)); w'.Some? && Inv(w'.value)
  {
  }

  /** At the end of a syscall, it had the stages it was due. */
  lemma FinishKeeps(w: World, reply: Reply)
    requires Inv(w) && w.phase.Inside?
    ensures var w' := Next(w, Finish(reply)); w'.Some? && Inv(w'.value) && ExactlyOnce(w'.value)
  {
    if w.Mode() == Syscall {
      TrapLast(w.t, reply);
      hide Handled;
    }
  }

  /** The exit stop. */
  lemma TrapLast(t: State, reply: Reply)
    requires !t.InEnter() && !t.handled && t.how == Unset && (t.enabled ==> t.detected)
    ensures var r := Handled(t, Trap, reply);
            && r.Some? && r.value.detected == t.detected && r.value.after == t.after && r.value.enabled == t.enabled
            && r.value.exits == t.exits + 1 && r.value.enters == t.enters
            && r.value.InEnter() && !r.value.handled && r.value.how != Unset
            && (!r.value.enabled || r.value.Necessary() ==> r.value.how == Syscall)
  {
  }

  lemma OutsideKeeps(w: World, s: Step)
    requires Inv(w) && Possible(w, s) && (s.Delivery? || s.Elsewhere?)
    ensures var w' := Next(w, s);
            && w'.Some? && Inv(w'.value) && w'.value.phase == w.phase
            && (ExactlyOnce(w) ==> ExactlyOnce(w'.value))
  {
  }

  /** Every step keeps the invariant, and PRoot never aborts. */
  lemma StepKeeps(w: World, s: Step)
    requires Inv(w) && Possible(w, s)
    requires w.phase.User? ==> ExactlyOnce(w)
    ensures var w' := Next(w, s); w'.Some? && Inv(w'.value) && (w'.value.phase.User? ==> ExactlyOnce(w'.value))
  {
    hide Inv, ExactlyOnce, OwedByFlow;
    match s
    case Begin(traced, flag, reply) =>
      BeginKeeps(w, traced, flag, reply);
      hide Handled;
    case Enter(reply) =>
      EnterKeeps(w, reply);
      hide Handled;
    case During(e) =>
      DuringKeeps(w, e);
      hide Handled;
    case Finish(reply) =>
      FinishKeeps(w, reply);
    case Delivery =>
      OutsideKeeps(w, s);
    case Elsewhere =>
      OutsideKeeps(w, s);
  }

  lemma BeginKeeps(w: World, traced: bool, flag: bool, reply: Reply)
    requires Inv(w) && w.phase.User?
    ensures var w' := Next(w, Begin(traced, flag, reply)); w'.Some? && Inv(w'.value)
  {
    if if w.newOrder then w.Mode() == Cont else !traced {
      BeginSilentlyKeeps(w, traced, flag, reply);
    } else if w.newOrder {
      assert w.Mode() == Syscall;
      hide Handled, Inv, OwedByFlow;
      BeginTrapKeeps(w, traced, flag, reply);
    } else {
      hide Handled, Inv, OwedByFlow;
      BeginSeccompKeeps(w, flag, reply);
    }
  }

  /** Can the kernel take these steps in turn? */
  ghost predicate Run(w: World, steps: seq<Step>)
    decreases |steps|
  {
    steps != [] ==>
      && Possible(w, steps[0])
      && (Next(w, steps[0]).Some? ==> Run(Next(w, steps[0]).value, steps[1..]))
  }

  function After(w: World, steps: seq<Step>): Option<World>
    decreases |steps|
  {
    if steps == [] then Some(w)
    else
      match Next(w, steps[0])
      case None => None
      case Some(w') => After(w', steps[1..])
  }

  /** A fresh tracee, about to run in user code. */
  lemma FreshTracee(newOrder: bool)
    ensures var w := World(newOrder, State(0, false, Unset, Syscall, false, false, None, false, false, 0, 0), User, false, false, false);
            Inv(w) && ExactlyOnce(w)
  {
  }

  /** Exactly-once interception, over every run of either kernel: no assertion of the source fails, and whenever the
  tracee is back in user code the syscall it has just made had its enter stage translated exactly once when it was
  intercepted at all, and its exit stage exactly once when it was due and never otherwise. */
  lemma {:induction false} Interception(w: World, steps: seq<Step>)
    requires Inv(w) && (w.phase.User? ==> ExactlyOnce(w))
    requires Run(w, steps)
    ensures var r := After(w, steps); r.Some? && Inv(r.value) && (r.value.phase.User? ==> ExactlyOnce(r.value))
    decreases |steps|
  {
    hide Inv, ExactlyOnce, Next, Possible;
    if steps != [] {
      StepKeeps(w, steps[0]);
      Interception(Next(w, steps[0]).value, steps[1..]);
    }
  }

  /** The calls that wait behind a syscall once its exit stage is over: the first one is taken then. */
  function Waiting(chain: Option<nat>, registered: nat): Option<nat> {
    var queued := (if chain.Some? then chain.value else 0) + registered;
    if queued == 0 then None else Some(queued - 1)
  }

  /** What the enter stage reported is known up to the exit stage, whatever happens between them. */
  lemma StatusExact(w: World, s: Step)
    requires Inv(w) && Possible(w, s) && !s.Finish? && Next(w, s).Some?
    ensures var w', enters := Next(w, s).value, if s.Begin? then 0 else w.t.enters;
            if (s.Begin? || s.Enter?) && w'.t.enters > enters then
              w'.t.InEnter() || w'.t.status == (if s.reply.fails then -1 else 1)
            else w'.t.status == w.t.status
  {
    match s
    case Begin(traced, flag, reply) => StatusAfter(w.t.(enters := 0, exits := 0), if w.newOrder then Trap else Seccomp(flag), reply);
    case Enter(reply) =>
      if w.phase.Middle? {
        StatusAfter(w.t, if w.newOrder then Seccomp(w.phase.flag) else Trap, reply);
      }
    case During(e) => StatusUntouched(w.t, e);
    case Delivery => StatusUntouched(w.t, Signal);
    case Elsewhere =>
    hide Handled;
  }

  lemma StatusAfter(t: State, e: Event, reply: Reply)
    requires (e.Trap? || e.Seccomp?) && (t.InEnter() || e.Seccomp? || t.handled)
    ensures var r := Handled(t, e, reply);
            r.Some? ==>
              if r.value.enters > t.enters then r.value.InEnter() || r.value.status == (if reply.fails then -1 else 1)
              else r.value.status == t.status
  {
    hide Translated, EnteredAtOnce, DefaultHow;
    forall t1: State | t1.InEnter() == t.InEnter() && t1.enters == t.enters
      ensures t1.InEnter() ==> StatusOf(Translated(t1, reply), t.enters + 1, reply) && StatusOf(EnteredAtOnce(t1, reply), t.enters + 1, reply)
    {
      TranslatedStatus(t1, reply);
    }
  }

  predicate StatusOf(t: State, enters: nat, reply: Reply) {
    t.enters == enters && (t.InEnter() || t.status == if reply.fails then -1 else 1)
  }

  lemma TranslatedStatus(t: State, reply: Reply)
    ensures t.InEnter() ==> StatusOf(Translated(t, reply), t.enters + 1, reply) && StatusOf(EnteredAtOnce(t, reply), t.enters + 1, reply)
  {
    EnterStageStatus(t, reply);
    EnterStageStatus(t.(how := Cont), reply);
    hide EnterStage, ExitStage;
  }

  lemma EnterStageStatus(t: State, reply: Reply)
    ensures StatusOf(EnterStage(t, reply), t.enters + 1, reply)
  {
  }

  lemma StatusUntouched(t: State, e: Event)
    requires e.Passing? || e.Fork? || e.Signal?
    ensures var r := Handled(t, e, Reply(false, false, false, 0)); r.Some? && r.value.status == t.status
  {
  }

  /** How a tracee runs after its syscall: with seccomp it is not stopped at each syscall any more, unless a handler asked for
  the next stop or there is something to chain; without it, it always is.  A syscall without exit stop changes nothing. */
  lemma FinishExact(w: World, reply: Reply)
    requires Inv(w) && w.phase.Inside? && Next(w, Finish(reply)).Some?
    ensures var w' := Next(w, Finish(reply)).value;
            if w.Mode() == Cont then w' == w.(phase := User)
            else
              && w'.t.chain == Waiting(w.t.chain, reply.registered)
              && (w'.Mode() == Syscall <==> !w.t.enabled || reply.asks || w'.t.chain.Some?)
              && (w'.t.pending <==> (!w.t.enabled && w.t.pending) || (reply.asks && reply.marks))
              && w'.t.enabled == w.t.enabled && w'.t.InEnter()
  {
    if w.Mode() == Syscall {
      TrapExact(w.t, reply);
      hide Handled;
    }
  }

  lemma TrapExact(t: State, reply: Reply)
    requires !t.InEnter() && !t.handled && t.how == Unset
    ensures var r := Handled(t, Trap, reply);
            && r.Some? && r.value.chain == Waiting(t.chain, reply.registered) && r.value.enabled == t.enabled && r.value.InEnter()
            && (r.value.how == Syscall <==> !t.enabled || reply.asks || r.value.chain.Some?)
            && (r.value.pending <==> (!t.enabled && t.pending) || (reply.asks && reply.marks))
  {
  }

  /** Nor does the delivery of a signal, but that the mode is chosen anew: a tracee with nothing pending runs freely. */
  lemma DeliveryExact(w: World)
    requires Inv(w) && w.phase.User?
    ensures var w' := Next(w, Delivery);
            w'.Some? && w'.value == w.(t := w.t.(last := if w.t.enabled && !w.t.pending && w.t.chain.None? then Cont else Syscall))
  {
  }

  /** What keeps the filter from flagging a syscall that forks: were there a fork event inside any syscall that is due
  its exit stage, that stage would be translated just when seccomp is not in use or something pending remembers it. */
  lemma ForkInside(w: World, reply: Reply)
    requires Inv(w) && w.phase.Inside? && w.owesExit
    ensures var r := After(w, [During(Fork), Finish(reply)]);
            r.Some? && r.value.phase.User? && (r.value.t.exits == 1 <==> !ForgetsExit(w))
  {
    var steps := [During(Fork), Finish(reply)];
    var w1 := Next(w, steps[0]).value;
    assert steps[1..] == [Finish(reply)] && [Finish(reply)][1..] == [];
    assert After(w1, steps[1..]) == Next(w1, Finish(reply)) by {
      hide Next;
      assert Next(w1, Finish(reply)).Some? ==> After(Next(w1, Finish(reply)).value, []) == Next(w1, Finish(reply));
    }
    hide After;
    if !ForgetsExit(w) {
      ForkKeeps(w);
      FinishKeeps(w1, reply);
    }
  }

  lemma ForkKeeps(w: World)
    requires Inv(w) && w.phase.Inside? && !ForgetsExit(w)
    ensures var w' := Next(w, During(Fork)); w'.Some? && Inv(w'.value)
  {
  }

  /** The exit stage of a syscall that may fork is never forgotten. */
  lemma ForksRemember(w: World)
    requires Inv(w) && w.phase.Inside? && !w.forkless
    ensures !ForgetsExit(w)
  {
  }
}
