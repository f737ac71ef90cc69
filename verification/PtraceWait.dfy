/** The emulation of ptrace(2) and wait(2) between tracees (ptrace/wait.c, ptrace/ptrace.c, tracee/tracee.c). */
module PtraceWait {
  import opened Basics

  datatype WaitsIn = DoesntWait | WaitsInKernel | WaitsInProot

  /** Among the options of wait(2): __WALL, __WCLONE and WNOHANG. */
  datatype Options = Options(wall: bool, wclone: bool, nohang: bool)

  /** What the emulation knows of a tracee, by its pid.  `pending` is event4.ptracer.pending, `ended` says whether that
  event is a terminating one, and `held` that the tracee was not restarted since.  waitPid is 0 unless the tracee is
  blocked in wait(2). */
  datatype Tracee = Tracee(parent: Option<nat>, clone: bool, ptracer: Option<nat>, pending: bool, ended: bool, held: bool,
                           running: bool, nbPtracees: nat, waitPid: int, options: Options, waitsIn: WaitsIn)

  /** A ptracee that died before its ptracer was told. */
  datatype Zombie = Zombie(pid: nat, parent: Option<nat>, clone: bool, ptracer: nat)

  datatype State = State(tracees: map<nat, Tracee>, zombies: map<nat, Zombie>)

  /** EXPECTED_WAIT_CLONE. */
  predicate ExpectedClone(o: Options, clone: bool) {
    o.wall || (o.wclone && clone) || (!o.wclone && !clone)
  }

  predicate Matches(waitPid: int, pid: nat) {
    waitPid == -1 || waitPid == pid
  }

  ghost function Ptracees(st: State, p: nat): set<nat> {
    set t | t in st.tracees && st.tracees[t].ptracer == Some(p)
  }

  ghost function ZombiesOf(st: State, p: nat): set<nat> {
    set z | z in st.zombies && st.zombies[z].ptracer == p
  }

  /** Pids are positive, and ptracers are live and distinct from their ptracees. */
  ghost predicate Linked(st: State) {
    && 0 !in st.tracees
    && (forall t :: t in st.tracees && st.tracees[t].ptracer.Some? ==>
          st.tracees[t].ptracer.value in st.tracees && st.tracees[t].ptracer.value != t)
    && (forall z :: z in st.zombies ==> st.zombies[z].ptracer in st.tracees && st.zombies[z].pid > 0)
  }

  /** nb_ptracees is the number of tracees and zombies that point to the ptracer. */
  ghost predicate Counted(st: State) {
    forall p :: p in st.tracees ==> st.tracees[p].nbPtracees == |Ptracees(st, p)| + |ZombiesOf(st, p)|
  }

  /** The tracee has something to tell its ptracer. */
  predicate Untold(t: Tracee) {
    t.pending && t.held
  }

  /** A blocked ptracer waits for somebody, and nobody it waits for has something to tell it. */
  ghost predicate NothingMissed(st: State, p: nat)
    requires p in st.tracees
  {
    var P := st.tracees[p];
    P.waitPid != 0 ==>
      && P.nbPtracees > 0
      && (forall t :: t in st.tracees && Awaited(P, p, st.tracees[t], t) ==> !Untold(st.tracees[t]))
      && (forall z :: z in st.zombies ==> !AwaitedZombie(P, p, st.zombies[z]))
  }

  /** Does the ptracer wait for that tracee? */
  predicate Awaited(P: Tracee, p: nat, T: Tracee, t: nat) {
    T.ptracer == Some(p) && Matches(P.waitPid, t) && ExpectedClone(P.options, T.clone)
  }

  predicate AwaitedZombie(P: Tracee, p: nat, Z: Zombie) {
    Z.ptracer == p && Matches(P.waitPid, Z.pid) && ExpectedClone(P.options, Z.clone)
  }

  /** A held tracee does not run, nor does one that is blocked; one that ended is not restarted. */
  ghost predicate Stopped(t: Tracee) {
    && (t.held || t.waitPid != 0 ==> !t.running)
    && (t.pending && t.ended ==> t.held)
  }

  ghost predicate Inv(st: State) {
    && Linked(st) && Counted(st)
    && (forall t :: t in st.tracees ==> Stopped(st.tracees[t]) && NothingMissed(st, t))
  }

  // ----- Attaching and detaching -----

  /** attach_to_ptracer(). */
  function Attached(st: State, t: nat, p: nat): State
    requires t in st.tracees && p in st.tracees && t != p
  {
    var T := st.tracees[t].(ptracer := Some(p), pending := false, ended := false, held := false);
    var P := st.tracees[p].(nbPtracees := st.tracees[p].nbPtracees + 1);
    st.(tracees := st.tracees[t := T][p := P])
  }

  /** detach_from_ptracer(). */
  function Detached(st: State, t: nat): State
    requires t in st.tracees && st.tracees[t].ptracer.Some?
    requires var p := st.tracees[t].ptracer.value; p in st.tracees && p != t && st.tracees[p].nbPtracees > 0
  {
    var p := st.tracees[t].ptracer.value;
    st.(tracees := st.tracees[t := st.tracees[t].(ptracer := None)]
                             [p := st.tracees[p].(nbPtracees := st.tracees[p].nbPtracees - 1)])
  }

  /** The ptracer of a zombie, whose wait(2) collects it. */
  function Buried(st: State, z: nat): State
    requires z in st.zombies && st.zombies[z].ptracer in st.tracees && st.tracees[st.zombies[z].ptracer].nbPtracees > 0
  {
    var p := st.zombies[z].ptracer;
    State(st.tracees[p := st.tracees[p].(nbPtracees := st.tracees[p].nbPtracees - 1)], st.zombies - {z})
  }

  lemma HasPtracee(st: State, p: nat, t: nat)
    requires Counted(st) && Linked(st) && t in st.tracees && st.tracees[t].ptracer == Some(p)
    ensures p in st.tracees && p != t && st.tracees[p].nbPtracees > 0
  {
    assert t in Ptracees(st, p);
  }

  lemma HasZombie(st: State, z: nat)
    requires Counted(st) && Linked(st) && z in st.zombies
    ensures st.zombies[z].ptracer in st.tracees && st.tracees[st.zombies[z].ptracer].nbPtracees > 0
  {
    assert z in ZombiesOf(st, st.zombies[z].ptracer);
  }

  ghost predicate CountIs(st: State, p: nat) {
    p in st.tracees ==> st.tracees[p].nbPtracees == |Ptracees(st, p)| + |ZombiesOf(st, p)|
  }

  lemma AttachedSet(st: State, t: nat, p: nat, q: nat)
    requires t in st.tracees && p in st.tracees && t != p && st.tracees[t].ptracer == None
    ensures Ptracees(Attached(st, t, p), q) == if q == p then Ptracees(st, q) + {t} else Ptracees(st, q)
    ensures ZombiesOf(Attached(st, t, p), q) == ZombiesOf(st, q) && t !in Ptracees(st, p)
  {
    var st' := Attached(st, t, p);
    forall x ensures x in Ptracees(st', q) <==> x in Ptracees(st, q) || (q == p && x == t) {
    }
  }

  lemma AttachedCount(st: State, t: nat, p: nat, q: nat)
    requires CountIs(st, q) && t in st.tracees && p in st.tracees && t != p && st.tracees[t].ptracer == None
    ensures CountIs(Attached(st, t, p), q)
  {
    hide Ptracees, ZombiesOf;
    AttachedSet(st, t, p, q);
    AttachedSet(st, t, p, p);
  }

  lemma AttachedCounts(st: State, t: nat, p: nat)
    requires Counted(st) && t in st.tracees && p in st.tracees && t != p && st.tracees[t].ptracer == None
    ensures Counted(Attached(st, t, p))
  {
    hide Ptracees, ZombiesOf;
    forall q | q in st.tracees ensures CountIs(Attached(st, t, p), q) {
      AttachedCount(st, t, p, q);
    }
  }

  lemma DetachedSet(st: State, t: nat, q: nat)
    requires t in st.tracees && st.tracees[t].ptracer.Some?
    requires var p := st.tracees[t].ptracer.value; p in st.tracees && p != t && st.tracees[p].nbPtracees > 0
    ensures Ptracees(Detached(st, t), q) == if q == st.tracees[t].ptracer.value then Ptracees(st, q) - {t} else Ptracees(st, q)
    ensures ZombiesOf(Detached(st, t), q) == ZombiesOf(st, q) && t in Ptracees(st, st.tracees[t].ptracer.value)
  {
    var st', p := Detached(st, t), st.tracees[t].ptracer.value;
    forall x ensures x in Ptracees(st', q) <==> x in Ptracees(st, q) && !(q == p && x == t) {
    }
  }

  lemma DetachedCount(st: State, t: nat, q: nat)
    requires CountIs(st, q) && t in st.tracees && st.tracees[t].ptracer.Some?
    requires var p := st.tracees[t].ptracer.value; p in st.tracees && p != t && st.tracees[p].nbPtracees > 0
    ensures CountIs(Detached(st, t), q)
  {
    hide Ptracees, ZombiesOf;
    DetachedSet(st, t, q);
    DetachedSet(st, t, st.tracees[t].ptracer.value);
  }

  lemma DetachedCounts(st: State, t: nat)
    requires Counted(st) && Linked(st) && t in st.tracees && st.tracees[t].ptracer.Some?
    ensures var p := st.tracees[t].ptracer.value; p in st.tracees && p != t && st.tracees[p].nbPtracees > 0
    ensures Counted(Detached(st, t))
  {
    HasPtracee(st, st.tracees[t].ptracer.value, t);
    hide Ptracees, ZombiesOf;
    forall q | q in st.tracees ensures CountIs(Detached(st, t), q) {
      DetachedCount(st, t, q);
    }
  }

  lemma BuriedCounts(st: State, z: nat)
    requires Counted(st) && Linked(st) && z in st.zombies
    ensures st.zombies[z].ptracer in st.tracees && st.tracees[st.zombies[z].ptracer].nbPtracees > 0
    ensures Counted(Buried(st, z))
  {
    HasZombie(st, z);
    var st' := Buried(st, z);
    hide Ptracees, ZombiesOf;
    forall q | q in st'.tracees ensures st'.tracees[q].nbPtracees == |Ptracees(st', q)| + |ZombiesOf(st', q)| {
      BuriedSets(st, z, q);
    }
  }

  lemma BuriedSets(st: State, z: nat, q: nat)
    requires z in st.zombies && st.zombies[z].ptracer in st.tracees && st.tracees[st.zombies[z].ptracer].nbPtracees > 0
    ensures Ptracees(Buried(st, z), q) == Ptracees(st, q)
    ensures ZombiesOf(Buried(st, z), q) == ZombiesOf(st, q) - {z}
    ensures z in ZombiesOf(st, q) <==> q == st.zombies[z].ptracer
  {
  }

  /** A change of one tracee that leaves links alone. */
  lemma SameLinksCount(st: State, st': State)
    requires Counted(st) && st'.zombies == st.zombies && st'.tracees.Keys == st.tracees.Keys
    requires forall t :: t in st.tracees ==>
               st'.tracees[t].ptracer == st.tracees[t].ptracer && st'.tracees[t].nbPtracees == st.tracees[t].nbPtracees
    ensures Counted(st')
  {
    forall q | q in st'.tracees ensures st'.tracees[q].nbPtracees == |Ptracees(st', q)| + |ZombiesOf(st', q)| {
      assert Ptracees(st', q) == Ptracees(st, q);
      assert ZombiesOf(st', q) == ZombiesOf(st, q);
    }
  }

  // ----- Steps -----

  /** A ptracee that attaches has nothing to tell yet. */
  lemma AttachKeeps(st: State, t: nat, p: nat)
    requires Inv(st) && t in st.tracees && p in st.tracees && t != p && st.tracees[t].ptracer == None
    ensures Inv(Attached(st, t, p))
  {
    hide Counted;
    AttachedCounts(st, t, p);
    var st' := Attached(st, t, p);
    forall q | q in st'.tracees ensures NothingMissed(st', q) {
      AttachedMisses(st, t, p, q);
    }
  }

  lemma AttachedMisses(st: State, t: nat, p: nat, q: nat)
    requires t in st.tracees && p in st.tracees && t != p && st.tracees[t].ptracer == None
    requires q in st.tracees && NothingMissed(st, q)
    ensures NothingMissed(Attached(st, t, p), q)
  {
  }

  /** update_wait_status(), for a live ptracee: `poked` says whether the status could be written. */
  function Told(st: State, p: nat, t: nat, poked: bool): State
    requires t in st.tracees && st.tracees[t].ptracer == Some(p) && p in st.tracees && p != t && st.tracees[p].nbPtracees > 0
  {
    var T := st.tracees[t];
    if T.ptracer == T.parent && T.ended then Detached(st, t)
    else if !poked then st
    else st.(tracees := st.tracees[t := T.(pending := false)])
  }

  /** update_wait_status(), for a zombie. */
  function ToldZombie(st: State, z: nat, poked: bool): State
    requires z in st.zombies && st.zombies[z].ptracer in st.tracees && st.tracees[st.zombies[z].ptracer].nbPtracees > 0
  {
    var Z := st.zombies[z];
    if Some(Z.ptracer) == Z.parent || poked then Buried(st, z) else st
  }

  /** restart_tracee() on a tracee that is not blocked: it fails on one that ended. */
  function Restarted(T: Tracee, restarts: bool): Tracee {
    if restarts && T.waitPid == 0 && !(T.pending && T.ended) then T.(running := true, held := false) else T
  }

  /** The ptracer is not blocked any more. */
  function Woken(st: State, p: nat, restarts: bool): State
    requires p in st.tracees
  {
    st.(tracees := st.tracees[p := Restarted(st.tracees[p].(waitPid := 0), restarts)])
  }

  /** The event of a ptracee that its ptracer is to know. */
  function Recorded(st: State, t: nat, ended: bool): State
    requires t in st.tracees
  {
    st.(tracees := st.tracees[t := st.tracees[t].(pending := true, ended := ended, held := true, running := false)])
  }

  /** handle_ptracee_event(), past its filters: the ptracer is told at once when it waits for this ptracee, and the
  ptracee is kept stopped for it, unless it ended or the ptracer is dead (`restarts`). */
  function PtraceeEvent(st: State, t: nat, ended: bool, poked: bool, restarts: bool): State
    requires t in st.tracees && st.tracees[t].ptracer.Some?
    requires var p := st.tracees[t].ptracer.value; p in st.tracees && p != t && st.tracees[p].nbPtracees > 0
  {
    var p := st.tracees[t].ptracer.value;
    var st1 := Recorded(st, t, ended);
    if Awaited(st1.tracees[p], p, st1.tracees[t], t) then
      var st2 := Woken(Told(st1, p, t, poked), p, restarts);
      if restarts || ended then st2 else st2.(tracees := st2.tracees[t := Restarted(st2.tracees[t], true)])
    else st1
  }

  // ----- What they keep -----

  /** The invariant, but for what p may be missing. */
  ghost predicate InvBut(st: State, p: nat) {
    && Linked(st) && Counted(st)
    && (forall t :: t in st.tracees ==> Stopped(st.tracees[t]))
    && (forall q :: q in st.tracees && q != p ==> NothingMissed(st, q))
  }

  lemma InvFrom(st: State, p: nat)
    requires InvBut(st, p) && p in st.tracees && NothingMissed(st, p)
    ensures Inv(st)
  {
  }

  /** One tracee changed, and not its links. */
  ghost predicate Changed(st: State, st': State, t: nat) {
    && t in st.tracees && t in st'.tracees && st' == st.(tracees := st.tracees[t := st'.tracees[t]])
    && st'.tracees[t].ptracer == st.tracees[t].ptracer && st'.tracees[t].nbPtracees == st.tracees[t].nbPtracees
    && st'.tracees[t].clone == st.tracees[t].clone
  }

  lemma ChangedKeeps(st: State, st': State, t: nat)
    requires Changed(st, st', t) && Linked(st) && Counted(st)
    ensures Linked(st') && Counted(st')
  {
    SameLinksCount(st, st');
  }

  /** A ptracer that waits as before misses nothing when that tracee has nothing more to tell it. */
  lemma ChangedMisses(st: State, st': State, t: nat, q: nat)
    requires Changed(st, st', t) && q in st.tracees && NothingMissed(st, q)
    requires q == t ==> st'.tracees[t].waitPid == 0 || (st'.tracees[t].waitPid == st.tracees[t].waitPid && st'.tracees[t].options == st.tracees[t].options)
    requires Untold(st'.tracees[t]) ==> Untold(st.tracees[t]) || st.tracees[t].ptracer != Some(q)
    ensures NothingMissed(st', q)
  {
  }

  lemma RecordedKeeps(st: State, t: nat, ended: bool)
    requires Inv(st) && t in st.tracees && st.tracees[t].ptracer.Some?
    ensures InvBut(Recorded(st, t, ended), st.tracees[t].ptracer.value)
  {
    hide Counted, NothingMissed, Linked;
    var st' := Recorded(st, t, ended);
    ChangedKeeps(st, st', t);
    forall q | q in st'.tracees && q != st.tracees[t].ptracer.value ensures NothingMissed(st', q) {
      ChangedMisses(st, st', t, q);
    }
  }

  /** When the ptracer does not wait for it, it misses nothing. */
  lemma RecordedUnawaited(st: State, t: nat, ended: bool, p: nat)
    requires Inv(st) && t in st.tracees && p in st.tracees && p != t
    requires !Awaited(st.tracees[p], p, st.tracees[t], t)
    ensures NothingMissed(Recorded(st, t, ended), p)
  {
    assert NothingMissed(st, p);
  }

  lemma DetachedMisses(st: State, t: nat, q: nat)
    requires t in st.tracees && st.tracees[t].ptracer.Some? && q in st.tracees && NothingMissed(st, q)
    requires var p := st.tracees[t].ptracer.value; p in st.tracees && p != t && st.tracees[p].nbPtracees > 0
    requires q != st.tracees[t].ptracer.value
    ensures NothingMissed(Detached(st, t), q)
  {
  }

  lemma DetachedKeeps(st: State, t: nat)
    requires t in st.tracees && st.tracees[t].ptracer.Some? && InvBut(st, st.tracees[t].ptracer.value)
    ensures var p := st.tracees[t].ptracer.value; p in st.tracees && p != t && st.tracees[p].nbPtracees > 0
    ensures InvBut(Detached(st, t), st.tracees[t].ptracer.value)
  {
    hide Counted, NothingMissed;
    DetachedCounts(st, t);
    forall q | q in st.tracees && q != st.tracees[t].ptracer.value ensures NothingMissed(Detached(st, t), q) {
      DetachedMisses(st, t, q);
    }
  }

  lemma ToldKeeps(st: State, p: nat, t: nat, poked: bool)
    requires InvBut(st, p) && t in st.tracees && st.tracees[t].ptracer == Some(p)
    ensures p in st.tracees && p != t && st.tracees[p].nbPtracees > 0
    ensures InvBut(Told(st, p, t, poked), p) && Told(st, p, t, poked).tracees.Keys == st.tracees.Keys
    ensures Told(st, p, t, poked).tracees[p].waitPid == st.tracees[p].waitPid
  {
    hide Counted, NothingMissed;
    DetachedKeeps(st, t);
    var st' := st.(tracees := st.tracees[t := st.tracees[t].(pending := false)]);
    ChangedKeeps(st, st', t);
    forall q | q in st.tracees && q != p ensures NothingMissed(st', q) {
      ChangedMisses(st, st', t, q);
    }
  }

  lemma BuriedMisses(st: State, z: nat, q: nat)
    requires z in st.zombies && q in st.tracees && NothingMissed(st, q) && q != st.zombies[z].ptracer
    requires st.zombies[z].ptracer in st.tracees && st.tracees[st.zombies[z].ptracer].nbPtracees > 0
    ensures NothingMissed(Buried(st, z), q)
  {
  }

  lemma ToldZombieKeeps(st: State, z: nat, poked: bool)
    requires z in st.zombies && InvBut(st, st.zombies[z].ptracer)
    ensures var p := st.zombies[z].ptracer;
            && p in st.tracees && st.tracees[p].nbPtracees > 0
            && InvBut(ToldZombie(st, z, poked), p) && ToldZombie(st, z, poked).tracees.Keys == st.tracees.Keys
            && ToldZombie(st, z, poked).tracees[p].waitPid == st.tracees[p].waitPid
  {
    hide Counted, NothingMissed;
    BuriedCounts(st, z);
    forall q | q in st.tracees && q != st.zombies[z].ptracer ensures NothingMissed(Buried(st, z), q) {
      BuriedMisses(st, z, q);
    }
  }

  /** A ptracer that is not blocked misses nothing. */
  lemma Unblocked(st: State, p: nat)
    requires InvBut(st, p) && p in st.tracees && st.tracees[p].waitPid == 0
    ensures Inv(st)
  {
    assert NothingMissed(st, p);
    InvFrom(st, p);
  }

  lemma WokenKeeps(st: State, p: nat, restarts: bool)
    requires InvBut(st, p) && p in st.tracees
    ensures Inv(Woken(st, p, restarts))
  {
    hide Counted, NothingMissed;
    var st' := Woken(st, p, restarts);
    ChangedKeeps(st, st', p);
    forall q | q in st.tracees && q != p ensures NothingMissed(st', q) {
      ChangedMisses(st, st', p, q);
    }
    Unblocked(st', p);
  }

  /** restart_tracee(), whoever asks for it. */
  lemma RestartKeeps(st: State, t: nat, restarts: bool)
    requires Inv(st) && t in st.tracees
    ensures Inv(st.(tracees := st.tracees[t := Restarted(st.tracees[t], restarts)]))
  {
    hide Counted, NothingMissed, Linked;
    var st' := st.(tracees := st.tracees[t := Restarted(st.tracees[t], restarts)]);
    ChangedKeeps(st, st', t);
    forall q | q in st.tracees ensures NothingMissed(st', q) {
      ChangedMisses(st, st', t, q);
    }
  }

  lemma EventKeeps(st: State, t: nat, ended: bool, poked: bool, restarts: bool)
    requires Inv(st) && t in st.tracees && st.tracees[t].ptracer.Some?
    ensures var p := st.tracees[t].ptracer.value; p in st.tracees && p != t && st.tracees[p].nbPtracees > 0
    ensures Inv(PtraceeEvent(st, t, ended, poked, restarts))
  {
    hide Counted, NothingMissed, Linked;
    var p := st.tracees[t].ptracer.value;
    HasPtracee(st, p, t) by { InvLinked(st); }
    RecordedKeeps(st, t, ended);
    var st1 := Recorded(st, t, ended);
    if Awaited(st1.tracees[p], p, st1.tracees[t], t) {
      ToldKeeps(st1, p, t, poked);
      WokenKeeps(Told(st1, p, t, poked), p, restarts);
      RestartKeeps(Woken(Told(st1, p, t, poked), p, restarts), t, true);
    } else {
      RecordedUnawaited(st, t, ended, p);
      InvFrom(st1, p);
    }
  }

  lemma InvLinked(st: State)
    requires Inv(st)
    ensures Linked(st) && Counted(st)
  {
  }

  // ----- Waiting -----

  /** Whom a wait(2) is about. */
  datatype Candidate = Nobody | Live(t: nat) | Dead(z: nat)

  predicate Candidates(st: State, p: nat, pid: int, o: Options, t: nat) {
    && t in st.tracees && st.tracees[t].ptracer == Some(p) && Matches(pid, t) && ExpectedClone(o, st.tracees[t].clone)
    && !st.tracees[t].running && st.tracees[t].pending
  }

  predicate DeadCandidates(st: State, p: nat, pid: int, o: Options, z: nat) {
    z in st.zombies && st.zombies[z].ptracer == p && Matches(pid, st.zombies[z].pid) && ExpectedClone(o, st.zombies[z].clone)
  }

  /** What get_stopped_ptracee() finds. */
  ghost predicate Finds(st: State, p: nat, pid: int, o: Options, c: Candidate) {
    match c
    case Live(t) => Candidates(st, p, pid, o, t)
    case Dead(z) => DeadCandidates(st, p, pid, o, z)
    case Nobody => (forall t :: !Candidates(st, p, pid, o, t)) && (forall z :: !DeadCandidates(st, p, pid, o, z))
  }

  /** translate_wait_exit(), of a ptracer in its exit stage: it is told about the one found, or blocks. */
  function WaitExited(st: State, p: nat, pid: int, o: Options, poked: bool, c: Candidate): State
    requires p in st.tracees
  {
    var st0 := st.(tracees := st.tracees[p := st.tracees[p].(waitsIn := DoesntWait)]);
    match c
    case Live(t) =>
      if t in st0.tracees && st0.tracees[t].ptracer == Some(p) && p != t && st0.tracees[p].nbPtracees > 0 then Told(st0, p, t, poked)
      else st0
    case Dead(z) =>
      if z in st0.zombies && st0.zombies[z].ptracer == p && st0.tracees[p].nbPtracees > 0 then ToldZombie(st0, z, poked) else st0
    case Nobody =>
      if st.tracees[p].nbPtracees == 0 || o.nohang then st0
      else st0.(tracees := st0.tracees[p := st0.tracees[p].(waitPid := pid, options := o)])
  }

  lemma WaitingKeeps(st: State, p: nat)
    requires Inv(st) && p in st.tracees
    ensures Inv(st.(tracees := st.tracees[p := st.tracees[p].(waitsIn := DoesntWait)]))
  {
    hide Counted, NothingMissed, Linked;
    var st' := st.(tracees := st.tracees[p := st.tracees[p].(waitsIn := DoesntWait)]);
    ChangedKeeps(st, st', p);
    forall q | q in st.tracees ensures NothingMissed(st', q) {
      ChangedMisses(st, st', p, q);
    }
  }

  /** One tracee changed, and what it misses is known. */
  lemma ChangedInv(st: State, st': State, t: nat)
    requires Inv(st) && Changed(st, st', t) && Stopped(st'.tracees[t]) && NothingMissed(st', t)
    requires Untold(st'.tracees[t]) ==> Untold(st.tracees[t])
    ensures Inv(st')
  {
    hide Counted, Linked, NothingMissed;
    ChangedKeeps(st, st', t);
    forall q | q in st.tracees && q != t ensures NothingMissed(st', q) {
      ChangedMisses(st, st', t, q);
    }
  }

  /** Nobody has anything to tell: the ptracer may block. */
  lemma BlockingKeeps(st: State, p: nat, pid: int, o: Options)
    requires Inv(st) && p in st.tracees && st.tracees[p].waitPid == 0 && !st.tracees[p].running
    requires Finds(st, p, pid, o, Nobody) && st.tracees[p].nbPtracees > 0
    ensures Inv(st.(tracees := st.tracees[p := st.tracees[p].(waitPid := pid, options := o)]))
  {
    hide Inv, NothingMissed, Finds;
    InvStopped(st, p);
    BlockedMissesNothing(st, p, pid, o);
    ChangedInv(st, st.(tracees := st.tracees[p := st.tracees[p].(waitPid := pid, options := o)]), p);
  }

  lemma InvStopped(st: State, t: nat)
    requires Inv(st) && t in st.tracees
    ensures Stopped(st.tracees[t])
  {
  }

  lemma BlockedMissesNothing(st: State, p: nat, pid: int, o: Options)
    requires Inv(st) && p in st.tracees && Finds(st, p, pid, o, Nobody) && st.tracees[p].nbPtracees > 0
    ensures NothingMissed(st.(tracees := st.tracees[p := st.tracees[p].(waitPid := pid, options := o)]), p)
  {
    var st' := st.(tracees := st.tracees[p := st.tracees[p].(waitPid := pid, options := o)]);
    hide Counted;
    forall t | t in st'.tracees && Awaited(st'.tracees[p], p, st'.tracees[t], t) ensures !Untold(st'.tracees[t]) {
      assert !Candidates(st, p, pid, o, t) && Stopped(st.tracees[t]);
    }
    forall z | z in st'.zombies ensures !AwaitedZombie(st'.tracees[p], p, st'.zombies[z]) {
      assert !DeadCandidates(st, p, pid, o, z);
    }
  }

  lemma FindsStays(st: State, p: nat, pid: int, o: Options)
    requires p in st.tracees && Finds(st, p, pid, o, Nobody)
    ensures Finds(st.(tracees := st.tracees[p := st.tracees[p].(waitsIn := DoesntWait)]), p, pid, o, Nobody)
  {
    var st' := st.(tracees := st.tracees[p := st.tracees[p].(waitsIn := DoesntWait)]);
    forall t ensures !Candidates(st', p, pid, o, t) {
      assert !Candidates(st, p, pid, o, t);
    }
    forall z ensures !DeadCandidates(st', p, pid, o, z) {
      assert !DeadCandidates(st, p, pid, o, z);
    }
  }

  lemma WaitKeeps(st: State, p: nat, pid: int, o: Options, poked: bool, c: Candidate)
    requires Inv(st) && p in st.tracees && st.tracees[p].waitPid == 0 && !st.tracees[p].running && Finds(st, p, pid, o, c)
    ensures Inv(WaitExited(st, p, pid, o, poked, c))
  {
    hide Counted, NothingMissed, Linked, Finds, Told, ToldZombie;
    var st0 := st.(tracees := st.tracees[p := st.tracees[p].(waitsIn := DoesntWait)]);
    WaitingKeeps(st, p);
    match c
    case Live(t) =>
      if t in st0.tracees && st0.tracees[t].ptracer == Some(p) && p != t && st0.tracees[p].nbPtracees > 0 {
        ToldKeeps(st0, p, t, poked);
        Unblocked(Told(st0, p, t, poked), p);
      }
    case Dead(z) =>
      if z in st0.zombies && st0.zombies[z].ptracer == p && st0.tracees[p].nbPtracees > 0 {
        ToldZombieKeeps(st0, z, poked);
        Unblocked(ToldZombie(st0, z, poked), p);
      }
    case Nobody =>
      FindsStays(st, p, pid, o);
      if !(st.tracees[p].nbPtracees == 0 || o.nohang) {
        BlockingKeeps(st0, p, pid, o);
      }
  }

  // ----- The end of a tracee -----

  /** What remove_tracee() does to the others: children and ptracees of t are on their own. */
  function Orphaned(T: Tracee, t: nat): Tracee {
    var T1 := if T.parent == Some(t) then T.(parent := None) else T;
    if T.ptracer == Some(t) then
      T1.(ptracer := None, pending := false, ended := false, held := false,
          running := T.running || (T.pending && T.waitPid == 0 && !T.ended))
    else T1
  }

  /** Without t, its ptracees, and its zombies: they go with it. */
  function Bereft(st: State, t: nat): State {
    State(map r | r in st.tracees && r != t :: Orphaned(st.tracees[r], t),
          map z | z in st.zombies && st.zombies[z].ptracer != t :: st.zombies[z])
  }

  /** remove_tracee(): t becomes a zombie until its ptracer knows about its end; otherwise the ptracer is told that
  nobody is left to wait for, if so. */
  function Removed(st: State, t: nat, z: nat, restarts: bool): State
    requires t in st.tracees
  {
    var T, st1 := st.tracees[t], Bereft(st, t);
    if T.ptracer.None? || T.ptracer.value !in st1.tracees || st1.tracees[T.ptracer.value].nbPtracees == 0 then st1
    else
      var p := T.ptracer.value;
      if T.pending && T.ended then st1.(zombies := st1.zombies[z := Zombie(t, T.parent, T.clone, p)])
      else
        var st2 := st1.(tracees := st1.tracees[p := st1.tracees[p].(nbPtracees := st1.tracees[p].nbPtracees - 1)]);
        if st2.tracees[p].nbPtracees == 0 && st2.tracees[p].waitPid != 0 then Woken(st2, p, restarts) else st2
  }

  lemma OrphanedKeeps(T: Tracee, t: nat)
    ensures var T' := Orphaned(T, t);
            && T'.waitPid == T.waitPid && T'.options == T.options && T'.clone == T.clone && T'.nbPtracees == T.nbPtracees
            && T'.ptracer == (if T.ptracer == Some(t) then None else T.ptracer)
            && (Untold(T') ==> Untold(T)) && (Stopped(T) ==> Stopped(T'))
  {
  }

  lemma BereftAt(st: State, t: nat)
    ensures forall q :: q in Bereft(st, t).tracees <==> q in st.tracees && q != t
    ensures forall q :: q in st.tracees && q != t ==> Bereft(st, t).tracees[q] == Orphaned(st.tracees[q], t)
    ensures forall z :: z in Bereft(st, t).zombies <==> z in st.zombies && st.zombies[z].ptracer != t
    ensures forall z :: z in Bereft(st, t).zombies ==> Bereft(st, t).zombies[z] == st.zombies[z]
  {
  }

  lemma BereftSets(st: State, t: nat, q: nat)
    requires q != t
    ensures Ptracees(Bereft(st, t), q) == Ptracees(st, q) - {t} && ZombiesOf(Bereft(st, t), q) == ZombiesOf(st, q)
  {
    var st' := Bereft(st, t);
    forall x ensures x in Ptracees(st', q) <==> x in Ptracees(st, q) && x != t {
    }
    forall x ensures x in ZombiesOf(st', q) <==> x in ZombiesOf(st, q) {
    }
  }

  /** Links, stops and the others' waits survive the loss of t. */
  lemma BereftKeeps(st: State, t: nat)
    requires Inv(st) && t in st.tracees
    ensures Linked(Bereft(st, t))
    ensures forall q :: q in Bereft(st, t).tracees ==> Stopped(Bereft(st, t).tracees[q]) && NothingMissed(Bereft(st, t), q)
  {
    hide Bereft, Orphaned, Counted, Stopped;
    BereftAt(st, t);
    var st' := Bereft(st, t);
    forall q | q in st'.tracees ensures Stopped(st'.tracees[q]) && NothingMissed(st', q) {
      OrphanedKeeps(st.tracees[q], t);
      BereftMisses(st, t, q);
    }
    forall q | q in st'.tracees && st'.tracees[q].ptracer.Some?
      ensures st'.tracees[q].ptracer.value in st'.tracees && st'.tracees[q].ptracer.value != q
    {
      OrphanedKeeps(st.tracees[q], t);
    }
  }

  lemma BereftMisses(st: State, t: nat, q: nat)
    requires q in st.tracees && q != t && NothingMissed(st, q) && q in Bereft(st, t).tracees
    ensures NothingMissed(Bereft(st, t), q)
  {
    hide Bereft, Orphaned, Untold;
    BereftAt(st, t);
    OrphanedKeeps(st.tracees[q], t);
    var st' := Bereft(st, t);
    if st.tracees[q].waitPid != 0 {
      forall r | r in st'.tracees && Awaited(st'.tracees[q], q, st'.tracees[r], r) ensures !Untold(st'.tracees[r]) {
        OrphanedKeeps(st.tracees[r], t);
        assert Awaited(st.tracees[q], q, st.tracees[r], r);
      }
      forall z | z in st'.zombies ensures !AwaitedZombie(st'.tracees[q], q, st'.zombies[z]) {
        assert !AwaitedZombie(st.tracees[q], q, st.zombies[z]);
      }
    }
  }

  /** Nobody else counts t. */
  lemma BereftCounts(st: State, t: nat, q: nat)
    requires Linked(st) && Counted(st) && t in st.tracees && q in st.tracees && q != t
    ensures q in Bereft(st, t).tracees
    ensures Bereft(st, t).tracees[q].nbPtracees ==
            |Ptracees(Bereft(st, t), q)| + |ZombiesOf(Bereft(st, t), q)| + (if st.tracees[t].ptracer == Some(q) then 1 else 0)
  {
    BereftAt(st, t);
    OrphanedKeeps(st.tracees[q], t);
    BereftSets(st, t, q);
    assert t in Ptracees(st, q) <==> st.tracees[t].ptracer == Some(q);
    hide Bereft, Orphaned, Ptracees, ZombiesOf;
  }

  /** t, which its ptracer p counted, becomes a zombie that p counts. */
  lemma ZombifiedKeeps(st: State, t: nat, z: nat, p: nat)
    requires Inv(st) && t in st.tracees && st.tracees[t].ptracer == Some(p) && z !in st.zombies
    requires st.tracees[t].pending && st.tracees[t].ended
    ensures Inv(Removed(st, t, z, true)) && Inv(Removed(st, t, z, false))
  {
    hide Removed, Bereft, Orphaned, Ptracees, ZombiesOf, NothingMissed, Counted, Stopped, Awaited, AwaitedZombie;
    var st1, T := Bereft(st, t), st.tracees[t];
    HasPtracee(st, p, t);
    BereftKeeps(st, t);
    BereftAt(st, t);
    RemovedZombie(st, t, z, p, true);
    RemovedZombie(st, t, z, p, false);
    var Z := Zombie(t, T.parent, T.clone, p);
    var st' := st1.(zombies := st1.zombies[z := Z]);
    ZombieUnawaited(st, t, p, Z);
    forall q | q in st'.tracees ensures CountIs(st', q) && NothingMissed(st', q) {
      BereftCounts(st, t, q);
      ZombieCounts(st1, st', z, q);
      ZombieMisses(st1, st', z, q, p);
    }
    CountedFrom(st');
  }

  lemma CountedFrom(st: State)
    requires forall q :: q in st.tracees ==> CountIs(st, q)
    ensures Counted(st)
  {
  }

  lemma RemovedZombie(st: State, t: nat, z: nat, p: nat, restarts: bool)
    requires Inv(st) && t in st.tracees && st.tracees[t].ptracer == Some(p) && st.tracees[t].pending && st.tracees[t].ended
    ensures Removed(st, t, z, restarts) ==
            Bereft(st, t).(zombies := Bereft(st, t).zombies[z := Zombie(t, st.tracees[t].parent, st.tracees[t].clone, p)])
  {
    hide Bereft, Orphaned;
    HasPtracee(st, p, t);
    BereftAt(st, t);
    OrphanedKeeps(st.tracees[p], t);
  }

  /** Its ptracer was not waiting for it, or it would have been told. */
  lemma ZombieUnawaited(st: State, t: nat, p: nat, Z: Zombie)
    requires Inv(st) && t in st.tracees && st.tracees[t].ptracer == Some(p) && st.tracees[t].pending && st.tracees[t].ended
    requires Z.pid == t && Z.clone == st.tracees[t].clone && Z.ptracer == p
    ensures p in st.tracees && p != t && p in Bereft(st, t).tracees
    ensures Bereft(st, t).tracees[p].waitPid != 0 ==> !AwaitedZombie(Bereft(st, t).tracees[p], p, Z)
  {
    hide Bereft, Orphaned, Counted;
    HasPtracee(st, p, t);
    BereftAt(st, t);
    OrphanedKeeps(st.tracees[p], t);
    assert NothingMissed(st, p) && Stopped(st.tracees[t]);
  }

  lemma ZombieSets(st1: State, st': State, z: nat, q: nat)
    requires z !in st1.zombies && z in st'.zombies && st' == st1.(zombies := st1.zombies[z := st'.zombies[z]])
    ensures ZombiesOf(st', q) == (if st'.zombies[z].ptracer == q then ZombiesOf(st1, q) + {z} else ZombiesOf(st1, q)) && z !in ZombiesOf(st1, q)
  {
    forall x ensures x in ZombiesOf(st', q) <==> x in ZombiesOf(st1, q) || (x == z && st'.zombies[z].ptracer == q) {
    }
  }

  lemma ZombieCounts(st1: State, st': State, z: nat, q: nat)
    requires z !in st1.zombies && z in st'.zombies && st' == st1.(zombies := st1.zombies[z := st'.zombies[z]])
    ensures Ptracees(st', q) == Ptracees(st1, q)
    ensures |ZombiesOf(st', q)| == |ZombiesOf(st1, q)| + (if st'.zombies[z].ptracer == q then 1 else 0)
  {
    assert Ptracees(st', q) == Ptracees(st1, q);
    ZombieSets(st1, st', z, q);
    hide ZombiesOf;
  }

  lemma ZombieMisses(st1: State, st': State, z: nat, q: nat, p: nat)
    requires z !in st1.zombies && z in st'.zombies && st' == st1.(zombies := st1.zombies[z := st'.zombies[z]])
    requires q in st1.tracees && NothingMissed(st1, q) && st'.zombies[z].ptracer == p
    requires q == p && st1.tracees[q].waitPid != 0 ==> !AwaitedZombie(st1.tracees[q], p, st'.zombies[z])
    ensures NothingMissed(st', q)
  {
  }

  /** t, which its ptracer p counted, is gone; p is woken when that was its last ptracee. */
  lemma ForgottenKeeps(st: State, t: nat, z: nat, p: nat, restarts: bool)
    requires Inv(st) && t in st.tracees && st.tracees[t].ptracer == Some(p) && !(st.tracees[t].pending && st.tracees[t].ended)
    ensures Inv(Removed(st, t, z, restarts))
  {
    hide Removed, Bereft, Orphaned, Ptracees, ZombiesOf, NothingMissed, Counted, Stopped;
    var st1 := Bereft(st, t);
    HasPtracee(st, p, t);
    BereftKeeps(st, t);
    BereftAt(st, t);
    RemovedPlain(st, t, z, p, restarts);
    var st2 := LessOne(st1, p);
    forall q | q in st2.tracees ensures CountIs(st2, q) && (q != p ==> NothingMissed(st2, q)) {
      BereftCounts(st, t, q);
      LessOneSets(st1, st2, p, q);
      LessOneMisses(st1, st2, p, q);
    }
    CountedFrom(st2);
    LessOneStops(st1, p);
    if st2.tracees[p].nbPtracees == 0 && st2.tracees[p].waitPid != 0 {
      WokenKeeps(st2, p, restarts);
    } else {
      StillMissesNothing(st1, st2, p);
      InvFrom(st2, p);
    }
  }

  function LessOne(st: State, p: nat): State
    requires p in st.tracees && st.tracees[p].nbPtracees > 0
  {
    st.(tracees := st.tracees[p := st.tracees[p].(nbPtracees := st.tracees[p].nbPtracees - 1)])
  }

  lemma LessOneStops(st: State, p: nat)
    requires p in st.tracees && st.tracees[p].nbPtracees > 0
    requires forall q :: q in st.tracees ==> Stopped(st.tracees[q])
    ensures forall q :: q in LessOne(st, p).tracees ==> Stopped(LessOne(st, p).tracees[q])
    ensures Linked(st) ==> Linked(LessOne(st, p))
  {
  }

  lemma RemovedPlain(st: State, t: nat, z: nat, p: nat, restarts: bool)
    requires Inv(st) && t in st.tracees && st.tracees[t].ptracer == Some(p) && !(st.tracees[t].pending && st.tracees[t].ended)
    ensures p in Bereft(st, t).tracees && Bereft(st, t).tracees[p].nbPtracees > 0
    ensures var st2 := LessOne(Bereft(st, t), p);
            Removed(st, t, z, restarts) ==
            if st2.tracees[p].nbPtracees == 0 && st2.tracees[p].waitPid != 0 then Woken(st2, p, restarts) else st2
  {
    hide Bereft, Orphaned;
    HasPtracee(st, p, t);
    BereftAt(st, t);
    OrphanedKeeps(st.tracees[p], t);
  }

  lemma LessOneSets(st1: State, st2: State, p: nat, q: nat)
    requires p in st1.tracees && p in st2.tracees && st2 == st1.(tracees := st1.tracees[p := st2.tracees[p]])
    requires st2.tracees[p].ptracer == st1.tracees[p].ptracer
    ensures Ptracees(st2, q) == Ptracees(st1, q) && ZombiesOf(st2, q) == ZombiesOf(st1, q)
  {
  }

  lemma LessOneMisses(st1: State, st2: State, p: nat, q: nat)
    requires p in st1.tracees && st1.tracees[p].nbPtracees > 0 && q in st1.tracees && NothingMissed(st1, q)
    requires st2 == st1.(tracees := st1.tracees[p := st1.tracees[p].(nbPtracees := st1.tracees[p].nbPtracees - 1)])
    ensures q != p ==> NothingMissed(st2, q)
  {
  }

  lemma StillMissesNothing(st1: State, st2: State, p: nat)
    requires p in st1.tracees && st1.tracees[p].nbPtracees > 0 && NothingMissed(st1, p)
    requires st2 == st1.(tracees := st1.tracees[p := st1.tracees[p].(nbPtracees := st1.tracees[p].nbPtracees - 1)])
    requires st2.tracees[p].nbPtracees > 0 || st2.tracees[p].waitPid == 0
    ensures NothingMissed(st2, p)
  {
  }

  lemma RemovedKeeps(st: State, t: nat, z: nat, restarts: bool)
    requires Inv(st) && t in st.tracees && z !in st.zombies
    ensures Inv(Removed(st, t, z, restarts))
  {
    var T := st.tracees[t];
    if T.ptracer.None? {
      AloneKeeps(st, t);
      assert Removed(st, t, z, restarts) == Bereft(st, t);
    } else if T.pending && T.ended {
      ZombifiedKeeps(st, t, z, T.ptracer.value);
    } else {
      ForgottenKeeps(st, t, z, T.ptracer.value, restarts);
    }
    hide Inv, Removed;
  }

  lemma AloneKeeps(st: State, t: nat)
    requires Inv(st) && t in st.tracees && st.tracees[t].ptracer.None?
    ensures Inv(Bereft(st, t))
  {
    BereftKeeps(st, t);
    BereftAt(st, t);
    hide Bereft, Ptracees, ZombiesOf, NothingMissed;
    forall q | q in Bereft(st, t).tracees ensures CountIs(Bereft(st, t), q) {
      BereftCounts(st, t, q);
    }
  }

  // ----- Runs -----

  /** new_tracee(), then new_child(). */
  function Born(st: State, t: nat, parent: Option<nat>, clone: bool): State {
    st.(tracees := st.tracees[t := Tracee(parent, clone, None, false, false, false, true, 0, 0, Options(false, false, false), DoesntWait)])
  }

  lemma BornKeeps(st: State, t: nat, parent: Option<nat>, clone: bool)
    requires Inv(st) && t !in st.tracees && t > 0
    ensures Inv(Born(st, t, parent, clone))
  {
    var st' := Born(st, t, parent, clone);
    BornCounts(st, t, parent, clone);
    hide Counted;
    BornLinks(st, t, parent, clone);
    hide Linked, NothingMissed, Born;
    forall q | q in st'.tracees ensures NothingMissed(st', q) {
      BornMisses(st, t, parent, clone, q);
    }
  }

  lemma BornLinks(st: State, t: nat, parent: Option<nat>, clone: bool)
    requires Inv(st) && t !in st.tracees && t > 0
    ensures Linked(Born(st, t, parent, clone))
    ensures forall q :: q in Born(st, t, parent, clone).tracees ==> Stopped(Born(st, t, parent, clone).tracees[q])
  {
    hide Counted, NothingMissed;
  }

  lemma BornMisses(st: State, t: nat, parent: Option<nat>, clone: bool, q: nat)
    requires Inv(st) && t !in st.tracees && q in Born(st, t, parent, clone).tracees
    ensures NothingMissed(Born(st, t, parent, clone), q)
  {
    hide Counted, Linked;
    assert q != t ==> NothingMissed(st, q);
  }

  lemma BornCounts(st: State, t: nat, parent: Option<nat>, clone: bool)
    requires Linked(st) && Counted(st) && t !in st.tracees
    ensures Counted(Born(st, t, parent, clone))
  {
    var st' := Born(st, t, parent, clone);
    forall q | q in st'.tracees ensures CountIs(st', q) {
      assert Ptracees(st', q) == Ptracees(st, q) && ZombiesOf(st', q) == ZombiesOf(st, q);
      if q == t {
        NobodyPoints(st, t);
      }
    }
  }

  lemma NobodyPoints(st: State, t: nat)
    requires Linked(st) && t !in st.tracees
    ensures Ptracees(st, t) == {} && ZombiesOf(st, t) == {}
  {
  }

  /** A ptracer restarts a stopped ptracee, or detaches from it first. */
  function Resumed(st: State, p: nat, t: nat, detaches: bool): State
    requires t in st.tracees && st.tracees[t].ptracer == Some(p) && p in st.tracees && p != t && st.tracees[p].nbPtracees > 0
  {
    var st1 := if detaches then Detached(st, t) else st;
    st1.(tracees := st1.tracees[t := Restarted(st1.tracees[t], true)])
  }

  lemma ResumeKeeps(st: State, p: nat, t: nat, detaches: bool)
    requires Inv(st) && t in st.tracees && st.tracees[t].ptracer == Some(p) && p in st.tracees && st.tracees[p].waitPid == 0
    ensures p != t && st.tracees[p].nbPtracees > 0 && Inv(Resumed(st, p, t, detaches))
  {
    hide NothingMissed, Counted, Linked;
    HasPtracee(st, p, t) by { InvLinked(st); }
    var st1 := if detaches then Detached(st, t) else st;
    if detaches {
      DetachedKeeps(st, t);
      Unblocked(st1, p);
    }
    RestartKeeps(st1, t, true);
  }

  /** A stop that is none of its ptracer's business. */
  lemma StopKeeps(st: State, t: nat)
    requires Inv(st) && t in st.tracees
    ensures Inv(st.(tracees := st.tracees[t := st.tracees[t].(running := false)]))
  {
    hide Counted, NothingMissed, Linked;
    var st' := st.(tracees := st.tracees[t := st.tracees[t].(running := false)]);
    ChangedKeeps(st, st', t);
    forall q | q in st.tracees ensures NothingMissed(st', q) {
      ChangedMisses(st, st', t, q);
    }
  }

  /** What may happen next, and all the choices of the kernel and of the tracees. */
  datatype Step =
    | Birth(t: nat, parent: Option<nat>, clone: bool)
    | Attach(t: nat, p: nat)                                       // TRACEME, ATTACH, or inherited
    | Event(t: nat, ended: bool, poked: bool, restarts: bool)      // one its ptracer is to know
    | Stop(t: nat)                                                 // any other stop
    | Restart(t: nat, restarts: bool)
    | Wait(p: nat, pid: int, o: Options, poked: bool, c: Candidate) // the exit stage of an emulated wait(2)
    | Resume(p: nat, t: nat, detaches: bool)                       // a ptrace(2) request
    | Death(t: nat, z: nat, restarts: bool)

  ghost predicate Possible(st: State, s: Step) {
    match s
    case Birth(t, _, _) => t !in st.tracees && t > 0
    case Attach(t, p) => t in st.tracees && p in st.tracees && t != p && st.tracees[t].ptracer == None
    case Event(t, _, _, _) => t in st.tracees && st.tracees[t].ptracer.Some?
    case Stop(t) => t in st.tracees
    case Restart(t, _) => t in st.tracees
    case Wait(p, pid, o, _, c) =>
      p in st.tracees && st.tracees[p].waitPid == 0 && !st.tracees[p].running && Finds(st, p, pid, o, c)
    case Resume(p, t, _) => t in st.tracees && st.tracees[t].ptracer == Some(p) && p in st.tracees && st.tracees[p].waitPid == 0
    case Death(t, z, _) => t in st.tracees && z !in st.zombies
  }

  ghost function Next(st: State, s: Step): State
    requires Inv(st) && Possible(st, s)
  {
    match s
    case Birth(t, parent, clone) => Born(st, t, parent, clone)
    case Attach(t, p) => Attached(st, t, p)
    case Event(t, ended, poked, restarts) => HasPtracee(st, st.tracees[t].ptracer.value, t); PtraceeEvent(st, t, ended, poked, restarts)
    case Stop(t) => st.(tracees := st.tracees[t := st.tracees[t].(running := false)])
    case Restart(t, restarts) => st.(tracees := st.tracees[t := Restarted(st.tracees[t], restarts)])
    case Wait(p, pid, o, poked, c) => WaitExited(st, p, pid, o, poked, c)
    case Resume(p, t, detaches) => HasPtracee(st, p, t); Resumed(st, p, t, detaches)
    case Death(t, z, restarts) => Removed(st, t, z, restarts)
  }

  lemma StepKeeps(st: State, s: Step)
    requires Inv(st) && Possible(st, s)
    ensures Inv(Next(st, s))
  {
    hide Inv, Removed, WaitExited, PtraceeEvent, Resumed, Born, Attached, Restarted;
    match s
    case Birth(t, parent, clone) => BornKeeps(st, t, parent, clone);
    case Attach(t, p) => AttachKeeps(st, t, p);
    case Event(t, ended, poked, restarts) => EventKeeps(st, t, ended, poked, restarts);
    case Stop(t) => StopKeeps(st, t);
    case Restart(t, restarts) => RestartKeeps(st, t, restarts);
    case Wait(p, pid, o, poked, c) => WaitKeeps(st, p, pid, o, poked, c);
    case Resume(p, t, detaches) => ResumeKeeps(st, p, t, detaches);
    case Death(t, z, restarts) => RemovedKeeps(st, t, z, restarts);
  }

  ghost predicate Run(st: State, steps: seq<Step>)
    requires Inv(st)
    decreases |steps|
  {
    steps != [] ==>
      && Possible(st, steps[0])
      && (StepKeeps(st, steps[0]); Run(Next(st, steps[0]), steps[1..]))
  }

  ghost function After(st: State, steps: seq<Step>): State
    requires Inv(st) && Run(st, steps)
    decreases |steps|
  {
    if steps == [] then st
    else
      StepKeeps(st, steps[0]);
      After(Next(st, steps[0]), steps[1..])
  }

  // ----- Who is woken -----

  /** restart_tracee() succeeds on it: it did not end. */
  predicate MayRun(T: Tracee) {
    !(T.pending && T.ended)
  }

  /** That event is one the ptracer waits for. */
  ghost predicate Tells(st: State, s: Step, p: nat)
    requires p in st.tracees
  {
    s.Event? && s.t in st.tracees && Awaited(st.tracees[p], p, st.tracees[s.t], s.t)
  }

  /** It has no ptracee left but one that dies without an event. */
  ghost predicate Bereaves(st: State, s: Step, p: nat)
    requires p in st.tracees
  {
    && s.Death? && s.t in st.tracees && s.t != p && st.tracees[s.t].ptracer == Some(p)
    && MayRun(st.tracees[s.t]) && st.tracees[p].nbPtracees == 1
  }

  /** Whoever waits, and the others, when an event is handled: a ptracer that waits for it runs again if it can be restarted; it
  knows the event, if that could be written, or the kernel tells the parent about the end of its child; and the ptracee runs
  again if its ptracer could not.  Otherwise the event is kept, and the ptracee is stopped. */
  lemma EventExact(st: State, t: nat, ended: bool, poked: bool, restarts: bool)
    requires Inv(st) && t in st.tracees && st.tracees[t].ptracer.Some?
    ensures var p := st.tracees[t].ptracer.value; p in st.tracees && p != t && st.tracees[p].nbPtracees > 0
    ensures var st', p := PtraceeEvent(st, t, ended, poked, restarts), st.tracees[t].ptracer.value;
            && st'.tracees.Keys == st.tracees.Keys && st'.zombies == st.zombies
            && (forall x :: x in st.tracees && x != t && x != p ==> st'.tracees[x] == st.tracees[x])
            && var T, T', P, P' := st.tracees[t], st'.tracees[t], st.tracees[p], st'.tracees[p];
               if Awaited(P, p, T, t) then
                 && P'.waitPid == 0 && (P'.running <==> P.running || (restarts && MayRun(P)))
                 && P'.pending == P.pending && P'.ended == P.ended
                 && (if T.parent == Some(p) && ended then T'.ptracer == None else T'.ptracer == Some(p) && T'.pending == !poked)
                 && (T'.running <==> !restarts && !ended && T.waitPid == 0)
               else
                 P' == P && T' == T.(pending := true, ended := ended, held := true, running := false)
  {
    hide Inv, Awaited, Told, Woken, Restarted, MayRun;
    var p := st.tracees[t].ptracer.value;
    HasPtracee(st, p, t) by { InvLinked(st); }
    AwaitedAlike(st, t, ended, p);
    if Awaited(st.tracees[p], p, st.tracees[t], t) {
      TellsExact(Recorded(st, t, ended), p, t, poked, restarts);
      SameMayRun(st.tracees[p], Recorded(st, t, ended).tracees[p]);
    }
  }

  /** The same once the event is recorded. */
  lemma TellsExact(st: State, p: nat, t: nat, poked: bool, restarts: bool)
    requires t in st.tracees && st.tracees[t].ptracer == Some(p) && p in st.tracees && p != t && st.tracees[p].nbPtracees > 0
    requires st.tracees[t].pending && !st.tracees[t].running
    ensures var T, P, st2 := st.tracees[t], st.tracees[p], Woken(Told(st, p, t, poked), p, restarts);
            && st2.tracees.Keys == st.tracees.Keys && st2.zombies == st.zombies
            && (forall x :: x in st.tracees && x != t && x != p ==> st2.tracees[x] == st.tracees[x])
            && var st' := if restarts || T.ended then st2 else st2.(tracees := st2.tracees[t := Restarted(st2.tracees[t], true)]);
               var T', P' := st'.tracees[t], st'.tracees[p];
               && P'.waitPid == 0 && (P'.running <==> P.running || (restarts && MayRun(P)))
               && P'.pending == P.pending && P'.ended == P.ended
               && (if T.parent == Some(p) && T.ended then T'.ptracer == None else T'.ptracer == Some(p) && T'.pending == !poked)
               && (T'.running <==> !restarts && !T.ended && T.waitPid == 0)
  {
    hide Told, Woken, Restarted, MayRun;
    ToldExact(st, p, t, poked);
    var st2 := Told(st, p, t, poked);
    WokenExact(st2, p, restarts);
    AgainExact(Woken(st2, p, restarts).tracees[t], st.tracees[t].ended);
    SameMayRun(st.tracees[p], st2.tracees[p]);
  }

  lemma SameMayRun(P: Tracee, P': Tracee)
    requires P'.pending == P.pending && P'.ended == P.ended
    ensures MayRun(P') <==> MayRun(P)
  {
  }

  lemma ToldExact(st: State, p: nat, t: nat, poked: bool)
    requires t in st.tracees && st.tracees[t].ptracer == Some(p) && p in st.tracees && p != t && st.tracees[p].nbPtracees > 0
    ensures var st', T, P := Told(st, p, t, poked), st.tracees[t], st.tracees[p];
            && st'.tracees.Keys == st.tracees.Keys && st'.zombies == st.zombies
            && (forall x :: x in st.tracees && x != t && x != p ==> st'.tracees[x] == st.tracees[x])
            && st'.tracees[t] == (if T.ptracer == T.parent && T.ended then T.(ptracer := None)
                                  else if poked then T.(pending := false) else T)
            && st'.tracees[p] == (if T.ptracer == T.parent && T.ended then P.(nbPtracees := P.nbPtracees - 1) else P)
  {
  }

  lemma WokenExact(st: State, p: nat, restarts: bool)
    requires p in st.tracees
    ensures var st', P := Woken(st, p, restarts), st.tracees[p];
            && st'.tracees.Keys == st.tracees.Keys && st'.zombies == st.zombies
            && (forall x :: x in st.tracees && x != p ==> st'.tracees[x] == st.tracees[x])
            && var P' := st'.tracees[p];
               && P'.waitPid == 0 && (P'.running <==> P.running || (restarts && MayRun(P)))
               && P'.pending == P.pending && P'.ended == P.ended && P'.options == P.options && P'.nbPtracees == P.nbPtracees
  {
  }

  lemma AgainExact(T: Tracee, ended: bool)
    requires T.ended == ended && !T.running
    ensures var T' := Restarted(T, true);
            && T'.pending == T.pending && T'.ptracer == T.ptracer && T'.waitPid == T.waitPid && T'.options == T.options
            && (!ended ==> (T'.running <==> T.waitPid == 0))
  {
  }

  /** A blocked ptracer is woken if and only if an event it waits for is handled, or it loses its last ptracee; and then it
  runs, if it can be restarted. */
  lemma StepWakes(st: State, s: Step, p: nat)
    requires Inv(st) && Possible(st, s) && p in st.tracees && st.tracees[p].waitPid != 0 && !(s.Death? && s.t == p)
    ensures p in Next(st, s).tracees
    ensures var P' := Next(st, s).tracees[p];
            && (P'.waitPid == 0 <==> Tells(st, s, p) || Bereaves(st, s, p))
            && (P'.waitPid == 0 ==> (P'.running <==> s.restarts && MayRun(P')))
            && (P'.waitPid != 0 ==> P'.waitPid == st.tracees[p].waitPid && P'.options == st.tracees[p].options && !P'.running)
  {
    hide Inv, Possible, Next, Tells, Bereaves, MayRun;
    StepLeaves(st, s, p);
    StepKeeps(st, s);
    InvStopped(Next(st, s), p);
  }

  lemma StepLeaves(st: State, s: Step, p: nat)
    requires Inv(st) && Possible(st, s) && p in st.tracees && st.tracees[p].waitPid != 0 && !(s.Death? && s.t == p)
    ensures p in Next(st, s).tracees
    ensures var P' := Next(st, s).tracees[p];
            && (P'.waitPid == 0 <==> Tells(st, s, p) || Bereaves(st, s, p))
            && (P'.waitPid == 0 ==> (P'.running <==> s.restarts && MayRun(P')))
            && (P'.waitPid != 0 ==> P'.waitPid == st.tracees[p].waitPid && P'.options == st.tracees[p].options)
  {
    hide Inv, PtraceeEvent, Removed, WaitExited, Resumed, Awaited, Born, Attached, Restarted, Finds, MayRun;
    match s {
      case Birth(t, parent, clone) => BirthWakes(st, t, parent, clone, p);
      case Attach(t, q) => AttachWakes(st, t, q, p);
      case Event(t, ended, poked, restarts) =>
        EventWakes(st, t, ended, poked, restarts, p);
      case Stop(_) =>
      case Restart(t, restarts) => RestartWakes(st.tracees[t], restarts);
      case Wait(q, pid, o, poked, c) => WaitWakes(st, q, pid, o, poked, c, p);
      case Resume(q, t, detaches) =>
        HasPtracee(st, q, t) by { InvLinked(st); }
        ResumeWakes(st, q, t, detaches, p);
      case Death(t, z, restarts) => DeathWakes(st, t, z, restarts, p);
    }
  }

  lemma EventWakes(st: State, t: nat, ended: bool, poked: bool, restarts: bool, p: nat)
    requires Inv(st) && t in st.tracees && st.tracees[t].ptracer.Some? && p in st.tracees && st.tracees[p].waitPid != 0
    ensures var q := st.tracees[t].ptracer.value; q in st.tracees && q != t && st.tracees[q].nbPtracees > 0
    ensures var P, P' := st.tracees[p], PtraceeEvent(st, t, ended, poked, restarts).tracees[p];
            && p in PtraceeEvent(st, t, ended, poked, restarts).tracees
            && (P'.waitPid == 0 <==> Awaited(P, p, st.tracees[t], t)) && (P'.waitPid != 0 ==> P'.waitPid == P.waitPid)
            && P'.options == P.options
            && (P'.waitPid == 0 ==> (P'.running <==> restarts && MayRun(P')))
  {
    var q := st.tracees[t].ptracer.value;
    InvStopped(st, p);
    EventExact(st, t, ended, poked, restarts);
    EventTracees(st, t, ended, poked, restarts);
    EventOptions(st, t, ended, poked, restarts, p);
    hide Inv, PtraceeEvent;
  }

  lemma EventOptions(st: State, t: nat, ended: bool, poked: bool, restarts: bool, p: nat)
    requires Inv(st) && t in st.tracees && st.tracees[t].ptracer.Some? && p in st.tracees
    ensures var q := st.tracees[t].ptracer.value; q in st.tracees && q != t && st.tracees[q].nbPtracees > 0
    ensures p in PtraceeEvent(st, t, ended, poked, restarts).tracees
    ensures var P, P' := st.tracees[p], PtraceeEvent(st, t, ended, poked, restarts).tracees[p];
            P'.options == P.options && (p == t ==> P'.waitPid == P.waitPid)
  {
    hide Inv, Awaited, Told, Woken, Restarted;
    var q := st.tracees[t].ptracer.value;
    HasPtracee(st, q, t) by { InvLinked(st); }
    var st1 := Recorded(st, t, ended);
    if Awaited(st1.tracees[q], q, st1.tracees[t], t) {
      ToldExact(st1, q, t, poked);
      var st2 := Told(st1, q, t, poked);
      WokenExact(st2, q, restarts);
      AgainExact(Woken(st2, q, restarts).tracees[t], ended);
    }
  }

  /** A tracee that stays blocked. */
  ghost predicate StaysBlocked(P: Tracee, P': Tracee) {
    P'.waitPid == P.waitPid && P'.options == P.options
  }

  lemma BirthWakes(st: State, t: nat, parent: Option<nat>, clone: bool, p: nat)
    requires t !in st.tracees && p in st.tracees
    ensures p in Born(st, t, parent, clone).tracees && Born(st, t, parent, clone).tracees[p] == st.tracees[p]
  {
  }

  lemma AttachWakes(st: State, t: nat, q: nat, p: nat)
    requires t in st.tracees && q in st.tracees && t != q && p in st.tracees
    ensures p in Attached(st, t, q).tracees && StaysBlocked(st.tracees[p], Attached(st, t, q).tracees[p])
  {
  }

  lemma RestartWakes(P: Tracee, restarts: bool)
    ensures StaysBlocked(P, Restarted(P, restarts))
  {
  }

  lemma WaitWakes(st: State, q: nat, pid: int, o: Options, poked: bool, c: Candidate, p: nat)
    requires q in st.tracees && st.tracees[q].waitPid == 0 && p in st.tracees && st.tracees[p].waitPid != 0
    ensures p in WaitExited(st, q, pid, o, poked, c).tracees
    ensures StaysBlocked(st.tracees[p], WaitExited(st, q, pid, o, poked, c).tracees[p])
  {
  }

  lemma ResumeWakes(st: State, q: nat, t: nat, detaches: bool, p: nat)
    requires t in st.tracees && st.tracees[t].ptracer == Some(q) && q in st.tracees && q != t && st.tracees[q].nbPtracees > 0
    requires p in st.tracees
    ensures p in Resumed(st, q, t, detaches).tracees && StaysBlocked(st.tracees[p], Resumed(st, q, t, detaches).tracees[p])
  {
  }

  lemma DeathWakes(st: State, t: nat, z: nat, restarts: bool, p: nat)
    requires Inv(st) && t in st.tracees && z !in st.zombies && p in st.tracees && p != t && st.tracees[p].waitPid != 0
    ensures p in Removed(st, t, z, restarts).tracees
    ensures var P, P' := st.tracees[p], Removed(st, t, z, restarts).tracees[p];
            && P'.options == P.options
            && (P'.waitPid == 0 <==> st.tracees[t].ptracer == Some(p) && MayRun(st.tracees[t]) && P.nbPtracees == 1)
            && (P'.waitPid != 0 ==> P'.waitPid == P.waitPid)
            && (P'.waitPid == 0 ==> (P'.running <==> restarts && MayRun(P')))
  {
    hide Inv, Bereft, Orphaned, Woken, MayRun;
    if st.tracees[t].ptracer.Some? {
      HasPtracee(st, st.tracees[t].ptracer.value, t) by { InvLinked(st); }
    }
    InvStopped(st, p);
    BereftAt(st, t);
    OrphanedWaits(st.tracees[p], t);
    DyingMayRun(st.tracees[t]);
    var st1 := Bereft(st, t);
    if st.tracees[t].ptracer.Some? {
      var q := st.tracees[t].ptracer.value;
      OrphanedKeeps(st.tracees[q], t);
      var st2 := LessOne(st1, q);
      WokenExact(st2, q, restarts);
      SameMayRun(st1.tracees[q], st2.tracees[q]);
      SameMayRun(st1.tracees[q], Woken(st2, q, restarts).tracees[q]);
    }
  }

  lemma DyingMayRun(T: Tracee)
    ensures MayRun(T) <==> !(T.pending && T.ended)
  {
  }

  lemma OrphanedWaits(P: Tracee, t: nat)
    requires P.waitPid != 0
    ensures var P' := Orphaned(P, t);
            P'.waitPid == P.waitPid && P'.options == P.options && P'.running == P.running && P'.nbPtracees == P.nbPtracees
  {
  }

  /** What a wait(2) does: whoever it finds is told about, once, or was detached since the kernel tells its parent; a zombie goes
  with that; and with nobody found it blocks, unless it has no ptracee or may not block. */
  ghost predicate WaitDone(st: State, st': State, p: nat, pid: int, o: Options, poked: bool, c: Candidate)
    requires p in st.tracees && p in st'.tracees
  {
    && st'.tracees.Keys == st.tracees.Keys
    && match c
       case Live(t) =>
         && t in st.tracees && t != p && st'.zombies == st.zombies && st'.tracees[p].waitPid == 0
         && (forall x :: x in st.tracees && x != t && x != p ==> st'.tracees[x] == st.tracees[x])
         && (if st.tracees[t].parent == Some(p) && st.tracees[t].ended then st'.tracees[t].ptracer == None
             else st'.tracees[t] == st.tracees[t].(pending := !poked))
       case Dead(z) =>
         && z in st.zombies && st'.tracees[p].waitPid == 0
         && (forall x :: x in st.tracees && x != p ==> st'.tracees[x] == st.tracees[x])
         && st'.zombies == (if poked || st.zombies[z].parent == Some(p) then st.zombies - {z} else st.zombies)
       case Nobody =>
         && st'.zombies == st.zombies && (forall x :: x in st.tracees && x != p ==> st'.tracees[x] == st.tracees[x])
         && st'.tracees[p].waitPid == (if st.tracees[p].nbPtracees > 0 && !o.nohang then pid else 0)
         && (st'.tracees[p].waitPid != 0 ==> st'.tracees[p].options == o)
  }

  lemma WaitExact(st: State, p: nat, pid: int, o: Options, poked: bool, c: Candidate)
    requires Inv(st) && Possible(st, Wait(p, pid, o, poked, c))
    ensures p in WaitExited(st, p, pid, o, poked, c).tracees
    ensures WaitDone(st, WaitExited(st, p, pid, o, poked, c), p, pid, o, poked, c)
  {
    FoundPtracer(st, p, pid, o, c);
    hide Inv, Finds, WaitExited, WaitDone;
    match c
    case Live(t) =>
      WaitPending(st, p, pid, o, c) by { hide Inv; }
      WaitTells(st, p, pid, o, poked, t);
    case Dead(z) => WaitBuries(st, p, pid, o, poked, z);
    case Nobody => WaitBlocks(st, p, pid, o, poked);
  }

  lemma WaitTells(st: State, p: nat, pid: int, o: Options, poked: bool, t: nat)
    requires p in st.tracees && st.tracees[p].waitPid == 0 && t in st.tracees && t != p
    requires st.tracees[t].ptracer == Some(p) && st.tracees[t].pending && st.tracees[p].nbPtracees > 0
    ensures p in WaitExited(st, p, pid, o, poked, Live(t)).tracees
    ensures WaitDone(st, WaitExited(st, p, pid, o, poked, Live(t)), p, pid, o, poked, Live(t))
  {
    hide Told, ToldZombie;
    ToldExact(st.(tracees := st.tracees[p := st.tracees[p].(waitsIn := DoesntWait)]), p, t, poked);
  }

  lemma WaitBuries(st: State, p: nat, pid: int, o: Options, poked: bool, z: nat)
    requires p in st.tracees && st.tracees[p].waitPid == 0 && z in st.zombies && st.zombies[z].ptracer == p
    requires st.tracees[p].nbPtracees > 0
    ensures p in WaitExited(st, p, pid, o, poked, Dead(z)).tracees
    ensures WaitDone(st, WaitExited(st, p, pid, o, poked, Dead(z)), p, pid, o, poked, Dead(z))
  {
    hide Told, ToldZombie;
    BuriedExact(st.(tracees := st.tracees[p := st.tracees[p].(waitsIn := DoesntWait)]), z, poked);
  }

  lemma WaitBlocks(st: State, p: nat, pid: int, o: Options, poked: bool)
    requires p in st.tracees && st.tracees[p].waitPid == 0
    ensures p in WaitExited(st, p, pid, o, poked, Nobody).tracees
    ensures WaitDone(st, WaitExited(st, p, pid, o, poked, Nobody), p, pid, o, poked, Nobody)
  {
    hide Told, ToldZombie;
  }

  lemma WaitPending(st: State, p: nat, pid: int, o: Options, c: Candidate)
    requires Finds(st, p, pid, o, c) && c.Live?
    ensures c.t in st.tracees && st.tracees[c.t].pending && st.tracees[c.t].ptracer == Some(p)
  {
  }

  lemma BuriedExact(st: State, z: nat, poked: bool)
    requires z in st.zombies && st.zombies[z].ptracer in st.tracees && st.tracees[st.zombies[z].ptracer].nbPtracees > 0
    ensures var st', p := ToldZombie(st, z, poked), st.zombies[z].ptracer;
            && st'.tracees.Keys == st.tracees.Keys && st'.tracees[p].waitPid == st.tracees[p].waitPid
            && (forall x :: x in st.tracees && x != p ==> st'.tracees[x] == st.tracees[x])
            && st'.zombies == if poked || st.zombies[z].parent == Some(p) then st.zombies - {z} else st.zombies
  {
  }

  /** The ptracees of a tracee that goes are on their own, and those that were kept stopped for it run again; its zombies go. */
  lemma OrphansReleased(st: State, t: nat, z: nat, restarts: bool, q: nat)
    requires Inv(st) && Possible(st, Death(t, z, restarts)) && q in st.tracees && q != t && st.tracees[q].ptracer == Some(t)
    ensures var st', T := Removed(st, t, z, restarts), st.tracees[q];
            && q in st'.tracees && st'.tracees[q].ptracer == None && !st'.tracees[q].pending
            && (T.running || (T.pending && !T.ended && T.waitPid == 0) ==> st'.tracees[q].running)
            && forall x :: x in st'.zombies ==> st'.zombies[x].ptracer != t
  {
    hide Inv, Bereft, Orphaned, Restarted;
    OrphanRuns(st.tracees[q], t);
    BereftAt(st, t);
    OtherPtracer(st, t);
    if st.tracees[t].ptracer == Some(q) {
      var P := Bereft(st, t).tracees[q];
      OrphanRestarted(P, restarts, P.nbPtracees - 1);
    }
  }

  /** Whoever survives the end of t has no dead parent or ptracer, and is what it was but for that, for what it had to tell t,
  and for what its own wait becomes. */
  ghost predicate Outlives(T: Tracee, T': Tracee, t: nat) {
    && T'.parent == (if T.parent == Some(t) then None else T.parent)
    && T'.ptracer == (if T.ptracer == Some(t) then None else T.ptracer)
    && T'.clone == T.clone && T'.options == T.options && T'.waitsIn == T.waitsIn
    && (T.ptracer != Some(t) ==> T'.pending == T.pending && T'.ended == T.ended)
    && (T.waitPid == 0 ==> T'.waitPid == 0 && (T.ptracer != Some(t) ==> T'.running == T.running && T'.held == T.held))
  }

  lemma OthersSurvive(st: State, t: nat, z: nat, restarts: bool, q: nat)
    requires t in st.tracees && q in st.tracees && q != t
    ensures q in Removed(st, t, z, restarts).tracees && Outlives(st.tracees[q], Removed(st, t, z, restarts).tracees[q], t)
  {
    hide Bereft, Orphaned, Restarted, Outlives;
    BereftAt(st, t);
    var Q := Orphaned(st.tracees[q], t);
    OrphanOutlives(st.tracees[q], t);
    CountOutlives(st.tracees[q], Q, Q.nbPtracees - 1, restarts, t);
  }

  lemma OrphanOutlives(T: Tracee, t: nat)
    ensures Outlives(T, Orphaned(T, t), t) && Orphaned(T, t).waitPid == T.waitPid
  {
  }

  lemma CountOutlives(T: Tracee, T': Tracee, n: int, restarts: bool, t: nat)
    requires Outlives(T, T', t) && T'.waitPid == T.waitPid
    ensures n >= 0 ==> Outlives(T, T'.(nbPtracees := n), t)
    ensures n >= 0 && T'.waitPid != 0 ==> Outlives(T, Restarted(T'.(nbPtracees := n).(waitPid := 0), restarts), t)
  {
  }

  /** A ptracer that resumes its ptracee makes it run, unless it is blocked or ended; and lets it go when it detaches. */
  lemma ResumeExact(st: State, p: nat, t: nat, detaches: bool)
    requires t in st.tracees && st.tracees[t].ptracer == Some(p) && p in st.tracees && p != t && st.tracees[p].nbPtracees > 0
    ensures var st', T := Resumed(st, p, t, detaches), st.tracees[t];
            && st'.tracees.Keys == st.tracees.Keys && st'.zombies == st.zombies
            && (forall x :: x in st.tracees && x != t && x != p ==> st'.tracees[x] == st.tracees[x])
            && st'.tracees[p] == st.tracees[p].(nbPtracees := st.tracees[p].nbPtracees - (if detaches then 1 else 0))
            && var T' := st'.tracees[t];
               && T'.ptracer == (if detaches then None else Some(p)) && T'.pending == T.pending && T'.waitPid == T.waitPid
               && (T'.running <==> T.running || (T.waitPid == 0 && MayRun(T)))
  {
    hide Restarted, MayRun;
    RunsAgain(if detaches then st.tracees[t].(ptracer := None) else st.tracees[t]);
    SameMayRun(st.tracees[t], st.tracees[t].(ptracer := None));
  }

  lemma RunsAgain(T: Tracee)
    ensures var T' := Restarted(T, true);
            && T'.ptracer == T.ptracer && T'.pending == T.pending && T'.waitPid == T.waitPid
            && (T'.running <==> T.running || (T.waitPid == 0 && MayRun(T)))
  {
  }

  lemma OrphanRuns(T: Tracee, t: nat)
    requires T.ptracer == Some(t)
    ensures var T' := Orphaned(T, t);
            T'.ptracer == None && !T'.pending && (T'.running <==> T.running || (T.pending && !T.ended && T.waitPid == 0))
  {
  }

  lemma OrphanRestarted(P: Tracee, restarts: bool, n: int)
    ensures n >= 0 ==> var P' := Restarted(P.(nbPtracees := n).(waitPid := 0), restarts);
              P'.ptracer == P.ptracer && P'.pending == P.pending && (P.running ==> P'.running)
  {
  }

  /** Over runs: whoever blocks stays so, and stopped, until it is told or has nobody left; and it leaves running, when it
  can be restarted. */
  lemma WokenRunning(st: State, steps: seq<Step>, k: nat, p: nat)
    requires Inv(st) && Run(st, steps) && k < |steps|
    ensures Run(st, steps[..k]) && Run(st, steps[..k + 1])
    ensures var st1, st2, s := After(st, steps[..k]), After(st, steps[..k + 1]), steps[k];
            p in st1.tracees && st1.tracees[p].waitPid != 0 && !(s.Death? && s.t == p) ==>
              && p in st2.tracees && !st1.tracees[p].running
              && (st2.tracees[p].waitPid == 0 <==> Tells(st1, s, p) || Bereaves(st1, s, p))
              && (st2.tracees[p].waitPid == 0 ==> (st2.tracees[p].running <==> s.restarts && MayRun(st2.tracees[p])))
  {
    RunStarts(st, steps, k);
    var st1, s := After(st, steps[..k]), steps[k];
    if p in st1.tracees && st1.tracees[p].waitPid != 0 && !(s.Death? && s.t == p) {
      InvStopped(st1, p);
      StepWakes(st1, s, p);
    }
    hide Inv, Run, After, Next, Possible, Tells, Bereaves;
  }

  /** The beginnings of a run. */
  lemma {:induction false} RunStarts(st: State, steps: seq<Step>, k: nat)
    requires Inv(st) && Run(st, steps) && k < |steps|
    ensures Run(st, steps[..k]) && Run(st, steps[..k + 1])
    ensures var st1 := After(st, steps[..k]);
            Inv(st1) && Possible(st1, steps[k]) && After(st, steps[..k + 1]) == Next(st1, steps[k])
    decreases k
  {
    hide Inv, Possible, Next;
    StepKeeps(st, steps[0]);
    var st1 := Next(st, steps[0]);
    if k == 0 {
      OneStepRun(st, steps[0]);
      assert steps[..1] == [steps[0]] && steps[..0] == [];
    } else {
      RunStarts(st1, steps[1..], k - 1);
      assert steps[..k][1..] == steps[1..][..k - 1] && steps[..k + 1][1..] == steps[1..][..k];
    }
  }

  lemma OneStepRun(st: State, s: Step)
    requires Inv(st) && Possible(st, s)
    ensures Run(st, [s]) && After(st, [s]) == Next(st, s)
    ensures Run(st, []) && After(st, []) == st
  {
    hide Inv, Possible, Next;
    StepKeeps(st, s);
    assert [s][1..] == [] && Run(Next(st, s), []);
    assert After(Next(st, s), []) == Next(st, s);
  }

  // ----- Events that a wait(2) passes over -----

  /** Has a ptracer blocked in wait(2) every event of those it waits for, restarted since or not? */
  ghost predicate QuietFor(st: State, p: nat)
    requires p in st.tracees
  {
    st.tracees[p].waitPid != 0 ==>
      forall t :: t in st.tracees && Awaited(st.tracees[p], p, st.tracees[t], t) ==> !st.tracees[t].pending
  }

  ghost predicate Quiet(st: State) {
    forall p :: p in st.tracees ==> QuietFor(st, p)
  }

  /** A ptracee that get_stopped_ptracee() passes over, since it runs, although its event was not collected. */
  predicate PassedOver(st: State, p: nat, pid: int, o: Options, t: nat) {
    && t in st.tracees && st.tracees[t].ptracer == Some(p) && Matches(pid, t) && ExpectedClone(o, st.tracees[t].clone)
    && st.tracees[t].running && st.tracees[t].pending
  }

  /** A wait(2) that finds nobody, may block, and passes over an event. */
  ghost predicate Misses(st: State, s: Step) {
    s.Wait? && s.c.Nobody? && s.pid != 0 && !s.o.nohang && exists t :: PassedOver(st, s.p, s.pid, s.o, t)
  }

  /** No event of a ptracee of p more. */
  ghost predicate NoMorePending(st: State, st': State, p: nat) {
    forall t :: t in st'.tracees && st'.tracees[t].ptracer == Some(p) && st'.tracees[t].pending ==>
      && t in st.tracees && st.tracees[t].ptracer == Some(p) && st.tracees[t].pending
      && st'.tracees[t].clone == st.tracees[t].clone
  }

  lemma QuietStays(st: State, st': State, p: nat)
    requires p in st.tracees && p in st'.tracees && QuietFor(st, p)
    requires st'.tracees[p].waitPid == 0
             || (st'.tracees[p].waitPid == st.tracees[p].waitPid && st'.tracees[p].options == st.tracees[p].options
                 && NoMorePending(st, st', p))
    ensures QuietFor(st', p)
  {
    if st'.tracees[p].waitPid != 0 {
      forall t | t in st'.tracees && Awaited(st'.tracees[p], p, st'.tracees[t], t) ensures !st'.tracees[t].pending {
        if st'.tracees[t].pending {
          assert Awaited(st.tracees[p], p, st.tracees[t], t);
        }
      }
    }
  }

  /** One tracee changed, and it has no event more. */
  lemma ChangedQuiet(st: State, st': State, t: nat, q: nat)
    requires Changed(st, st', t) && q in st.tracees && QuietFor(st, q)
    requires q == t ==> st'.tracees[t].waitPid == 0 || (st'.tracees[t].waitPid == st.tracees[t].waitPid && st'.tracees[t].options == st.tracees[t].options)
    requires st'.tracees[t].pending ==> st.tracees[t].pending
    ensures QuietFor(st', q)
  {
    hide QuietFor;
    QuietStays(st, st', q);
  }

  lemma BornQuiet(st: State, t: nat, parent: Option<nat>, clone: bool, q: nat)
    requires t !in st.tracees && q in Born(st, t, parent, clone).tracees && (q in st.tracees ==> QuietFor(st, q))
    ensures QuietFor(Born(st, t, parent, clone), q)
  {
    if q != t {
      QuietStays(st, Born(st, t, parent, clone), q);
    }
  }

  lemma AttachedQuiet(st: State, t: nat, p: nat, q: nat)
    requires t in st.tracees && p in st.tracees && t != p && q in st.tracees && QuietFor(st, q)
    ensures QuietFor(Attached(st, t, p), q)
  {
    hide QuietFor;
    QuietStays(st, Attached(st, t, p), q);
  }

  lemma DetachedQuiet(st: State, t: nat, q: nat)
    requires t in st.tracees && st.tracees[t].ptracer.Some?
    requires var p := st.tracees[t].ptracer.value; p in st.tracees && p != t && st.tracees[p].nbPtracees > 0
    requires q in st.tracees && QuietFor(st, q)
    ensures QuietFor(Detached(st, t), q)
  {
    hide QuietFor;
    QuietStays(st, Detached(st, t), q);
  }

  lemma ToldQuiet(st: State, p: nat, t: nat, poked: bool, q: nat)
    requires t in st.tracees && st.tracees[t].ptracer == Some(p) && p in st.tracees && p != t && st.tracees[p].nbPtracees > 0
    requires q in st.tracees && QuietFor(st, q)
    ensures q in Told(st, p, t, poked).tracees && QuietFor(Told(st, p, t, poked), q)
  {
    hide QuietFor;
    DetachedQuiet(st, t, q);
    ChangedQuiet(st, st.(tracees := st.tracees[t := st.tracees[t].(pending := false)]), t, q);
  }

  lemma RestartedQuiet(st: State, t: nat, restarts: bool, q: nat)
    requires t in st.tracees && q in st.tracees && QuietFor(st, q)
    ensures QuietFor(st.(tracees := st.tracees[t := Restarted(st.tracees[t], restarts)]), q)
  {
    hide QuietFor;
    ChangedQuiet(st, st.(tracees := st.tracees[t := Restarted(st.tracees[t], restarts)]), t, q);
  }

  lemma WokenQuiet(st: State, p: nat, restarts: bool, q: nat)
    requires p in st.tracees && q in st.tracees && (q != p ==> QuietFor(st, q))
    ensures QuietFor(Woken(st, p, restarts), q)
  {
    if q != p {
      hide QuietFor, Restarted;
      RestartLinks(st.tracees[p].(waitPid := 0), restarts);
      QuietStays(st, Woken(st, p, restarts), q) by {
        WokenPending(st.tracees[p], restarts);
      }
    }
  }

  lemma WokenPending(P: Tracee, restarts: bool)
    ensures var P' := Restarted(P.(waitPid := 0), restarts); P'.pending == P.pending && P'.clone == P.clone && P'.ptracer == P.ptracer
  {
  }

  /** Only its ptracer learns of an event. */
  lemma RecordedQuiet(st: State, t: nat, ended: bool, q: nat)
    requires t in st.tracees && q in st.tracees && QuietFor(st, q)
    requires st.tracees[t].ptracer == Some(q) ==> q != t && !Awaited(st.tracees[q], q, st.tracees[t], t)
    ensures QuietFor(Recorded(st, t, ended), q)
  {
    var st' := Recorded(st, t, ended);
    if st.tracees[t].ptracer == Some(q) {
      hide Matches, ExpectedClone;
      AwaitedAlike(st, t, ended, q);
      forall x | x in st'.tracees && Awaited(st'.tracees[q], q, st'.tracees[x], x) && st.tracees[q].waitPid != 0
        ensures !st'.tracees[x].pending
      {
        assert x != t && Awaited(st.tracees[q], q, st.tracees[x], x);
      }
    } else {
      hide QuietFor;
      QuietStays(st, st', q);
    }
  }

  lemma EventQuiet(st: State, t: nat, ended: bool, poked: bool, restarts: bool, q: nat)
    requires Inv(st) && t in st.tracees && st.tracees[t].ptracer.Some? && q in st.tracees && QuietFor(st, q)
    ensures var p := st.tracees[t].ptracer.value; p in st.tracees && p != t && st.tracees[p].nbPtracees > 0
    ensures q in PtraceeEvent(st, t, ended, poked, restarts).tracees && QuietFor(PtraceeEvent(st, t, ended, poked, restarts), q)
  {
    var p := st.tracees[t].ptracer.value;
    HasPtracee(st, p, t);
    hide Inv, QuietFor, Awaited, Told, Woken, Restarted;
    AwaitedAlike(st, t, ended, p);
    var st1 := Recorded(st, t, ended);
    if Awaited(st1.tracees[p], p, st1.tracees[t], t) {
      if q != p {
        RecordedQuiet(st, t, ended, q);
        ToldQuiet(st1, p, t, poked, q);
      }
      ToldLinks(st1, p, t, poked, q);
      var st2 := Told(st1, p, t, poked);
      WokenTracees(st2, p, restarts);
      WokenQuiet(st2, p, restarts, q);
      RestartedQuiet(Woken(st2, p, restarts), t, true, q);
    } else {
      RecordedQuiet(st, t, ended, q);
    }
  }

  lemma WokenTracees(st: State, p: nat, restarts: bool)
    requires p in st.tracees
    ensures Woken(st, p, restarts).tracees.Keys == st.tracees.Keys
  {
  }

  /** A ptracer that blocks has every event, but those that were passed over. */
  lemma BlockedQuiet(st: State, p: nat, pid: int, o: Options)
    requires p in st.tracees && pid != 0 && Finds(st, p, pid, o, Nobody)
    ensures var st' := st.(tracees := st.tracees[p := st.tracees[p].(waitsIn := DoesntWait, waitPid := pid, options := o)]);
            QuietFor(st', p) <==> !exists t :: PassedOver(st, p, pid, o, t)
  {
    var st' := st.(tracees := st.tracees[p := st.tracees[p].(waitsIn := DoesntWait, waitPid := pid, options := o)]);
    hide Matches, ExpectedClone;
    forall t | t in st.tracees
      ensures PassedOver(st, p, pid, o, t) <==> Awaited(st'.tracees[p], p, st'.tracees[t], t) && st'.tracees[t].pending
    {
      assert !Candidates(st, p, pid, o, t);
    }
  }

  lemma WaitQuiet(st: State, p: nat, pid: int, o: Options, poked: bool, c: Candidate, q: nat)
    requires Inv(st) && p in st.tracees && st.tracees[p].waitPid == 0 && Finds(st, p, pid, o, c) && q in st.tracees && QuietFor(st, q)
    ensures q in WaitExited(st, p, pid, o, poked, c).tracees
    ensures QuietFor(WaitExited(st, p, pid, o, poked, c), q) <==> !(q == p && Misses(st, Wait(p, pid, o, poked, c)))
  {
    hide QuietFor, Told, ToldZombie, Finds, PassedOver;
    var st0 := st.(tracees := st.tracees[p := st.tracees[p].(waitsIn := DoesntWait)]);
    ChangedQuiet(st, st0, p, q) by { hide Inv; }
    match c
    case Live(t) =>
      hide Inv;
      if t in st0.tracees && st0.tracees[t].ptracer == Some(p) && p != t && st0.tracees[p].nbPtracees > 0 {
        ToldQuiet(st0, p, t, poked, q);
      }
    case Dead(z) =>
      hide Inv;
      if z in st0.zombies && st0.zombies[z].ptracer == p && st0.tracees[p].nbPtracees > 0 {
        ToldZombieQuiet(st0, z, poked, q);
      }
    case Nobody => NobodyQuiet(st, p, pid, o, poked, q);
  }

  lemma ToldZombieQuiet(st: State, z: nat, poked: bool, q: nat)
    requires z in st.zombies && st.zombies[z].ptracer in st.tracees && st.tracees[st.zombies[z].ptracer].nbPtracees > 0
    requires q in st.tracees && QuietFor(st, q)
    ensures q in ToldZombie(st, z, poked).tracees && QuietFor(ToldZombie(st, z, poked), q)
  {
    hide QuietFor;
    QuietStays(st, ToldZombie(st, z, poked), q);
  }

  lemma NobodyQuiet(st: State, p: nat, pid: int, o: Options, poked: bool, q: nat)
    requires Inv(st) && p in st.tracees && st.tracees[p].waitPid == 0 && Finds(st, p, pid, o, Nobody) && q in st.tracees && QuietFor(st, q)
    ensures q in WaitExited(st, p, pid, o, poked, Nobody).tracees
    ensures QuietFor(WaitExited(st, p, pid, o, poked, Nobody), q) <==> !(q == p && Misses(st, Wait(p, pid, o, poked, Nobody)))
  {
    hide Inv, Finds, PassedOver, Told, ToldZombie, Awaited;
    PassedOverCounts(st, p, pid, o);
    if q != p {
      OtherQuiet(st, p, pid, o, poked, q);
    } else if pid != 0 && !o.nohang && st.tracees[p].nbPtracees > 0 {
      BlockedQuiet(st, p, pid, o);
      assert WaitExited(st, p, pid, o, poked, Nobody) ==
             st.(tracees := st.tracees[p := st.tracees[p].(waitsIn := DoesntWait, waitPid := pid, options := o)]);
    }
  }

  lemma OtherQuiet(st: State, p: nat, pid: int, o: Options, poked: bool, q: nat)
    requires p in st.tracees && q in st.tracees && q != p && QuietFor(st, q)
    ensures q in WaitExited(st, p, pid, o, poked, Nobody).tracees && QuietFor(WaitExited(st, p, pid, o, poked, Nobody), q)
  {
    hide QuietFor, Told, ToldZombie;
    QuietStays(st, WaitExited(st, p, pid, o, poked, Nobody), q);
  }

  lemma PassedOverCounts(st: State, p: nat, pid: int, o: Options)
    requires Inv(st) && p in st.tracees
    ensures (exists t :: PassedOver(st, p, pid, o, t)) ==> st.tracees[p].nbPtracees > 0
  {
    if t :| PassedOver(st, p, pid, o, t) {
      HasPtracee(st, p, t);
    }
  }

  lemma ResumedQuiet(st: State, p: nat, t: nat, detaches: bool, q: nat)
    requires t in st.tracees && st.tracees[t].ptracer == Some(p) && p in st.tracees && p != t && st.tracees[p].nbPtracees > 0
    requires q in st.tracees && QuietFor(st, q)
    ensures q in Resumed(st, p, t, detaches).tracees && QuietFor(Resumed(st, p, t, detaches), q)
  {
    hide QuietFor, Restarted;
    DetachedQuiet(st, t, q);
    RestartedQuiet(if detaches then Detached(st, t) else st, t, true, q);
  }

  /** What the end of t leaves of another tracee: the same event, or none. */
  ghost predicate Survives(T: Tracee, T': Tracee) {
    && (T'.pending && T'.ptracer.Some? ==> T.pending && T'.ptracer == T.ptracer) && T'.clone == T.clone
    && (T'.waitPid == 0 || T'.waitPid == T.waitPid) && T'.options == T.options
  }

  lemma RemovedSurvives(st: State, t: nat, z: nat, restarts: bool, q: nat)
    requires t in st.tracees && q in st.tracees && q != t
    ensures q in Removed(st, t, z, restarts).tracees && Survives(st.tracees[q], Removed(st, t, z, restarts).tracees[q])
  {
    hide Bereft, Orphaned, Restarted, Survives;
    BereftAt(st, t);
    var Q := Orphaned(st.tracees[q], t);
    OrphanSurvives(st.tracees[q], t);
    CountSurvives(st.tracees[q], Q, Q.nbPtracees - 1, restarts);
  }

  lemma CountSurvives(T: Tracee, T': Tracee, n: int, restarts: bool)
    requires Survives(T, T')
    ensures n >= 0 ==> Survives(T, T'.(nbPtracees := n)) && Survives(T, Restarted(T'.(nbPtracees := n).(waitPid := 0), restarts))
  {
  }

  lemma OrphanSurvives(T: Tracee, t: nat)
    ensures Survives(T, Orphaned(T, t))
  {
  }

  lemma RemovedQuiet(st: State, t: nat, z: nat, restarts: bool, q: nat)
    requires t in st.tracees && q in st.tracees && q != t && QuietFor(st, q)
    ensures q in Removed(st, t, z, restarts).tracees && QuietFor(Removed(st, t, z, restarts), q)
  {
    hide QuietFor, Removed;
    var st' := Removed(st, t, z, restarts);
    DeathTracees(st, t, z, restarts);
    forall x | x in st'.tracees ensures x in st.tracees && Survives(st.tracees[x], st'.tracees[x]) {
      RemovedSurvives(st, t, z, restarts, x);
    }
    QuietStays(st, st', q);
  }

  /** What keeps it so, exactly: only a wait(2) that passes over a ptracee because it runs leaves its ptracer blocked in front of
  an event. */
  lemma StepQuiet(st: State, s: Step)
    requires Inv(st) && Possible(st, s) && Quiet(st)
    ensures Quiet(Next(st, s)) <==> !Misses(st, s)
  {
    hide Inv, QuietFor, Removed, WaitExited, PtraceeEvent, Resumed, Born, Attached, Restarted, Finds, Misses;
    match s {
      case Birth(t, parent, clone) =>
        NoMiss(st, s);
        BirthsQuiet(st, t, parent, clone);
      case Attach(t, p) =>
        NoMiss(st, s);
        AttachTracees(st, t, p);
        forall q | q in st.tracees ensures QuietFor(Next(st, s), q) {
          AttachedQuiet(st, t, p, q);
        }
      case Event(t, ended, poked, restarts) =>
        NoMiss(st, s);
        EventTracees(st, t, ended, poked, restarts);
        forall q | q in st.tracees ensures QuietFor(Next(st, s), q) {
          EventQuiet(st, t, ended, poked, restarts, q);
        }
      case Stop(t) =>
        NoMiss(st, s);
        forall q | q in st.tracees ensures QuietFor(Next(st, s), q) {
          ChangedQuiet(st, Next(st, s), t, q);
        }
      case Restart(t, restarts) =>
        NoMiss(st, s);
        forall q | q in st.tracees ensures QuietFor(Next(st, s), q) {
          RestartedQuiet(st, t, restarts, q);
        }
      case Wait(p, pid, o, poked, c) =>
        WaitTracees(st, p, pid, o, poked, c);
        forall q | q in st.tracees ensures QuietFor(Next(st, s), q) <==> !(q == p && Misses(st, s)) {
          WaitQuiet(st, p, pid, o, poked, c, q);
        }
      case Resume(p, t, detaches) =>
        NoMiss(st, s);
        ResumesQuiet(st, p, t, detaches);
      case Death(t, z, restarts) =>
        NoMiss(st, s);
        DeathTracees(st, t, z, restarts);
        forall q | q in st.tracees && q != t ensures QuietFor(Next(st, s), q) {
          RemovedQuiet(st, t, z, restarts, q);
        }
    }
  }

  lemma NoMiss(st: State, s: Step)
    ensures !s.Wait? ==> !Misses(st, s)
  {
  }

  lemma BirthsQuiet(st: State, t: nat, parent: Option<nat>, clone: bool)
    requires t !in st.tracees && Quiet(st)
    ensures Quiet(Born(st, t, parent, clone))
  {
    hide QuietFor;
    forall q | q in Born(st, t, parent, clone).tracees ensures QuietFor(Born(st, t, parent, clone), q) {
      BornQuiet(st, t, parent, clone, q);
    }
  }

  lemma AttachTracees(st: State, t: nat, p: nat)
    requires t in st.tracees && p in st.tracees && t != p
    ensures Attached(st, t, p).tracees.Keys == st.tracees.Keys
  {
  }

  lemma ResumesQuiet(st: State, p: nat, t: nat, detaches: bool)
    requires Inv(st) && t in st.tracees && st.tracees[t].ptracer == Some(p) && Quiet(st)
    ensures p in st.tracees && p != t && st.tracees[p].nbPtracees > 0 && Quiet(Resumed(st, p, t, detaches))
  {
    HasPtracee(st, p, t);
    hide Inv, QuietFor, Restarted;
    forall q | q in Resumed(st, p, t, detaches).tracees ensures QuietFor(Resumed(st, p, t, detaches), q) {
      ResumedQuiet(st, p, t, detaches, q);
    }
  }

  ghost predicate QuietRun(st: State, steps: seq<Step>)
    requires Inv(st) && Run(st, steps)
    decreases |steps|
  {
    Quiet(st) && (steps != [] ==> (StepKeeps(st, steps[0]); QuietRun(Next(st, steps[0]), steps[1..])))
  }

  /** No wait(2) of that run passes over an event. */
  ghost predicate NothingPassedOver(st: State, steps: seq<Step>)
    requires Inv(st) && Run(st, steps)
    decreases |steps|
  {
    steps != [] ==> !Misses(st, steps[0]) && (StepKeeps(st, steps[0]); NothingPassedOver(Next(st, steps[0]), steps[1..]))
  }

  /** In every state of a run, a ptracer blocked in wait(2) has every event of those it waits for, if and only if no wait(2) of
  that run passes over an event. */
  lemma {:induction false} QuietExactly(st: State, steps: seq<Step>)
    requires Inv(st) && Run(st, steps) && Quiet(st)
    ensures QuietRun(st, steps) <==> NothingPassedOver(st, steps)
    decreases |steps|
  {
    if steps != [] {
      StepKeeps(st, steps[0]);
      StepQuiet(st, steps[0]);
      hide Inv, Next, Misses, Quiet;
      if !Misses(st, steps[0]) {
        QuietExactly(Next(st, steps[0]), steps[1..]);
      }
    }
  }

  /** No lost wake-up: in every state that any run reaches, each ptracer counts exactly the tracees and zombies that
  point to it; and a ptracer blocked in wait(2) has somebody to wait for, and none of those it waits for, zombies
  included, has an event that it was not told and stayed stopped since.  Nor has any of those that run again, in any state of
  the run, if and only if no wait(2) of that run passed over an event. */
  lemma {:induction false} NoLostWakeUp(st: State, steps: seq<Step>, p: nat)
    requires Inv(st) && Run(st, steps)
    ensures var st' := After(st, steps);
            p in st'.tracees ==>
              && st'.tracees[p].nbPtracees == |Ptracees(st', p)| + |ZombiesOf(st', p)|
              && NothingMissed(st', p)
    ensures Quiet(st) ==> (QuietRun(st, steps) <==> NothingPassedOver(st, steps))
    decreases |steps|
  {
    if Quiet(st) {
      QuietExactly(st, steps);
    }
    if steps != [] {
      StepKeeps(st, steps[0]);
      hide Inv, Next, Quiet, QuietRun, NothingPassedOver;
      NoLostWakeUp(Next(st, steps[0]), steps[1..], p);
    }
  }

  // ----- When events are collected first -----

  /** Restarting that tracee leaves no event of its behind. */
  predicate Collected(T: Tracee) {
    T.pending && T.ptracer.Some? ==> T.ended
  }

  /** No tracee is restarted while an event of its is pending: not by its ptracer, not by PRoot, and not as a ptracer that is
  woken; and the ptracer that is told can be. */
  ghost predicate Collecting(st: State, s: Step)
    requires Inv(st) && Possible(st, s)
  {
    match s
    case Event(t, ended, poked, restarts) =>
      var p := st.tracees[t].ptracer.value;
      p in st.tracees && Awaited(st.tracees[p], p, st.tracees[t], t) ==> Collected(st.tracees[p]) && (ended || restarts || poked)
    case Restart(t, restarts) => Collected(st.tracees[t])
    case Resume(p, t, detaches) => detaches || Collected(st.tracees[t])
    case Death(t, z, restarts) =>
      var p := st.tracees[t].ptracer;
      p.Some? && p.value in st.tracees && st.tracees[p.value].waitPid != 0 ==> Collected(st.tracees[p.value])
    case _ => true
  }

  /** Whoever has an event pending for its ptracer was not restarted since. */
  ghost predicate HeldBack(st: State) {
    forall t :: t in st.tracees ==> Holds(st.tracees[t])
  }

  predicate Holds(T: Tracee) {
    T.pending && T.ptracer.Some? ==> T.held
  }

  lemma RestartedHolds(T: Tracee, restarts: bool)
    requires Holds(T) && Collected(T)
    ensures Holds(Restarted(T, restarts)) && Holds(Restarted(T.(waitPid := 0), restarts))
  {
  }

  lemma ToldHolds(st: State, p: nat, t: nat, poked: bool)
    requires t in st.tracees && st.tracees[t].ptracer == Some(p) && p in st.tracees && p != t && st.tracees[p].nbPtracees > 0
    requires HeldBack(st)
    ensures HeldBack(Told(st, p, t, poked)) && Told(st, p, t, poked).tracees.Keys == st.tracees.Keys
    ensures Collected(st.tracees[p]) ==> Collected(Told(st, p, t, poked).tracees[p])
    ensures poked && !st.tracees[t].ended ==> Collected(Told(st, p, t, poked).tracees[t])
  {
    hide Holds;
    assert Holds(st.tracees[t]) && Holds(st.tracees[p]);
    LinksHold(st.tracees[t], st.tracees[p]);
  }

  lemma LinksHold(T: Tracee, P: Tracee)
    ensures Holds(T.(ptracer := None)) && Holds(T.(pending := false)) && Holds(T.(held := true))
    ensures forall n: nat :: Holds(P.(nbPtracees := n)) == Holds(P)
  {
  }

  lemma EventHolds(st: State, t: nat, ended: bool, poked: bool, restarts: bool)
    requires Inv(st) && t in st.tracees && st.tracees[t].ptracer.Some? && HeldBack(st)
    requires var p := st.tracees[t].ptracer.value;
             p in st.tracees && Awaited(st.tracees[p], p, st.tracees[t], t) ==> Collected(st.tracees[p]) && (ended || restarts || poked)
    ensures var p := st.tracees[t].ptracer.value; p in st.tracees && p != t && st.tracees[p].nbPtracees > 0
    ensures HeldBack(PtraceeEvent(st, t, ended, poked, restarts))
  {
    var p := st.tracees[t].ptracer.value;
    HasPtracee(st, p, t);
    hide Inv, Told, Restarted, Awaited, Matches, ExpectedClone, Holds, Collected;
    RecordedHolds(st.tracees[t], ended);
    var st1 := Recorded(st, t, ended);
    AwaitedAlike(st, t, ended, p);
    if Awaited(st1.tracees[p], p, st1.tracees[t], t) {
      ToldHolds(st1, p, t, poked);
      var st2 := Told(st1, p, t, poked);
      RestartedHolds(st2.tracees[p], restarts);
      WokenHolds(st2.tracees[p], restarts);
      if !(restarts || ended) {
        RestartedHolds(st2.tracees[t], true);
      }
    }
  }

  lemma RecordedHolds(T: Tracee, ended: bool)
    ensures Holds(T.(pending := true, ended := ended, held := true, running := false))
  {
  }

  lemma WokenHolds(P: Tracee, restarts: bool)
    requires Holds(P) && Collected(P)
    ensures Holds(Restarted(P.(waitPid := 0), restarts))
  {
  }

  lemma AwaitedAlike(st: State, t: nat, ended: bool, p: nat)
    requires t in st.tracees && p in st.tracees && p != t
    ensures Awaited(Recorded(st, t, ended).tracees[p], p, Recorded(st, t, ended).tracees[t], t) <==> Awaited(st.tracees[p], p, st.tracees[t], t)
  {
  }

  lemma WaitHolds(st: State, p: nat, pid: int, o: Options, poked: bool, c: Candidate)
    requires p in st.tracees && HeldBack(st)
    ensures HeldBack(WaitExited(st, p, pid, o, poked, c))
  {
    hide Told, Holds;
    var st0 := st.(tracees := st.tracees[p := st.tracees[p].(waitsIn := DoesntWait)]);
    WaitingHolds(st.tracees[p], pid, o);
    assert HeldBack(st0);
    if c.Live? && c.t in st0.tracees && st0.tracees[c.t].ptracer == Some(p) && p != c.t && st0.tracees[p].nbPtracees > 0 {
      ToldHolds(st0, p, c.t, poked);
    } else if c.Dead? {
      LinksHold(st0.tracees[p], st0.tracees[p]);
    }
  }

  lemma WaitingHolds(P: Tracee, pid: int, o: Options)
    ensures Holds(P.(waitsIn := DoesntWait)) == Holds(P)
    ensures Holds(P.(waitsIn := DoesntWait).(waitPid := pid, options := o)) == Holds(P)
  {
  }

  lemma BereftHolds(st: State, t: nat)
    requires HeldBack(st)
    ensures HeldBack(Bereft(st, t))
    ensures forall q :: q in Bereft(st, t).tracees && Collected(st.tracees[q]) ==> Collected(Bereft(st, t).tracees[q])
  {
    hide Bereft, Orphaned, Holds, Collected;
    BereftAt(st, t);
    forall q | q in Bereft(st, t).tracees
      ensures Holds(Bereft(st, t).tracees[q]) && (Collected(st.tracees[q]) ==> Collected(Bereft(st, t).tracees[q]))
    {
      OrphanHolds(st.tracees[q], t);
    }
  }

  lemma DeathHolds(st: State, t: nat, z: nat, restarts: bool)
    requires Inv(st) && t in st.tracees && z !in st.zombies && HeldBack(st)
    requires var p := st.tracees[t].ptracer;
             p.Some? && p.value in st.tracees && st.tracees[p.value].waitPid != 0 ==> Collected(st.tracees[p.value])
    ensures HeldBack(Removed(st, t, z, restarts))
  {
    hide Inv, Bereft, Restarted, Orphaned, Holds, Collected;
    var st1 := Bereft(st, t);
    BereftAt(st, t);
    BereftHolds(st, t);
    var T := st.tracees[t];
    if T.ptracer.Some? && T.ptracer.value in st1.tracees && st1.tracees[T.ptracer.value].nbPtracees > 0 && !(T.pending && T.ended) {
      var p := T.ptracer.value;
      LinksHold(st1.tracees[p], st1.tracees[p]);
      OrphanedKeeps(st.tracees[p], t);
      var P := st1.tracees[p].(nbPtracees := st1.tracees[p].nbPtracees - 1);
      CountsCollected(st1.tracees[p], st1.tracees[p].nbPtracees - 1);
      if P.nbPtracees == 0 && P.waitPid != 0 {
        RestartedHolds(P, restarts);
      }
    }
  }

  lemma CountsCollected(P: Tracee, n: nat)
    ensures Collected(P.(nbPtracees := n)) == Collected(P)
  {
  }

  lemma OrphanHolds(T: Tracee, t: nat)
    requires Holds(T)
    ensures Holds(Orphaned(T, t)) && (Collected(T) ==> Collected(Orphaned(T, t)))
  {
  }

  lemma StepHolds(st: State, s: Step)
    requires Inv(st) && Possible(st, s) && HeldBack(st) && Collecting(st, s)
    ensures HeldBack(Next(st, s))
  {
    hide Inv, Removed, WaitExited, PtraceeEvent, Restarted;
    match s {
      case Birth(t, parent, clone) =>
      case Attach(t, p) => LinksHold(st.tracees[t], st.tracees[p]);
      case Event(t, ended, poked, restarts) => EventHolds(st, t, ended, poked, restarts);
      case Stop(t) =>
      case Restart(t, restarts) => RestartedHolds(st.tracees[t], restarts);
      case Wait(p, pid, o, poked, c) => WaitHolds(st, p, pid, o, poked, c);
      case Resume(p, t, detaches) =>
        HasPtracee(st, p, t) by { InvLinked(st); }
        ResumeHolds(st, p, t, detaches);
      case Death(t, z, restarts) => DeathHolds(st, t, z, restarts);
    }
  }

  lemma ResumeHolds(st: State, p: nat, t: nat, detaches: bool)
    requires t in st.tracees && st.tracees[t].ptracer == Some(p) && p in st.tracees && p != t && st.tracees[p].nbPtracees > 0
    requires HeldBack(st) && (detaches || Collected(st.tracees[t]))
    ensures HeldBack(Resumed(st, p, t, detaches))
  {
    hide Restarted;
    var st1 := if detaches then Detached(st, t) else st;
    LinksHold(st.tracees[t], st.tracees[p]);
    assert Holds(st.tracees[t]) && Holds(st.tracees[p]);
    RestartedHolds(st1.tracees[t], true);
  }

  ghost predicate CollectingRun(st: State, steps: seq<Step>)
    requires Inv(st) && Run(st, steps)
    decreases |steps|
  {
    steps != [] ==>
      Collecting(st, steps[0]) && (StepKeeps(st, steps[0]); CollectingRun(Next(st, steps[0]), steps[1..]))
  }

  /** Whoever has an event pending is stopped, and is not passed over. */
  lemma HeldNotMissed(st: State, s: Step)
    requires Inv(st) && HeldBack(st)
    ensures Quiet(st) && !Misses(st, s)
  {
    forall p, t | p in st.tracees && t in st.tracees && st.tracees[p].waitPid != 0 && Awaited(st.tracees[p], p, st.tracees[t], t)
      ensures !st.tracees[t].pending
    {
      assert NothingMissed(st, p) && Holds(st.tracees[t]);
    }
    if s.Wait? {
      forall t ensures !PassedOver(st, s.p, s.pid, s.o, t) {
        assert t in st.tracees ==> Holds(st.tracees[t]) && Stopped(st.tracees[t]);
      }
    }
  }

  /** Then no wait(2) passes over an event, and a ptracer blocked in wait(2) has every event of those it waits for. */
  lemma {:induction false} NothingPending(st: State, steps: seq<Step>)
    requires Inv(st) && Run(st, steps) && HeldBack(st) && CollectingRun(st, steps)
    ensures NothingPassedOver(st, steps) && QuietRun(st, steps) && Quiet(After(st, steps))
    decreases |steps|
  {
    if steps == [] {
      HeldNotMissed(st, Stop(0));
    } else {
      HeldNotMissed(st, steps[0]);
      StepKeeps(st, steps[0]);
      StepHolds(st, steps[0]);
      hide Inv, Next, HeldBack, Collecting, Quiet, Misses;
      NothingPending(Next(st, steps[0]), steps[1..]);
    }
  }

  // ----- Waiting for one ptracee -----

  ghost predicate IsThere(st: State, p: nat, pid: nat) {
    (pid in st.tracees && st.tracees[pid].ptracer == Some(p)) || ZombieThere(st, p, pid)
  }

  ghost predicate ZombieThere(st: State, p: nat, pid: nat) {
    exists z :: z in st.zombies && st.zombies[z].ptracer == p && st.zombies[z].pid == pid
  }

  /** A ptracer that is blocked until one ptracee has an event has that ptracee, or its zombie. */
  ghost predicate StillThere(st: State, p: nat)
    requires p in st.tracees
  {
    st.tracees[p].waitPid > 0 ==> IsThere(st, p, st.tracees[p].waitPid)
  }

  /** The end of a ptracee that its ptracer waits for, and for nobody else, comes with its event, or leaves that ptracer with
  no ptracee; and a ptracer blocks for a ptracee that is still there. */
  ghost predicate Announced(st: State, s: Step)
    requires Inv(st) && Possible(st, s)
  {
    match s
    case Death(t, z, _) =>
      var T := st.tracees[t];
      T.ptracer.Some? && T.ptracer.value in st.tracees && st.tracees[T.ptracer.value].waitPid == t ==>
        (T.pending && T.ended) || st.tracees[T.ptracer.value].nbPtracees == 1 || ZombieThere(st, T.ptracer.value, t)
    case Wait(p, pid, o, _, c) => c.Nobody? && pid > 0 && !o.nohang && st.tracees[p].nbPtracees > 0 ==> IsThere(st, p, pid)
    case _ => true
  }

  ghost predicate AllThere(st: State) {
    forall p :: p in st.tracees ==> StillThere(st, p)
  }

  /** The same ptracees and zombies, or more. */
  ghost predicate KeepsLinks(st: State, st': State, p: nat) {
    && (forall x :: x in st.tracees && st.tracees[x].ptracer == Some(p) ==> x in st'.tracees && st'.tracees[x].ptracer == Some(p))
    && (forall z :: z in st.zombies && st.zombies[z].ptracer == p ==> z in st'.zombies && st'.zombies[z] == st.zombies[z])
  }

  lemma ThereStays(st: State, st': State, p: nat)
    requires p in st.tracees && p in st'.tracees && StillThere(st, p)
    requires st'.tracees[p].waitPid <= 0 || (st'.tracees[p].waitPid == st.tracees[p].waitPid && KeepsLinks(st, st', p))
    ensures StillThere(st', p)
  {
    if st'.tracees[p].waitPid > 0 && ZombieThere(st, p, st.tracees[p].waitPid) {
      var z :| z in st.zombies && st.zombies[z].ptracer == p && st.zombies[z].pid == st.tracees[p].waitPid;
      assert z in st'.zombies;
    }
  }

  lemma ToldLinks(st: State, p: nat, t: nat, poked: bool, q: nat)
    requires t in st.tracees && st.tracees[t].ptracer == Some(p) && p in st.tracees && p != t && st.tracees[p].nbPtracees > 0
    ensures Told(st, p, t, poked).tracees.Keys == st.tracees.Keys
    ensures q in st.tracees ==> Told(st, p, t, poked).tracees[q].waitPid == st.tracees[q].waitPid
    ensures q != p ==> KeepsLinks(st, Told(st, p, t, poked), q)
  {
  }

  lemma RecordedLinks(st: State, t: nat, ended: bool, q: nat)
    requires t in st.tracees
    ensures KeepsLinks(st, Recorded(st, t, ended), q)
    ensures q in st.tracees ==> Recorded(st, t, ended).tracees[q].waitPid == st.tracees[q].waitPid
  {
  }

  /** Waking a tracee, or restarting another one, leaves links and waits alone. */
  lemma WokenLinks(st: State, p: nat, t: nat, restarts: bool, again: bool, q: nat)
    requires p in st.tracees && t in st.tracees && p != t
    ensures var st1 := Woken(st, p, restarts);
            var st2 := if again then st1.(tracees := st1.tracees[t := Restarted(st1.tracees[t], true)]) else st1;
            && KeepsLinks(st, st2, q) && st2.tracees.Keys == st.tracees.Keys && st2.tracees[p].waitPid == 0
            && (q in st.tracees && q != p ==> st2.tracees[q].waitPid == st.tracees[q].waitPid)
  {
  }

  lemma LinksTwice(st0: State, st1: State, st2: State, q: nat)
    requires KeepsLinks(st0, st1, q) && KeepsLinks(st1, st2, q)
    ensures KeepsLinks(st0, st2, q)
  {
  }

  lemma EventThere(st: State, t: nat, ended: bool, poked: bool, restarts: bool, q: nat)
    requires Inv(st) && t in st.tracees && st.tracees[t].ptracer.Some? && q in st.tracees && StillThere(st, q)
    ensures var p := st.tracees[t].ptracer.value; p in st.tracees && p != t && st.tracees[p].nbPtracees > 0
    ensures q in PtraceeEvent(st, t, ended, poked, restarts).tracees
    ensures StillThere(PtraceeEvent(st, t, ended, poked, restarts), q)
  {
    var p := st.tracees[t].ptracer.value;
    HasPtracee(st, p, t);
    hide Inv, StillThere, Awaited, Told, Woken, Restarted, KeepsLinks;
    var st1 := Recorded(st, t, ended);
    RecordedLinks(st, t, ended, q);
    if Awaited(st1.tracees[p], p, st1.tracees[t], t) {
      ToldLinks(st1, p, t, poked, q);
      ToldLinks(st1, p, t, poked, p);
      var st2 := Told(st1, p, t, poked);
      WokenLinks(st2, p, t, restarts, !(restarts || ended), q);
      if q != p {
        LinksTwice(st, st1, st2, q);
        LinksTwice(st, st2, PtraceeEvent(st, t, ended, poked, restarts), q);
      }
    }
    ThereStays(st, PtraceeEvent(st, t, ended, poked, restarts), q);
  }

  lemma WaitThere(st: State, p: nat, pid: int, o: Options, poked: bool, c: Candidate, q: nat)
    requires p in st.tracees && st.tracees[p].waitPid == 0 && Finds(st, p, pid, o, c) && q in st.tracees && StillThere(st, q)
    ensures q in WaitExited(st, p, pid, o, poked, c).tracees
    ensures StillThere(WaitExited(st, p, pid, o, poked, c), q) <==>
              (q == p && c.Nobody? && pid > 0 && !o.nohang && st.tracees[p].nbPtracees > 0 ==> IsThere(st, p, pid))
  {
    hide StillThere, Finds, Told, ToldZombie, IsThere, KeepsLinks;
    var st' := WaitExited(st, p, pid, o, poked, c);
    var st0 := st.(tracees := st.tracees[p := st.tracees[p].(waitsIn := DoesntWait)]);
    match c
    case Live(t) =>
      ChangeThere(st, st0, p, q);
      if t in st0.tracees && st0.tracees[t].ptracer == Some(p) && p != t && st0.tracees[p].nbPtracees > 0 {
        ToldLinks(st0, p, t, poked, q);
        ToldLinks(st0, p, t, poked, p);
        ThereStays(st0, st', q);
      }
    case Dead(z) =>
      ChangeThere(st, st0, p, q);
      if z in st0.zombies && st0.zombies[z].ptracer == p && st0.tracees[p].nbPtracees > 0 {
        ToldZombieLinks(st0, z, poked, q);
        ThereStays(st0, st', q);
      }
    case Nobody => BlockThere(st, p, pid, o, q);
  }

  lemma ToldZombieLinks(st: State, z: nat, poked: bool, q: nat)
    requires z in st.zombies && st.zombies[z].ptracer in st.tracees && st.tracees[st.zombies[z].ptracer].nbPtracees > 0
    ensures ToldZombie(st, z, poked).tracees.Keys == st.tracees.Keys
    ensures q in st.tracees ==> ToldZombie(st, z, poked).tracees[q].waitPid == st.tracees[q].waitPid
    ensures q != st.zombies[z].ptracer ==> KeepsLinks(st, ToldZombie(st, z, poked), q)
  {
  }

  lemma BlockThere(st: State, p: nat, pid: int, o: Options, q: nat)
    requires p in st.tracees && st.tracees[p].waitPid == 0 && q in st.tracees && StillThere(st, q)
    ensures q in WaitExited(st, p, pid, o, true, Nobody).tracees
    ensures StillThere(WaitExited(st, p, pid, o, true, Nobody), q) <==>
              (q == p && pid > 0 && !o.nohang && st.tracees[p].nbPtracees > 0 ==> IsThere(st, p, pid))
    ensures WaitExited(st, p, pid, o, true, Nobody) == WaitExited(st, p, pid, o, false, Nobody)
  {
    hide IsThere, Told, ToldZombie, KeepsLinks;
    var st' := WaitExited(st, p, pid, o, true, Nobody);
    SameTracees(st, st', p);
    if pid > 0 {
      SameThere(st, st', p, pid);
    }
    if q != p {
      SameLinks(st, st', q);
      ThereStays(st, st', q);
    }
  }

  lemma SameTracees(st: State, st': State, p: nat)
    requires p in st.tracees && p in st'.tracees && st' == st.(tracees := st.tracees[p := st'.tracees[p]])
    requires st'.tracees[p].ptracer == st.tracees[p].ptracer
    ensures st'.zombies == st.zombies && st'.tracees.Keys == st.tracees.Keys
    ensures forall x :: x in st.tracees ==> st'.tracees[x].ptracer == st.tracees[x].ptracer
  {
  }

  lemma SameLinks(st: State, st': State, q: nat)
    requires st'.zombies == st.zombies && st'.tracees.Keys == st.tracees.Keys
    requires forall x :: x in st.tracees ==> st'.tracees[x].ptracer == st.tracees[x].ptracer
    ensures KeepsLinks(st, st', q)
  {
  }

  /** The same links, the same ptracees. */
  lemma SameThere(st: State, st': State, p: nat, pid: nat)
    requires st'.zombies == st.zombies && st'.tracees.Keys == st.tracees.Keys
    requires forall x :: x in st.tracees ==> st'.tracees[x].ptracer == st.tracees[x].ptracer
    ensures IsThere(st', p, pid) <==> IsThere(st, p, pid)
  {
  }

  /** The same ptracees but t, and the same zombies. */
  ghost predicate KeepsOthers(st: State, st': State, p: nat, t: nat) {
    && (forall x :: x in st.tracees && x != t && st.tracees[x].ptracer == Some(p) ==> x in st'.tracees && st'.tracees[x].ptracer == Some(p))
    && (forall z :: z in st.zombies && st.zombies[z].ptracer == p ==> z in st'.zombies && st'.zombies[z] == st.zombies[z])
  }

  lemma OthersThere(st: State, st': State, q: nat, t: nat, pid: nat)
    requires KeepsOthers(st, st', q, t) && IsThere(st, q, pid) && (pid != t || ZombieThere(st, q, t))
    ensures IsThere(st', q, pid)
  {
    if pid in st.tracees && st.tracees[pid].ptracer == Some(q) && pid != t {
      assert pid in st'.tracees;
    } else {
      var z :| z in st.zombies && st.zombies[z].ptracer == q && st.zombies[z].pid == pid;
      assert z in st'.zombies;
    }
  }

  lemma BereftOthers(st: State, t: nat, q: nat)
    requires t in st.tracees && q in st.tracees && q != t
    ensures var st1 := Bereft(st, t);
            && q in st1.tracees && t !in st1.tracees && KeepsOthers(st, st1, q, t)
            && st1.tracees[q].waitPid == st.tracees[q].waitPid && st1.tracees[q].nbPtracees == st.tracees[q].nbPtracees
            && forall x :: x in st1.zombies ==> x in st.zombies && st1.zombies[x] == st.zombies[x]
  {
    BereftAt(st, t);
    forall x | x in st.tracees && x != t
      ensures Orphaned(st.tracees[x], t).ptracer == (if st.tracees[x].ptracer == Some(t) then None else st.tracees[x].ptracer)
    {
      OrphanedKeeps(st.tracees[x], t);
    }
    OrphanedKeeps(st.tracees[q], t);
    hide Bereft, Orphaned;
  }

  /** A state with the same links, and a zombie more, if any. */
  lemma OthersKept(st: State, st1: State, st': State, q: nat, t: nat)
    requires KeepsOthers(st, st1, q, t) && st'.tracees.Keys == st1.tracees.Keys
    requires forall x :: x in st1.tracees ==> st'.tracees[x].ptracer == st1.tracees[x].ptracer
    requires forall z :: z in st1.zombies && z in st.zombies ==> z in st'.zombies && st'.zombies[z] == st1.zombies[z]
    ensures KeepsOthers(st, st', q, t)
  {
  }

  /** Does a ptracer still count t when t is removed? */
  ghost predicate CountedBy(st: State, t: nat, p: nat) {
    t in st.tracees && st.tracees[t].ptracer == Some(p) && p in Bereft(st, t).tracees && Bereft(st, t).tracees[p].nbPtracees > 0
  }

  lemma RemovedUncounted(st: State, t: nat, z: nat, restarts: bool)
    requires t in st.tracees && (st.tracees[t].ptracer.Some? ==> !CountedBy(st, t, st.tracees[t].ptracer.value))
    ensures Removed(st, t, z, restarts) == Bereft(st, t)
  {
    hide Bereft;
  }

  lemma RemovedCounted(st: State, t: nat, z: nat, restarts: bool, p: nat)
    requires CountedBy(st, t, p)
    ensures var st1, st' := Bereft(st, t), Removed(st, t, z, restarts);
            && st'.tracees.Keys == st1.tracees.Keys && (forall x :: x in st1.tracees ==> st'.tracees[x].ptracer == st1.tracees[x].ptracer)
            && (forall x :: x in st1.tracees && x != p ==> st'.tracees[x].waitPid == st1.tracees[x].waitPid)
            && if st.tracees[t].pending && st.tracees[t].ended then
                 st'.tracees == st1.tracees && st'.zombies == st1.zombies[z := Zombie(t, st.tracees[t].parent, st.tracees[t].clone, p)]
               else
                 st'.zombies == st1.zombies && st'.tracees[p].waitPid == if st1.tracees[p].nbPtracees == 1 then 0 else st1.tracees[p].waitPid
  {
    hide Bereft, Restarted;
    var P := Bereft(st, t).tracees[p].(nbPtracees := Bereft(st, t).tracees[p].nbPtracees - 1);
    RestartLinks(P.(waitPid := 0), restarts);
  }

  /** What the death of t leaves to another tracee. */
  lemma RemovedAt(st: State, t: nat, z: nat, restarts: bool, q: nat)
    requires Inv(st) && t in st.tracees && z !in st.zombies && q in st.tracees && q != t
    ensures var st' := Removed(st, t, z, restarts);
            && q in st'.tracees && t !in st'.tracees && KeepsOthers(st, st', q, t)
            && (st.tracees[t].ptracer != Some(q) ==> st'.tracees[q].waitPid == st.tracees[q].waitPid)
            && (st.tracees[t].ptracer == Some(q) ==> LeftTo(st, st', t, z, q))
  {
    hide Inv, Bereft, Orphaned, KeepsOthers, Removed, LeftTo;
    var st1, st' := Bereft(st, t), Removed(st, t, z, restarts);
    BereftOthers(st, t, q);
    if st.tracees[t].ptracer.Some? && CountedBy(st, t, st.tracees[t].ptracer.value) {
      RemovedCounted(st, t, z, restarts, st.tracees[t].ptracer.value);
    } else {
      RemovedUncounted(st, t, z, restarts);
    }
    OthersKept(st, st1, st', q, t);
    if st.tracees[t].ptracer == Some(q) {
      RemovedLeft(st, t, z, restarts, q);
    }
  }

  lemma RemovedLeft(st: State, t: nat, z: nat, restarts: bool, q: nat)
    requires Inv(st) && t in st.tracees && q in st.tracees && q != t && st.tracees[t].ptracer == Some(q)
    ensures q in Removed(st, t, z, restarts).tracees && LeftTo(st, Removed(st, t, z, restarts), t, z, q)
  {
    hide Inv, Bereft, KeepsOthers, Removed, Linked, Counted;
    BereftOthers(st, t, q);
    InvLinked(st);
    HasPtracee(st, q, t);
    RemovedCounted(st, t, z, restarts, q);
  }

  ghost predicate LeftTo(st: State, st': State, t: nat, z: nat, q: nat)
    requires t in st.tracees && q in st.tracees && q in st'.tracees
  {
    if st.tracees[t].pending && st.tracees[t].ended then
      z in st'.zombies && st'.zombies[z].ptracer == q && st'.zombies[z].pid == t && st'.tracees[q].waitPid == st.tracees[q].waitPid
    else
      && st'.tracees[q].waitPid == (if st.tracees[q].nbPtracees == 1 then 0 else st.tracees[q].waitPid)
      && forall x :: x in st'.zombies ==> x in st.zombies && st'.zombies[x] == st.zombies[x]
  }

  lemma DeathThere(st: State, t: nat, z: nat, restarts: bool, q: nat)
    requires Inv(st) && t in st.tracees && z !in st.zombies && q in st.tracees && q != t && StillThere(st, q)
    ensures q in Removed(st, t, z, restarts).tracees
    ensures StillThere(Removed(st, t, z, restarts), q) <==>
              (st.tracees[t].ptracer == Some(q) && st.tracees[q].waitPid == t ==>
                 (st.tracees[t].pending && st.tracees[t].ended) || st.tracees[q].nbPtracees == 1 || ZombieThere(st, q, t))
  {
    hide Inv, Removed, KeepsOthers, IsThere, LeftTo, ZombieThere;
    var st' := Removed(st, t, z, restarts);
    RemovedAt(st, t, z, restarts, q);
    var pid := st.tracees[q].waitPid;
    if st.tracees[t].ptracer == Some(q) {
      HasPtracee(st, q, t) by { InvLinked(st); }
      ZeroIsNobody(st);
      if pid == t {
        LeftThere(st, st', t, z, q);
      } else {
        LeftWaits(st, st', t, z, q);
        if pid > 0 {
          OthersThere(st, st', q, t, pid);
        }
      }
    } else if pid > 0 {
      NotItsPtracee(st, t, q);
      OthersThere(st, st', q, t, pid);
    }
  }

  lemma NotItsPtracee(st: State, t: nat, q: nat)
    requires t in st.tracees && st.tracees[t].ptracer != Some(q)
    ensures IsThere(st, q, t) ==> ZombieThere(st, q, t)
  {
  }

  lemma LeftWaits(st: State, st': State, t: nat, z: nat, q: nat)
    requires t in st.tracees && q in st.tracees && q in st'.tracees && LeftTo(st, st', t, z, q)
    ensures st'.tracees[q].waitPid == 0 || st'.tracees[q].waitPid == st.tracees[q].waitPid
  {
  }

  /** What becomes of a ptracer that waits for t alone. */
  lemma LeftThere(st: State, st': State, t: nat, z: nat, q: nat)
    requires t in st.tracees && q in st.tracees && q in st'.tracees && t !in st'.tracees && st.tracees[q].waitPid == t && t > 0
    requires LeftTo(st, st', t, z, q) && KeepsOthers(st, st', q, t)
    ensures StillThere(st', q) <==>
              (st.tracees[t].pending && st.tracees[t].ended) || st.tracees[q].nbPtracees == 1 || ZombieThere(st, q, t)
  {
    if ZombieThere(st, q, t) {
      var x :| x in st.zombies && st.zombies[x].ptracer == q && st.zombies[x].pid == t;
      assert x in st'.zombies;
    }
  }

  lemma ZeroIsNobody(st: State)
    requires Inv(st)
    ensures 0 !in st.tracees
  {
  }

  /** What keeps it so, exactly: the end of an awaited ptracee comes with its event, and a wait(2) starts while the ptracee is
  there. */
  lemma StepThere(st: State, s: Step)
    requires Inv(st) && Possible(st, s) && AllThere(st)
    ensures AllThere(Next(st, s)) <==> Announced(st, s)
  {
    hide Inv, StillThere, Removed, WaitExited, PtraceeEvent, Restarted, Finds, IsThere, ZombieThere;
    match s {
      case Birth(t, parent, clone) =>
        forall q | q in Next(st, s).tracees ensures StillThere(Next(st, s), q) {
          BirthThere(st, t, parent, clone, q);
        }
      case Attach(t, p) =>
        forall q | q in st.tracees ensures StillThere(Next(st, s), q) {
          AttachThere(st, t, p, q);
        }
      case Event(t, ended, poked, restarts) =>
        EventTracees(st, t, ended, poked, restarts);
        forall q | q in st.tracees ensures StillThere(Next(st, s), q) {
          EventThere(st, t, ended, poked, restarts, q);
        }
      case Stop(t) =>
        forall q | q in st.tracees ensures StillThere(Next(st, s), q) {
          ChangeThere(st, Next(st, s), t, q);
        }
      case Restart(t, restarts) =>
        RestartLinks(st.tracees[t], restarts);
        forall q | q in st.tracees ensures StillThere(Next(st, s), q) {
          ChangeThere(st, Next(st, s), t, q);
        }
      case Wait(p, pid, o, poked, c) => WaitsThere(st, p, pid, o, poked, c);
      case Resume(p, t, detaches) =>
        HasPtracee(st, p, t) by { InvLinked(st); }
        forall q | q in st.tracees ensures StillThere(Next(st, s), q) {
          ResumeThere(st, p, t, detaches, q);
        }
      case Death(t, z, restarts) => DeathsThere(st, t, z, restarts);
    }
  }

  lemma WaitsThere(st: State, p: nat, pid: int, o: Options, poked: bool, c: Candidate)
    requires Inv(st) && Possible(st, Wait(p, pid, o, poked, c)) && AllThere(st)
    ensures AllThere(WaitExited(st, p, pid, o, poked, c)) <==> Announced(st, Wait(p, pid, o, poked, c))
  {
    hide Inv, StillThere, WaitExited, Finds, IsThere;
    WaitTracees(st, p, pid, o, poked, c);
    forall q | q in st.tracees
      ensures StillThere(WaitExited(st, p, pid, o, poked, c), q) <==>
              (q == p && c.Nobody? && pid > 0 && !o.nohang && st.tracees[p].nbPtracees > 0 ==> IsThere(st, p, pid))
    {
      WaitThere(st, p, pid, o, poked, c, q);
    }
  }

  lemma RestartLinks(T: Tracee, restarts: bool)
    ensures var T' := Restarted(T, restarts); T'.ptracer == T.ptracer && T'.waitPid == T.waitPid
  {
  }

  lemma AttachThere(st: State, t: nat, p: nat, q: nat)
    requires t in st.tracees && p in st.tracees && t != p && st.tracees[t].ptracer == None && q in st.tracees
    requires StillThere(st, q)
    ensures StillThere(Attached(st, t, p), q)
  {
    hide StillThere;
    ThereStays(st, Attached(st, t, p), q);
  }

  /** One tracee changed, and neither its links nor what it waits for. */
  lemma ChangeThere(st: State, st': State, t: nat, q: nat)
    requires t in st.tracees && t in st'.tracees && st' == st.(tracees := st.tracees[t := st'.tracees[t]])
    requires q in st.tracees && StillThere(st, q)
    requires st'.tracees[t].ptracer == st.tracees[t].ptracer && st'.tracees[t].waitPid == st.tracees[t].waitPid
    ensures StillThere(st', q)
  {
    hide StillThere, KeepsLinks;
    SameTracees(st, st', t);
    SameLinks(st, st', q);
    ThereStays(st, st', q);
  }

  lemma ResumeThere(st: State, p: nat, t: nat, detaches: bool, q: nat)
    requires t in st.tracees && st.tracees[t].ptracer == Some(p) && p in st.tracees && p != t && st.tracees[p].nbPtracees > 0
    requires st.tracees[p].waitPid == 0 && q in st.tracees && StillThere(st, q)
    ensures StillThere(Resumed(st, p, t, detaches), q)
  {
    hide StillThere, Restarted;
    var st1 := if detaches then Detached(st, t) else st;
    RestartLinks(st1.tracees[t], true);
    ThereStays(st, Resumed(st, p, t, detaches), q);
  }

  lemma BirthThere(st: State, t: nat, parent: Option<nat>, clone: bool, q: nat)
    requires t !in st.tracees && q in Born(st, t, parent, clone).tracees && (q in st.tracees ==> StillThere(st, q))
    ensures StillThere(Born(st, t, parent, clone), q)
  {
    if q != t {
      ThereStays(st, Born(st, t, parent, clone), q);
    }
  }

  lemma EventTracees(st: State, t: nat, ended: bool, poked: bool, restarts: bool)
    requires Inv(st) && t in st.tracees && st.tracees[t].ptracer.Some?
    ensures var p := st.tracees[t].ptracer.value; p in st.tracees && p != t && st.tracees[p].nbPtracees > 0
    ensures PtraceeEvent(st, t, ended, poked, restarts).tracees.Keys == st.tracees.Keys
  {
    var p := st.tracees[t].ptracer.value;
    HasPtracee(st, p, t);
    hide Inv, Awaited, Told, Woken, Restarted, KeepsLinks;
    var st1 := Recorded(st, t, ended);
    if Awaited(st1.tracees[p], p, st1.tracees[t], t) {
      ToldLinks(st1, p, t, poked, p);
      WokenLinks(Told(st1, p, t, poked), p, t, restarts, !(restarts || ended), p);
    }
  }

  lemma WaitTracees(st: State, p: nat, pid: int, o: Options, poked: bool, c: Candidate)
    requires p in st.tracees
    ensures WaitExited(st, p, pid, o, poked, c).tracees.Keys == st.tracees.Keys
  {
  }

  lemma DeathsThere(st: State, t: nat, z: nat, restarts: bool)
    requires Inv(st) && Possible(st, Death(t, z, restarts)) && AllThere(st)
    ensures AllThere(Removed(st, t, z, restarts)) <==> Announced(st, Death(t, z, restarts))
  {
    hide Inv, StillThere, Removed, ZombieThere;
    DeathTracees(st, t, z, restarts);
    OtherPtracer(st, t);
    forall q | q in st.tracees && q != t
      ensures StillThere(Removed(st, t, z, restarts), q) <==>
              (st.tracees[t].ptracer == Some(q) && st.tracees[q].waitPid == t ==>
                 (st.tracees[t].pending && st.tracees[t].ended) || st.tracees[q].nbPtracees == 1 || ZombieThere(st, q, t))
    {
      DeathThere(st, t, z, restarts, q);
    }
  }

  lemma OtherPtracer(st: State, t: nat)
    requires Inv(st) && t in st.tracees
    ensures st.tracees[t].ptracer != Some(t)
  {
  }

  lemma DeathTracees(st: State, t: nat, z: nat, restarts: bool)
    requires t in st.tracees
    ensures forall q :: q in Removed(st, t, z, restarts).tracees <==> q in st.tracees && q != t
  {
    BereftAt(st, t);
    hide Bereft, Orphaned;
  }

  ghost predicate AnnouncedRun(st: State, steps: seq<Step>)
    requires Inv(st) && Run(st, steps)
    decreases |steps|
  {
    steps != [] ==>
      Announced(st, steps[0]) && (StepKeeps(st, steps[0]); AnnouncedRun(Next(st, steps[0]), steps[1..]))
  }

  /** Then a ptracer blocked until one ptracee has an event still has that ptracee, or its zombie. */
  lemma {:induction false} AwaitedThere(st: State, steps: seq<Step>, p: nat)
    requires Inv(st) && Run(st, steps) && AllThere(st) && AnnouncedRun(st, steps)
    ensures var st' := After(st, steps);
            p in st'.tracees && st'.tracees[p].waitPid > 0 ==> IsThere(st', p, st'.tracees[p].waitPid)
    decreases |steps|
  {
    if steps == [] {
      assert p in st.tracees ==> StillThere(st, p);
    } else {
      StepKeeps(st, steps[0]);
      StepThere(st, steps[0]);
      hide Inv, Next, AllThere, Announced;
      AwaitedThere(Next(st, steps[0]), steps[1..], p);
    }
  }

  /** An event is told by a wait(2) only.  A ptracer that restarts its ptracee before it collected the event leaves it
  pending, and may then block although it is still there: this is why only tracees that were not restarted have
  something to tell. */
  lemma StaleEvent(st: State, p: nat, t: nat, o: Options)
    requires Inv(st) && t in st.tracees && Untold(st.tracees[t]) && !st.tracees[t].ended && st.tracees[t].waitPid == 0
    requires st.tracees[t].ptracer == Some(p) && p in st.tracees && st.tracees[p].waitPid == 0
    requires ExpectedClone(o, st.tracees[t].clone) && !o.nohang && forall z :: z in st.zombies ==> st.zombies[z].pid != t
    ensures p != t && st.tracees[p].nbPtracees > 0
    ensures var st1 := Resumed(st, p, t, false);
            && Finds(st1, p, t, o, Nobody) && p in st1.tracees
            && var st2 := WaitExited(st1, p, t, o, true, Nobody);
               && p in st2.tracees && t in st2.tracees
               && st2.tracees[p].waitPid == t && Awaited(st2.tracees[p], p, st2.tracees[t], t) && st2.tracees[t].pending
  {
    hide Inv, Counted, Linked, NothingMissed, ZombiesOf, Ptracees;
    HasPtracee(st, p, t) by { InvLinked(st); }
    var st1 := Resumed(st, p, t, false);
    assert st1 == st.(tracees := st.tracees[t := st.tracees[t].(running := true, held := false)]);
    NoneFound(st1, p, t, o);
    hide Finds, Resumed, Matches, ExpectedClone;
    assert Matches(t, t);
  }

  lemma NoneFound(st: State, p: nat, t: nat, o: Options)
    requires t in st.tracees && st.tracees[t].running && forall z :: z in st.zombies ==> st.zombies[z].pid != t
    ensures Finds(st, p, t, o, Nobody)
  {
  }

  /** Nothing is there at first. */
  lemma InitialInv()
    ensures Inv(State(map[], map[])) && HeldBack(State(map[], map[])) && AllThere(State(map[], map[])) && Quiet(State(map[], map[]))
  {
  }

  // ----- What goes wrong -----

  ghost predicate Reaches(st: State, steps: seq<Step>, st': State) {
    Inv(st) && Run(st, steps) && After(st, steps) == st' && Inv(st')
  }

  lemma {:induction false} ReachesNext(st: State, steps: seq<Step>, st1: State, s: Step)
    requires Reaches(st, steps, st1) && Possible(st1, s)
    ensures Reaches(st, steps + [s], Next(st1, s))
    decreases |steps|
  {
    hide Inv, Possible, Next;
    StepKeeps(st1, s);
    if steps == [] {
      OneStep(st, s);
      assert steps + [s] == [s];
    } else {
      StepKeeps(st, steps[0]);
      ReachesNext(Next(st, steps[0]), steps[1..], st1, s);
      assert (steps + [s])[1..] == steps[1..] + [s] && (steps + [s])[0] == steps[0];
    }
  }

  lemma OneStep(st: State, s: Step)
    requires Inv(st) && Possible(st, s)
    ensures Reaches(st, [s], Next(st, s))
  {
    hide Inv, Possible, Next, Run, After;
    StepKeeps(st, s);
    OneStepRun(st, s);
  }

  /** __WALL alone. */
  const ANY := Options(true, false, false)

  function Newborn(parent: Option<nat>): Tracee {
    Tracee(parent, false, None, false, false, false, true, 0, 0, Options(false, false, false), DoesntWait)
  }

  const PTRACER := Newborn(None).(nbPtracees := 1)
  const PTRACEE := Newborn(Some(1)).(ptracer := Some(1))

  /** The ptracer 1 and its ptracee 2. */
  lemma PtraceeAttached()
    ensures Reaches(State(map[], map[]), [Birth(1, None, false), Birth(2, Some(1), false), Attach(2, 1)],
                    State(map[1 := PTRACER, 2 := PTRACEE], map[]))
  {
    hide Reaches, Inv, Finds, Removed, WaitExited, PtraceeEvent, Resumed, Restarted;
    BothBorn();
    var steps := [Birth(1, None, false), Birth(2, Some(1), false)];
    var st := State(map[1 := Newborn(None), 2 := Newborn(Some(1))], map[]);
    ReachesInv(State(map[], map[]), steps, st);
    ReachesNext(State(map[], map[]), steps, st, Attach(2, 1));
    assert Next(st, Attach(2, 1)) == State(map[1 := PTRACER, 2 := PTRACEE], map[]);
    assert steps + [Attach(2, 1)] == [Birth(1, None, false), Birth(2, Some(1), false), Attach(2, 1)];
  }

  lemma ReachesInv(st: State, steps: seq<Step>, st': State)
    requires Reaches(st, steps, st')
    ensures Inv(st) && Inv(st')
  {
  }

  lemma BothBorn()
    ensures Reaches(State(map[], map[]), [Birth(1, None, false), Birth(2, Some(1), false)],
                    State(map[1 := Newborn(None), 2 := Newborn(Some(1))], map[]))
  {
    InitialInv();
    hide Reaches, Inv, Finds, Removed, WaitExited, PtraceeEvent, Resumed, Restarted;
    var st, st1 := State(map[], map[]), State(map[1 := Newborn(None)], map[]);
    OneStep(st, Birth(1, None, false));
    assert Next(st, Birth(1, None, false)) == st1;
    ReachesInv(st, [Birth(1, None, false)], st1);
    ReachesNext(st, [Birth(1, None, false)], st1, Birth(2, Some(1), false));
    assert Next(st1, Birth(2, Some(1), false)) == State(map[1 := Newborn(None), 2 := Newborn(Some(1))], map[]);
    assert [Birth(1, None, false)] + [Birth(2, Some(1), false)] == [Birth(1, None, false), Birth(2, Some(1), false)];
  }

  function RestartsThenWaits(): seq<Step> {
    [Birth(1, None, false), Birth(2, Some(1), false), Attach(2, 1), Event(2, false, true, false), Resume(1, 2, false),
     Stop(1), Wait(1, 2, ANY, true, Nobody)]
  }

  const BEHIND := PTRACEE.(pending := true)

  /** The ptracee stops with an event, and its ptracer restarts it without a wait(2). */
  lemma Restarts()
    ensures Reaches(State(map[], map[]), RestartsThenWaits()[..5], State(map[1 := PTRACER, 2 := BEHIND], map[]))
  {
    PtraceeAttached();
    hide Reaches, Inv, Finds, Removed, WaitExited, Told;
    var none, steps := State(map[], map[]), RestartsThenWaits();
    var st, e := State(map[1 := PTRACER, 2 := PTRACEE], map[]), Event(2, false, true, false);
    assert steps[..3] == [Birth(1, None, false), Birth(2, Some(1), false), Attach(2, 1)];
    ReachesInv(none, steps[..3], st);
    ReachesNext(none, steps[..3], st, e);
    var st1 := State(map[1 := PTRACER, 2 := BEHIND.(held := true, running := false)], map[]);
    assert Next(st, e) == st1;
    assert steps[..4] == steps[..3] + [e];
    ReachesInv(none, steps[..4], st1);
    ReachesNext(none, steps[..4], st1, Resume(1, 2, false));
    assert Next(st1, Resume(1, 2, false)) == State(map[1 := PTRACER, 2 := BEHIND], map[]);
    assert steps[..5] == steps[..4] + [Resume(1, 2, false)];
  }

  const IN_FRONT := State(map[1 := PTRACER.(running := false, waitPid := 2, options := ANY), 2 := BEHIND], map[])

  lemma ThenWaits()
    ensures Reaches(State(map[], map[]), RestartsThenWaits(), IN_FRONT)
  {
    hide Reaches, Inv, Removed, Told, PtraceeEvent, Resumed, Restarted;
    Restarts();
    var none, steps, s := State(map[], map[]), RestartsThenWaits(), Wait(1, 2, ANY, true, Nobody);
    var st0 := State(map[1 := PTRACER, 2 := BEHIND], map[]);
    var st := State(map[1 := PTRACER.(running := false), 2 := BEHIND], map[]);
    ReachesInv(none, steps[..5], st0);
    ReachesNext(none, steps[..5], st0, Stop(1));
    assert Next(st0, Stop(1)) == st by { hide Finds; }
    assert steps[..6] == steps[..5] + [Stop(1)];
    ReachesInv(none, steps[..6], st);
    NoneFound(st, 1, 2, ANY);
    ReachesNext(none, steps[..6], st, s);
    assert Next(st, s) == IN_FRONT by { hide Finds; }
    assert steps == steps[..6] + [s];
  }

  /** From nothing at all, to a ptracer blocked in front of a pending event. */
  lemma EventPassedOver()
    ensures var st, steps := State(map[], map[]), RestartsThenWaits();
            && Inv(st) && Run(st, steps)
            && var st' := After(st, steps);
               && 1 in st'.tracees && 2 in st'.tracees && st'.tracees[1].waitPid == 2
               && Awaited(st'.tracees[1], 1, st'.tracees[2], 2) && st'.tracees[2].pending && !Quiet(st')
  {
    hide Inv, Run, After, RestartsThenWaits;
    ThenWaits();
    assert Awaited(IN_FRONT.tracees[1], 1, IN_FRONT.tracees[2], 2) && !QuietFor(IN_FRONT, 1);
  }

  function DiesUnannounced(): seq<Step> {
    [Birth(1, None, false), Birth(2, Some(1), false), Attach(2, 1), Birth(3, Some(1), false), Attach(3, 1),
     Stop(1), Wait(1, 2, ANY, true, Nobody), Death(2, 0, true)]
  }

  /** The ptracer has two ptracees. */
  lemma TwoAttached()
    ensures Reaches(State(map[], map[]), DiesUnannounced()[..5],
                    State(map[1 := PTRACER.(nbPtracees := 2), 2 := PTRACEE, 3 := PTRACEE], map[]))
  {
    PtraceeAttached();
    hide Reaches, Inv, Removed, Told, PtraceeEvent, Resumed, Restarted, Finds;
    var none, steps := State(map[], map[]), DiesUnannounced();
    var st := State(map[1 := PTRACER, 2 := PTRACEE], map[]);
    assert steps[..3] == [Birth(1, None, false), Birth(2, Some(1), false), Attach(2, 1)];
    ReachesInv(none, steps[..3], st);
    ReachesNext(none, steps[..3], st, Birth(3, Some(1), false));
    var st1 := State(map[1 := PTRACER, 2 := PTRACEE, 3 := Newborn(Some(1))], map[]);
    assert Next(st, Birth(3, Some(1), false)) == st1;
    assert steps[..4] == steps[..3] + [Birth(3, Some(1), false)];
    ReachesInv(none, steps[..4], st1);
    ReachesNext(none, steps[..4], st1, Attach(3, 1));
    assert Next(st1, Attach(3, 1)) == State(map[1 := PTRACER.(nbPtracees := 2), 2 := PTRACEE, 3 := PTRACEE], map[]);
    assert steps[..5] == steps[..4] + [Attach(3, 1)];
  }

  const FOR_ONE := PTRACER.(nbPtracees := 2, running := false, waitPid := 2, options := ANY)

  /** It waits for one of them. */
  lemma WaitsForOne()
    ensures Reaches(State(map[], map[]), DiesUnannounced()[..7], State(map[1 := FOR_ONE, 2 := PTRACEE, 3 := PTRACEE], map[]))
  {
    TwoAttached();
    hide Reaches, Inv, Removed, Told, PtraceeEvent, Resumed, Restarted;
    var none, steps := State(map[], map[]), DiesUnannounced();
    var st := State(map[1 := PTRACER.(nbPtracees := 2), 2 := PTRACEE, 3 := PTRACEE], map[]);
    var st' := State(map[1 := PTRACER.(nbPtracees := 2, running := false), 2 := PTRACEE, 3 := PTRACEE], map[]);
    ReachesInv(none, steps[..5], st);
    ReachesNext(none, steps[..5], st, Stop(1));
    assert Next(st, Stop(1)) == st' by { hide Finds; }
    assert steps[..6] == steps[..5] + [Stop(1)];
    ReachesInv(none, steps[..6], st');
    NoneFound(st', 1, 2, ANY);
    ReachesNext(none, steps[..6], st', Wait(1, 2, ANY, true, Nobody));
    hide Finds;
    assert Next(st', Wait(1, 2, ANY, true, Nobody)) == State(map[1 := FOR_ONE, 2 := PTRACEE, 3 := PTRACEE], map[]);
    assert steps[..7] == steps[..6] + [Wait(1, 2, ANY, true, Nobody)];
  }

  const FOR_NOBODY := State(map[1 := FOR_ONE.(nbPtracees := 1), 3 := PTRACEE], map[])

  lemma ThenDies()
    ensures Reaches(State(map[], map[]), DiesUnannounced(), FOR_NOBODY)
  {
    hide Reaches, Inv, Removed, Told, PtraceeEvent, Resumed, Restarted;
    WaitsForOne();
    var none, steps, s := State(map[], map[]), DiesUnannounced(), Death(2, 0, true);
    var st := State(map[1 := FOR_ONE, 2 := PTRACEE, 3 := PTRACEE], map[]);
    ReachesInv(none, steps[..7], st);
    ReachesNext(none, steps[..7], st, s);
    assert Next(st, s) == FOR_NOBODY by {
      OneLess(st);
    }
    assert steps == steps[..7] + [s];
  }

  lemma OneLess(st: State)
    requires st == State(map[1 := FOR_ONE, 2 := PTRACEE, 3 := PTRACEE], map[])
    ensures Removed(st, 2, 0, true) == FOR_NOBODY
  {
    assert Orphaned(FOR_ONE, 2) == FOR_ONE && Orphaned(PTRACEE, 2) == PTRACEE;
    hide Orphaned, Restarted;
    assert Bereft(st, 2).tracees == map[1 := FOR_ONE, 3 := PTRACEE];
    assert Bereft(st, 2).zombies == map[];
    hide Bereft;
  }

  /** From nothing at all, to a ptracer blocked until one ptracee has an event that is no more. */
  lemma AwaitedGone()
    ensures var st, steps := State(map[], map[]), DiesUnannounced();
            && Inv(st) && Run(st, steps)
            && var st' := After(st, steps);
               && 1 in st'.tracees && st'.tracees[1].waitPid == 2 && st'.tracees[1].nbPtracees == 1
               && 2 !in st'.tracees && !IsThere(st', 1, 2) && !AllThere(st')
  {
    hide Inv, Run, After, DiesUnannounced;
    ThenDies();
    assert !StillThere(FOR_NOBODY, 1);
  }

  // ----- The source's own form -----

  /** What wait(2) returns: a pid; -ECHILD; 0, since no event is there yet; nothing yet, since it blocks; -errno, since the
  status could not be written; or it is started again in the kernel. */
  datatype Answer = Pid(pid: nat) | NoChild | NotYet | Blocks | NotWritten | Again

  class Emulation {
    var tracees: map<nat, Tracee>
    var zombies: map<nat, Zombie>
    /** The lists they are in. */
    var order: seq<nat>
    var zombieOrder: seq<nat>

    function Value(): State
      reads this
    {
      State(tracees, zombies)
    }

    ghost predicate Valid()
      reads this
    {
      && (forall t :: t in order <==> t in tracees)
      && (forall z :: z in zombieOrder <==> z in zombies)
    }

    /** attach_to_ptracer(). */
    method AttachToPtracer(t: nat, p: nat)
      requires t in tracees && p in tracees && t != p
      modifies this`tracees
      ensures Value() == Attached(old(Value()), t, p)
    {
      tracees := tracees[t := tracees[t].(ptracer := Some(p), pending := false, ended := false, held := false)];
      tracees := tracees[p := tracees[p].(nbPtracees := tracees[p].nbPtracees + 1)];
    }

    /** detach_from_ptracer(). */
    method DetachFromPtracer(t: nat)
      requires t in tracees && tracees[t].ptracer.Some?
      requires var p := tracees[t].ptracer.value; p in tracees && p != t && tracees[p].nbPtracees > 0
      modifies this`tracees
      ensures Value() == Detached(old(Value()), t) && tracees.Keys == old(tracees).Keys
    {
      var p := tracees[t].ptracer.value;
      tracees := tracees[t := tracees[t].(ptracer := None)];
      tracees := tracees[p := tracees[p].(nbPtracees := tracees[p].nbPtracees - 1)];
    }

    /** get_stopped_ptracee(), among those that have something to tell: zombies first. */
    method GetStoppedPtracee(p: nat, pid: int, o: Options) returns (c: Candidate)
      requires Valid()
      ensures Finds(Value(), p, pid, o, c)
      ensures c.Dead? ==> FirstDead(Value(), zombieOrder, p, pid, o, c.z)
      ensures c.Live? ==> FirstLive(Value(), order, p, pid, o, c.t) && forall z :: !DeadCandidates(Value(), p, pid, o, z)
    {
      var i := 0;
      while i < |zombieOrder|
        invariant 0 <= i <= |zombieOrder|
        invariant forall k :: 0 <= k < i ==> !DeadCandidates(Value(), p, pid, o, zombieOrder[k])
      {
        var z := zombieOrder[i];
        if z in zombies && zombies[z].ptracer == p {
          if Matches(pid, zombies[z].pid) && ExpectedClone(o, zombies[z].clone) {
            return Dead(z);
          }
        }
        i := i + 1;
      }
      i := 0;
      while i < |order|
        invariant 0 <= i <= |order|
        invariant forall k :: 0 <= k < i ==> !Candidates(Value(), p, pid, o, order[k])
      {
        var t := order[i];
        i := i + 1;
        if t !in tracees || tracees[t].ptracer != Some(p) || !Matches(pid, t) || !ExpectedClone(o, tracees[t].clone) {
          continue;
        }
        if tracees[t].running {
          continue;
        }
        if tracees[t].pending {
          return Live(t);
        }
        if pid == t {
          // Nobody else has that pid.
          assert forall t' :: Candidates(Value(), p, pid, o, t') ==> t' == t;
          NobodyDead(Value(), zombieOrder, p, pid, o);
          return Nobody;
        }
      }
      NobodyDead(Value(), zombieOrder, p, pid, o);
      NobodyLive(Value(), order, p, pid, o);
      return Nobody;
    }

    /** translate_wait_enter(): does PRoot answer this wait(2) itself? */
    method TranslateWaitEnter(p: nat, pid: int) returns (emulated: bool)
      requires p in tracees
      modifies this`tracees
      ensures emulated <==> old(tracees)[p].nbPtracees != 0 &&
                            (pid == -1 || (pid > 0 && pid in old(tracees) && old(tracees)[pid].ptracer == Some(p)))
      ensures tracees == old(tracees)[p := old(tracees)[p].(waitsIn := if emulated then WaitsInProot else WaitsInKernel)]
    {
      tracees := tracees[p := tracees[p].(waitsIn := WaitsInKernel)];
      // Without ptracees this is the kernel's affair.
      if tracees[p].nbPtracees == 0 {
        return false;
      }
      // And so it is for other pids.
      if pid != -1 {
        if pid <= 0 || pid !in tracees || tracees[pid].ptracer != Some(p) {
          return false;
        }
      }
      tracees := tracees[p := tracees[p].(waitsIn := WaitsInProot)];
      return true;
    }

    /** update_wait_status(), for a live ptracee. */
    method UpdateWaitStatus(p: nat, t: nat, poked: bool)
      requires t in tracees && tracees[t].ptracer == Some(p) && p in tracees && p != t && tracees[p].nbPtracees > 0
      modifies this`tracees
      ensures Value() == Told(old(Value()), p, t, poked) && tracees.Keys == old(tracees).Keys
    {
      // The end of a child is the kernel's to tell to its parent, and once is enough.
      if tracees[t].ptracer == tracees[t].parent && tracees[t].ended {
        DetachFromPtracer(t);
        return;
      }
      if !poked {
        return;
      }
      tracees := tracees[t := tracees[t].(pending := false)];
    }

    /** update_wait_status(), for a zombie: it goes when its ptracer knows. */
    method BuryZombie(z: nat, poked: bool)
      requires Valid() && z in zombies && zombies[z].ptracer in tracees && tracees[zombies[z].ptracer].nbPtracees > 0
      modifies this
      ensures Valid() && Value() == ToldZombie(old(Value()), z, poked)
    {
      if Some(zombies[z].ptracer) == zombies[z].parent || poked {
        var p := zombies[z].ptracer;
        tracees := tracees[p := tracees[p].(nbPtracees := tracees[p].nbPtracees - 1)];
        zombies := zombies - {z};
        zombieOrder := Unlinked(zombieOrder, z);
      }
    }

    /** has_ptracees(). */
    method HasPtracees(p: nat, pid: int, o: Options) returns (r: bool)
      requires Valid()
      ensures r <==> Expected(Value(), p, pid, o)
    {
      var i := 0;
      while i < |zombieOrder|
        invariant 0 <= i <= |zombieOrder|
        invariant forall k :: 0 <= k < i ==> !DeadCandidates(Value(), p, pid, o, zombieOrder[k])
      {
        var z := zombieOrder[i];
        if z in zombies && zombies[z].ptracer == p && Matches(pid, zombies[z].pid) && ExpectedClone(o, zombies[z].clone) {
          assert DeadCandidates(Value(), p, pid, o, z);
          return true;
        }
        i := i + 1;
      }
      i := 0;
      while i < |order|
        invariant 0 <= i <= |order|
        invariant forall k :: 0 <= k < i ==> !ExpectedPtracee(Value(), p, pid, o, order[k])
      {
        var t := order[i];
        if t in tracees && tracees[t].ptracer == Some(p) && Matches(pid, t) && ExpectedClone(o, tracees[t].clone) {
          assert ExpectedPtracee(Value(), p, pid, o, t);
          return true;
        }
        i := i + 1;
      }
      NobodyDead(Value(), zombieOrder, p, pid, o);
      forall t ensures !ExpectedPtracee(Value(), p, pid, o, t) {
        assert t in tracees ==> t in order;
      }
      return false;
    }

    /** translate_wait_exit(). */
    method TranslateWaitExit(p: nat, pid: int, o: Options, poked: bool) returns (c: Candidate, answer: Answer)
      requires Valid() && Inv(Value()) && p in tracees && tracees[p].waitPid == 0 && !tracees[p].running
      modifies this
      ensures Valid() && Finds(old(Value()), p, pid, o, c) && Value() == WaitExited(old(Value()), p, pid, o, poked, c)
      ensures Inv(Value())
      ensures c.Nobody? ==> answer == if old(tracees)[p].nbPtracees == 0 then NoChild
                                      else if !o.nohang then Blocks
                                      else if Expected(old(Value()), p, pid, o) then NotYet else NoChild
      ensures c.Live? ==> c.t in old(tracees) && Answered(answer, c.t, p, old(tracees)[c.t].parent, old(tracees)[c.t].ended, poked)
      ensures c.Dead? ==> c.z in old(zombies) && Answered(answer, old(zombies)[c.z].pid, p, old(zombies)[c.z].parent, true, poked)
    {
      hide Finds, Counted, NothingMissed, Linked, Told, ToldZombie, Expected;
      ghost var st := Value();
      // A stopped ptracee with an event that its ptracer does not know yet?
      c := GetStoppedPtracee(p, pid, o);
      WaitKeeps(st, p, pid, o, poked, c);
      FoundPtracer(st, p, pid, o, c);
      tracees := tracees[p := tracees[p].(waitsIn := DoesntWait)];
      if c.Nobody? {
        if tracees[p].nbPtracees == 0 {
          return c, NoChild;
        }
        if o.nohang {
          var some := HasPtracees(p, pid, o);
          ExpectedAlike(st, Value(), p, pid, o);
          return c, if some then NotYet else NoChild;
        }
        // From now on it is blocked.
        tracees := tracees[p := tracees[p].(waitPid := pid, options := o)];
        answer := Blocks;
      } else if c.Live? {
        var parent, ended := tracees[c.t].parent, tracees[c.t].ended;
        UpdateWaitStatus(p, c.t, poked);
        answer := if Some(p) == parent && ended then Again else if poked then Pid(c.t) else NotWritten;
      } else {
        var Z := zombies[c.z];
        BuryZombie(c.z, poked);
        answer := if Some(p) == Z.parent then Again else if poked then Pid(Z.pid) else NotWritten;
      }
    }

    /** restart_tracee(), as far as the emulation is concerned. */
    method RestartTracee(t: nat, restarts: bool)
      requires t in tracees
      modifies this`tracees
      ensures Value() == old(Value()).(tracees := old(tracees)[t := Restarted(old(tracees)[t], restarts)])
      ensures tracees.Keys == old(tracees).Keys
    {
      if restarts && tracees[t].waitPid == 0 && !(tracees[t].pending && tracees[t].ended) {
        tracees := tracees[t := tracees[t].(running := true, held := false)];
      }
    }

    /** handle_ptracee_event(), past its filters: shall the ptracee be kept stopped? */
    method HandlePtraceeEvent(t: nat, ended: bool, poked: bool, restarts: bool) returns (keepStopped: bool)
      requires Valid() && Inv(Value()) && t in tracees && tracees[t].ptracer.Some?
      modifies this`tracees
      ensures var p := old(tracees)[t].ptracer.value; p in old(tracees) && p != t && old(tracees)[p].nbPtracees > 0
      ensures Valid() && Inv(Value()) && Value() == PtraceeEvent(old(Value()), t, ended, poked, restarts)
      ensures keepStopped <==> !ended && (restarts || !Awaited(old(tracees)[old(tracees)[t].ptracer.value],
                                                               old(tracees)[t].ptracer.value, old(tracees)[t], t))
    {
      hide Counted, NothingMissed, Linked, Told, Inv;
      ghost var st := Value();
      EventKeeps(st, t, ended, poked, restarts);
      var p := tracees[t].ptracer.value;
      keepStopped := !ended;
      // The ptracer will ask for it.
      tracees := tracees[t := tracees[t].(pending := true, ended := ended, held := true, running := false)];
      ghost var st1 := Value();
      assert st1 == Recorded(st, t, ended);
      if Awaited(tracees[p], p, tracees[t], t) {
        UpdateWaitStatus(p, t, poked);
        ghost var st2 := Value();
        // It is blocked no longer.
        tracees := tracees[p := tracees[p].(waitPid := 0)];
        RestartTracee(p, restarts);
        assert Value() == Woken(st2, p, restarts);
        if !restarts {
          keepStopped := false;
        }
        if !keepStopped && !ended {
          RestartTracee(t, true);
        }
      }
      assert Value() == PtraceeEvent(st, t, ended, poked, restarts);
    }
  }

  /** The first one of a list that a wait(2) is about. */
  ghost predicate FirstDead(st: State, list: seq<nat>, p: nat, pid: int, o: Options, z: nat) {
    exists i :: 0 <= i < |list| && list[i] == z && forall k :: 0 <= k < i ==> !DeadCandidates(st, p, pid, o, list[k])
  }

  ghost predicate FirstLive(st: State, list: seq<nat>, p: nat, pid: int, o: Options, t: nat) {
    exists i :: 0 <= i < |list| && list[i] == t && forall k :: 0 <= k < i ==> !Candidates(st, p, pid, o, list[k])
  }

  function Unlinked(s: seq<nat>, x: nat): (r: seq<nat>)
    ensures forall y :: y in r <==> y in s && y != x
  {
    if s == [] then [] else (if s[0] == x then [] else [s[0]]) + Unlinked(s[1..], x)
  }

  ghost predicate ExpectedPtracee(st: State, p: nat, pid: int, o: Options, t: nat) {
    t in st.tracees && st.tracees[t].ptracer == Some(p) && Matches(pid, t) && ExpectedClone(o, st.tracees[t].clone)
  }

  /** A ptracee or a zombie that this wait(2) is about, whatever its state. */
  ghost predicate Expected(st: State, p: nat, pid: int, o: Options) {
    (exists t :: ExpectedPtracee(st, p, pid, o, t)) || exists z :: DeadCandidates(st, p, pid, o, z)
  }

  /** The pid of the one found is returned once its status is written; the end of a child of the ptracer is left to the
  kernel to tell. */
  ghost predicate Answered(answer: Answer, pid: nat, p: nat, parent: Option<nat>, ended: bool, poked: bool) {
    && (answer == Pid(pid) <==> poked && !(parent == Some(p) && ended))
    && (answer == Again <==> parent == Some(p) && ended)
    && (answer == NotWritten <==> !poked && !(parent == Some(p) && ended))
  }

  lemma ExpectedAlike(st: State, st': State, p: nat, pid: int, o: Options)
    requires p in st.tracees && st' == st.(tracees := st.tracees[p := st.tracees[p].(waitsIn := DoesntWait)])
    ensures Expected(st', p, pid, o) <==> Expected(st, p, pid, o)
  {
    forall t ensures ExpectedPtracee(st', p, pid, o, t) <==> ExpectedPtracee(st, p, pid, o, t) {
    }
    forall z ensures DeadCandidates(st', p, pid, o, z) <==> DeadCandidates(st, p, pid, o, z) {
    }
    hide ExpectedPtracee, DeadCandidates;
  }

  lemma NobodyDead(st: State, zombieOrder: seq<nat>, p: nat, pid: int, o: Options)
    requires forall z :: z in zombieOrder <==> z in st.zombies
    requires forall k :: 0 <= k < |zombieOrder| ==> !DeadCandidates(st, p, pid, o, zombieOrder[k])
    ensures forall z :: !DeadCandidates(st, p, pid, o, z)
  {
    forall z ensures !DeadCandidates(st, p, pid, o, z) {
      assert z in st.zombies ==> z in zombieOrder;
    }
  }

  lemma NobodyLive(st: State, order: seq<nat>, p: nat, pid: int, o: Options)
    requires forall t :: t in order <==> t in st.tracees
    requires forall k :: 0 <= k < |order| ==> !Candidates(st, p, pid, o, order[k])
    ensures forall t :: !Candidates(st, p, pid, o, t)
  {
    forall t ensures !Candidates(st, p, pid, o, t) {
      assert t in st.tracees ==> t in order;
    }
  }

  /** Whoever was found is counted. */
  lemma FoundPtracer(st: State, p: nat, pid: int, o: Options, c: Candidate)
    requires Inv(st) && p in st.tracees && Finds(st, p, pid, o, c)
    ensures c.Live? ==> c.t in st.tracees && st.tracees[c.t].ptracer == Some(p) && p != c.t && st.tracees[p].nbPtracees > 0
    ensures c.Dead? ==> c.z in st.zombies && st.zombies[c.z].ptracer == p && st.tracees[p].nbPtracees > 0
  {
    if c.Live? {
      HasPtracee(st, p, c.t);
    } else if c.Dead? {
      HasZombie(st, c.z);
    }
  }
}
