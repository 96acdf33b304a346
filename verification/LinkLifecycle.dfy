/** Who holds what, and when the descriptor, the status and the session are alive. */
module LinkLifecycle {
  import opened Bytes
  import opened Link
  import Frame

  // ----- mutexes and their holders -----

  ghost predicate HoldersMatch(w: World) {
    && WellShaped(w)
    && (forall t :: t in w.pcs ==> HolderOk(w.locks, t, w.pcs[t]))
    && (w.locks.send.Some? ==> w.locks.send.value in w.pcs)
    && (w.locks.lifecycle.Some? ==> w.locks.lifecycle.value in w.pcs)
    && forall p :: 0 <= p < PORTS ==> RequestHeld(w, p)
  }

  ghost predicate HolderOk(l: Locks, t: Tid, pc: Pc)
    requires |l.request| == PORTS
  {
    && (pc.Request? ==> pc.q.Port() < PORTS && l.request[pc.q.Port()] == Some(t))
    && (pc.HoldsSend() <==> l.send == Some(t))
    && (pc.HoldsLifecycle() <==> l.lifecycle == Some(t))
  }

  ghost predicate RequestHeld(w: World, p: nat)
    requires p < |w.locks.request|
  {
    w.locks.request[p].Some? ==>
      && w.locks.request[p].value in w.pcs
      && w.pcs[w.locks.request[p].value].Request?
      && w.pcs[w.locks.request[p].value].q.Port() == p
  }

  predicate OnlyMine(before: Option<Tid>, after: Option<Tid>, t: Tid) {
    after == before || (before in {None, Some(t)} && after in {None, Some(t)})
  }

  /** A step of t that touches no other thread's locks and leaves t's own books in order. */
  ghost predicate OwnBooks(w: World, t: Tid, w': World) {
    && t in w.pcs && t in w'.pcs && WellShaped(w) && WellShaped(w')
    && w'.pcs == w.pcs[t := w'.pcs[t]]
    && HolderOk(w'.locks, t, w'.pcs[t])
    && OnlyMine(w.locks.send, w'.locks.send, t)
    && OnlyMine(w.locks.lifecycle, w'.locks.lifecycle, t)
    && forall p :: 0 <= p < PORTS ==>
         && OnlyMine(w.locks.request[p], w'.locks.request[p], t)
         && (w'.locks.request[p] == Some(t) ==> w'.pcs[t].Request? && w'.pcs[t].q.Port() == p)
  }

  lemma OwnBooksKeepOthers(w: World, t: Tid, w': World)
    requires HoldersMatch(w) && OwnBooks(w, t, w')
    ensures HoldersMatch(w')
  {
    forall u | u in w'.pcs
      ensures HolderOk(w'.locks, u, w'.pcs[u])
    {
      if u != t {
        assert HolderOk(w.locks, u, w.pcs[u]);
      }
    }
    forall p: nat | p < PORTS
      ensures RequestHeld(w', p)
    {
      assert RequestHeld(w, p);
    }
  }

  lemma HeldAtOwnPort(w: World, t: Tid)
    requires HoldersMatch(w) && t in w.pcs
    ensures forall p :: 0 <= p < PORTS && w.locks.request[p] == Some(t) ==>
      w.pcs[t].Request? && w.pcs[t].q.Port() == p
  {
    forall p: nat | p < PORTS && w.locks.request[p] == Some(t)
      ensures w.pcs[t].Request? && w.pcs[t].q.Port() == p
    {
      assert RequestHeld(w, p);
    }
  }

  lemma HolderOf(w: World, t: Tid)
    requires HoldersMatch(w) && t in w.pcs
    ensures WellShaped(w) && HolderOk(w.locks, t, w.pcs[t])
  {
  }

  /** A running request moves nothing but the send mutex, and only between itself and nobody. */
  lemma JobMutexes(w: World, t: Tid, c: RequestChoice, w': World)
    requires WellShaped(w) && t in w.pcs && w.pcs[t].IsJob() && RequestStep(w, t, c, w')
    ensures WellShaped(w') && t in w'.pcs && w'.pcs == w.pcs[t := w'.pcs[t]]
    ensures w'.locks.request == w.locks.request && w'.locks.lifecycle == w.locks.lifecycle
    ensures w'.pcs[t].Request? && w'.pcs[t].q.Port() == w.pcs[t].q.Port()
    ensures Passed(w.pcs[t].HoldsSend(), w'.pcs[t].HoldsSend(), w.locks.send, w'.locks.send, t)
  {
    hide JobStep, Passed, Pc.HoldsSend;
    JobStepMutexes(w, t, c, w.pcs[t].q.job, w.pcs[t].q.pc, w');
  }

  lemma JobStepMutexes(w: World, t: Tid, c: RequestChoice, j: Job, pc: JobPc, w': World)
    requires WellShaped(w) && t in w.pcs && w.pcs[t] == Request(Running(j, pc)) && j.port < PORTS && JobStep(w, t, c, j, pc, w')
    ensures WellShaped(w') && t in w'.pcs && w'.pcs == w.pcs[t := w'.pcs[t]]
    ensures w'.locks.request == w.locks.request && w'.locks.lifecycle == w.locks.lifecycle
    ensures w'.pcs[t].Request? && w'.pcs[t].q.Port() == j.port
    ensures Passed(w.pcs[t].HoldsSend(), w'.pcs[t].HoldsSend(), w.locks.send, w'.locks.send, t)
  {
    hide Verdict;
  }

  lemma JobOwnBooks(w: World, t: Tid, c: RequestChoice, w': World)
    requires HoldersMatch(w) && t in w.pcs && w.pcs[t].IsJob() && RequestStep(w, t, c, w')
    ensures OwnBooks(w, t, w')
  {
    hide HoldersMatch, RequestStep;
    HolderOf(w, t);
    HeldAtOwnPort(w, t);
    JobMutexes(w, t, c, w');
  }

  lemma RequestOwnBooks(w: World, t: Tid, c: RequestChoice, w': World)
    requires HoldersMatch(w) && t in w.pcs && RequestStep(w, t, c, w')
    ensures OwnBooks(w, t, w')
  {
    if w.pcs[t].IsJob() {
      JobOwnBooks(w, t, c, w');
    } else {
      assert HolderOk(w.locks, t, w.pcs[t]);
      HeldAtOwnPort(w, t);
    }
  }

  lemma NoteOwnBooks(w: World, t: Tid, result: int, w': World)
    requires HoldersMatch(w) && t in w.pcs && NoteStep(w, t, result, w')
    ensures OwnBooks(w, t, w')
  {
    assert HolderOk(w.locks, t, w.pcs[t]);
    HeldAtOwnPort(w, t);
  }

  /** A receive call uses no lock beyond the step it is in. */
  lemma ReceiveShape(w: World, t: Tid, c: ReceiveChoice, w': World)
    requires t in w.pcs && WellShaped(w) && ReceiveStep(w, t, c, w')
    ensures t in w'.pcs && w'.pcs == w.pcs[t := w'.pcs[t]] && WellShaped(w') && w'.locks == w.locks
    ensures (w.pcs[t].Receive? || w.pcs[t].Idle?) && (w'.pcs[t].Receive? || w'.pcs[t].Idle?)
  {
    hide Processed, ReadStep, HelloStep;
    match w.pcs[t]
    case Receive(Checked(m, at)) => ProcessedShape(w, t, w', m, at);
    case Receive(Read) => ReadShape(w, t, c, w');
    case Receive(pc) =>
      if pc.Install? || pc.ResetPorts? || pc.ZeroStatus? || pc.ZeroTelemetry? {
        HelloShape(w, t, pc, w');
      }
    case _ =>
  }

  /** The same for the three groups of steps apart. */
  ghost predicate StaysReceiving(w: World, t: Tid, w': World) {
    && t in w'.pcs && w'.pcs == w.pcs[t := w'.pcs[t]] && WellShaped(w') && w'.locks == w.locks && w'.pcs[t].Receive?
  }

  lemma ProcessedShape(w: World, t: Tid, w': World, m: Msg, at: nat)
    requires t in w.pcs && WellShaped(w) && Frame.IsValidPort(m.port)
    requires (m.cmd == CMD_ALL_STATUS || m.cmd == CMD_DRIVE_TELEMETRY) ==> w.sh.status.Some?
    requires w' == Processed(w, t, m, at)
    ensures StaysReceiving(w, t, w')
  {
  }

  lemma ReadShape(w: World, t: Tid, c: ReceiveChoice, w': World)
    requires t in w.pcs && WellShaped(w) && ReadStep(w, t, c, w')
    ensures StaysReceiving(w, t, w')
  {
  }

  lemma HelloShape(w: World, t: Tid, pc: ReceivePc, w': World)
    requires t in w.pcs && WellShaped(w) && HelloStep(w, t, pc, w')
    ensures StaysReceiving(w, t, w')
  {
  }

  lemma ReceiveOwnBooks(w: World, t: Tid, c: ReceiveChoice, w': World)
    requires HoldersMatch(w) && t in w.pcs && ReceiveStep(w, t, c, w')
    ensures OwnBooks(w, t, w')
  {
    ReceiveShape(w, t, c, w');
    assert HolderOk(w.locks, t, w.pcs[t]);
    HeldAtOwnPort(w, t);
  }

  lemma ShutdownOwnBooks(w: World, t: Tid, w': World)
    requires HoldersMatch(w) && t in w.pcs && ShutdownStep(w, t, w')
    ensures OwnBooks(w, t, w')
  {
    hide HoldersMatch, ShutdownStep;
    HolderOf(w, t);
    HeldAtOwnPort(w, t);
    ShutdownMutexes(w, t, w');
  }

  /** A shutdown moves the send and lifecycle mutexes, and only between itself and nobody. */
  lemma ShutdownMutexes(w: World, t: Tid, w': World)
    requires WellShaped(w) && t in w.pcs && ShutdownStep(w, t, w')
    ensures WellShaped(w') && t in w'.pcs && w'.pcs == w.pcs[t := w'.pcs[t]] && w'.locks.request == w.locks.request
    ensures !w.pcs[t].Request? && !w'.pcs[t].Request?
    ensures Passed(w.pcs[t].HoldsSend(), w'.pcs[t].HoldsSend(), w.locks.send, w'.locks.send, t)
    ensures Passed(w.pcs[t].HoldsLifecycle(), w'.pcs[t].HoldsLifecycle(), w.locks.lifecycle, w'.locks.lifecycle, t)
  {
    hide ResetSlot, WindDownStep;
    match w.pcs[t]
    case Shutdown(pc) =>
      if !pc.WaitReceivers? && !pc.Detach? && !pc.CancelPorts? && !pc.Close? {
        WindDownMutexes(w, t, pc, w');
      }
    case _ =>
  }

  lemma WindDownMutexes(w: World, t: Tid, pc: ShutdownPc, w': World)
    requires WellShaped(w) && t in w.pcs && w.pcs[t] == Shutdown(pc) && WindDownStep(w, t, pc, w')
    ensures WellShaped(w') && t in w'.pcs && w'.pcs == w.pcs[t := w'.pcs[t]] && w'.locks.request == w.locks.request
    ensures !w'.pcs[t].Request? && w'.locks.lifecycle == w.locks.lifecycle && !w'.pcs[t].HoldsLifecycle()
    ensures Passed(w.pcs[t].HoldsSend(), w'.pcs[t].HoldsSend(), w.locks.send, w'.locks.send, t)
  {
  }

  /** Taken from nobody, given back, or left where it was. */
  predicate Passed(held: bool, holds: bool, before: Option<Tid>, after: Option<Tid>, t: Tid) {
    if held == holds then after == before
    else if holds then before.None? && after == Some(t)
    else after.None?
  }

  /** Initialisation holds no mutex from one step to the next. */
  lemma InitMutexes(w: World, t: Tid, c: InitChoice, w': World)
    requires WellShaped(w) && t in w.pcs && InitStep(w, t, c, w')
    ensures WellShaped(w') && t in w'.pcs && w'.pcs == w.pcs[t := w'.pcs[t]] && w'.locks == w.locks
    ensures (w.pcs[t].Idle? || w.pcs[t].Init?) && (w'.pcs[t].Idle? || w'.pcs[t].Init?)
  {
    hide ResetSlot;
  }

  lemma InitOwnBooks(w: World, t: Tid, c: InitChoice, w': World)
    requires HoldersMatch(w) && t in w.pcs && InitStep(w, t, c, w')
    ensures OwnBooks(w, t, w')
  {
    hide HoldersMatch, InitStep;
    HolderOf(w, t);
    HeldAtOwnPort(w, t);
    InitMutexes(w, t, c, w');
  }

  lemma StepOwnBooks(w: World, t: Tid, a: Action, w': World)
    requires HoldersMatch(w) && Step(w, t, a, w')
    ensures OwnBooks(w, t, w')
  {
    match a
    case OfRequest(c) => RequestOwnBooks(w, t, c, w');
    case OfNote(result) => NoteOwnBooks(w, t, result, w');
    case OfReceive(c) => ReceiveOwnBooks(w, t, c, w');
    case OfShutdown => ShutdownOwnBooks(w, t, w');
    case OfInit(c) => InitOwnBooks(w, t, c, w');
    case OfCount(_) =>
      assert HolderOk(w.locks, t, w.pcs[t]);
      HeldAtOwnPort(w, t);
  }

  lemma HoldersKept(w: World, t: Tid, a: Action, w': World)
    requires HoldersMatch(w) && Step(w, t, a, w')
    ensures HoldersMatch(w')
  {
    StepOwnBooks(w, t, a, w');
    OwnBooksKeepOthers(w, t, w');
  }

  // ----- what is alive when -----

  function ActiveSet(pcs: map<Tid, Pc>): set<Tid> { set t | t in pcs && pcs[t].Receive? }

  ghost predicate ThreadAlive(sh: Shared, closed: set<nat>, pc: Pc) {
    && (pc.Receive? ==> sh.handshake && sh.desc.Some? && ReceiveLocals(pc.r))
    && (pc.Shutdown? ==>
         && sh.stop
         && (!pc.s.WaitReceivers? ==> sh.active == 0)
         && (pc.HasDetached() ==> sh.desc.None?)
         && (pc.s.ClearHandshake? || pc.s.ClearV2? || pc.s.ClearSession? ==> sh.status.None?)
         && (pc.s.ClearV2? || pc.s.ClearSession? ==> !sh.handshake)
         && (pc.s.ClearSession? ==> !sh.v2))
    && (pc.Init? ==>
         && !sh.handshake && sh.active == 0 && sh.desc.Some? && !sh.stop
         && (pc.i.ClearPorts? || pc.i.Shake? || pc.i.MarkReady? ==> sh.status.Some?)
         && (pc.i.MarkReady? ==> sh.v2 && sh.session != 0)
         && (pc.i.DropDescriptor? ==> sh.status.None?))
    && (pc.Uses().Some? ==> pc.Uses().value !in closed)
  }

  /** An accepted HELLO names a session; a legacy frame carries no sequence number. */
  predicate ReceiveLocals(r: ReceivePc) {
    && (r.Install? ==> r.session != 0)
    && (r.Dispatch? || r.Checked? ==> r.m.v2 || r.m.sequence == 0)
  }

  /** Initialisation runs alone: no shutdown and no second initialisation beside it. */
  ghost predicate InitAlone(pcs: map<Tid, Pc>) {
    forall t, u :: t in pcs && u in pcs && t != u && pcs[t].Init? ==> !pcs[u].Init? && !pcs[u].Shutdown?
  }

  ghost predicate SharedAlive(sh: Shared, closed: set<nat>) {
    && (sh.desc.Some? ==> sh.desc.value !in closed)
    && (sh.handshake ==> sh.v2 && sh.session != 0)
    && (sh.handshake && sh.desc.Some? ==> sh.status.Some?)
  }

  ghost predicate Alive(w: World) {
    && HoldersMatch(w)
    && w.sh.active == |ActiveSet(w.pcs)|
    && InitAlone(w.pcs)
    && SharedAlive(w.sh, w.closed)
    && forall t :: t in w.pcs ==> ThreadAlive(w.sh, w.closed, w.pcs[t])
  }

  /** How many are active after one thread moved. */
  lemma ActiveAfter(pcs: map<Tid, Pc>, t: Tid, pc: Pc)
    requires t in pcs
    ensures var n := |ActiveSet(pcs)|; var n' := |ActiveSet(pcs[t := pc])|;
      n' - n == (if pc.Receive? then 1 else 0) - (if pcs[t].Receive? then 1 else 0)
    ensures pcs[t].Receive? ==> |ActiveSet(pcs)| > 0
  {
    var rest := ActiveSet(pcs) - {t};
    assert ActiveSet(pcs) == if pcs[t].Receive? then rest + {t} else rest;
    assert ActiveSet(pcs[t := pc]) == if pc.Receive? then rest + {t} else rest;
  }

  lemma NoneActive(w: World)
    requires Alive(w) && w.sh.active == 0
    ensures forall t :: t in w.pcs ==> !w.pcs[t].Receive?
  {
    forall t | t in w.pcs
      ensures !w.pcs[t].Receive?
    {
      ActiveAfter(w.pcs, t, Idle);
    }
  }

  /** What a step may do to the state other threads rely on. */
  ghost predicate Harmless(w: World, t: Tid, w': World) {
    && t in w.pcs && t in w'.pcs
    && (forall u :: u in w.pcs && u != t ==> ThreadAlive(w'.sh, w'.closed, w.pcs[u]))
    && w'.pcs == w.pcs[t := w'.pcs[t]]
    && ThreadAlive(w'.sh, w'.closed, w'.pcs[t])
    && SharedAlive(w'.sh, w'.closed)
    && w'.sh.active == |ActiveSet(w'.pcs)|
    && ((w'.pcs[t].Init? && !w.pcs[t].Init?) || (w'.pcs[t].Shutdown? && !w.pcs[t].Shutdown?) ==>
         w.pcs[t].Idle? && forall u :: u in w.pcs ==> !w.pcs[u].Init? && (w'.pcs[t].Init? ==> !w.pcs[u].Shutdown?))
  }

  lemma HarmlessKeepsAlive(w: World, t: Tid, a: Action, w': World)
    requires Alive(w) && Step(w, t, a, w') && Harmless(w, t, w')
    ensures Alive(w')
  {
    HoldersKept(w, t, a, w');
  }

  // ----- requests, sends and count resets stand by -----

  ghost predicate Bystander(w: World, t: Tid, w': World) {
    && t in w.pcs && t in w'.pcs && w'.pcs == w.pcs[t := w'.pcs[t]]
    && w'.closed == w.closed
    && w'.sh.(nextSeq := 0, status := None) == w.sh.(nextSeq := 0, status := None)
    && w'.sh.status.Some? == w.sh.status.Some?
    && (w.pcs[t].Idle? || w.pcs[t].Request? || w.pcs[t].Note?)
    && (w'.pcs[t].Idle? || w'.pcs[t].Request? || w'.pcs[t].Note?)
    && w'.pcs[t].Uses() in {None, w.sh.desc}
  }

  lemma BystanderHarmless(w: World, t: Tid, w': World)
    requires Alive(w) && Bystander(w, t, w')
    ensures Harmless(w, t, w')
  {
    ActiveAfter(w.pcs, t, w'.pcs[t]);
  }

  lemma JobBystander(w: World, t: Tid, c: RequestChoice, w': World)
    requires t in w.pcs && WellShaped(w) && w.pcs[t].IsJob() && RequestStep(w, t, c, w')
    ensures Bystander(w, t, w')
  {
    hide JobStep, Bystander;
    JobStepBystander(w, t, c, w.pcs[t].q.job, w.pcs[t].q.pc, w');
  }

  lemma JobStepBystander(w: World, t: Tid, c: RequestChoice, j: Job, pc: JobPc, w': World)
    requires t in w.pcs && WellShaped(w) && w.pcs[t] == Request(Running(j, pc)) && j.port < PORTS && JobStep(w, t, c, j, pc, w')
    ensures Bystander(w, t, w')
  {
    hide Verdict;
  }

  lemma RequestBystander(w: World, t: Tid, c: RequestChoice, w': World)
    requires t in w.pcs && WellShaped(w) && RequestStep(w, t, c, w')
    ensures Bystander(w, t, w')
  {
    if w.pcs[t].IsJob() {
      JobBystander(w, t, c, w');
    }
  }

  lemma NoteBystander(w: World, t: Tid, result: int, w': World)
    requires t in w.pcs && WellShaped(w) && NoteStep(w, t, result, w')
    ensures Bystander(w, t, w')
  {
  }

  // ----- inside a receive call -----

  ghost predicate InsideReceive(w: World, t: Tid, w': World) {
    && t in w.pcs && t in w'.pcs && w'.pcs == w.pcs[t := w'.pcs[t]]
    && w.pcs[t].Receive? && w'.pcs[t].Receive?
    && w'.closed == w.closed
    && w'.sh == w.sh.(session := w'.sh.session, status := w'.sh.status, telemetry := w'.sh.telemetry)
    && w'.sh.status.Some? == w.sh.status.Some?
    && (w'.sh.session == w.sh.session || w.pcs[t] == Receive(Install(w'.sh.session)))
    && (ReceiveLocals(w.pcs[t].r) ==> ReceiveLocals(w'.pcs[t].r))
  }

  lemma InsideHarmless(w: World, t: Tid, w': World)
    requires Alive(w) && InsideReceive(w, t, w')
    ensures Harmless(w, t, w')
  {
    ActiveAfter(w.pcs, t, w'.pcs[t]);
  }

  lemma ProcessedInside(w: World, t: Tid, w': World, m: Msg, at: nat)
    requires t in w.pcs && WellShaped(w) && w.pcs[t].Receive? && Frame.IsValidPort(m.port)
    requires (m.cmd == CMD_ALL_STATUS || m.cmd == CMD_DRIVE_TELEMETRY) ==> w.sh.status.Some?
    requires w' == Processed(w, t, m, at)
    ensures InsideReceive(w, t, w')
  {
  }

  lemma ReceiveInside(w: World, t: Tid, c: ReceiveChoice, w': World)
    requires t in w.pcs && WellShaped(w) && ReceiveStep(w, t, c, w')
    requires w.pcs[t].Receive? && !w.pcs[t].r.Leave?
    ensures InsideReceive(w, t, w')
  {
    match w.pcs[t].r
    case Checked(m, at) => ProcessedInside(w, t, w', m, at);
    case _ =>
  }

  lemma ReceiveHarmless(w: World, t: Tid, c: ReceiveChoice, w': World)
    requires Alive(w) && t in w.pcs && ReceiveStep(w, t, c, w')
    ensures Harmless(w, t, w')
  {
    if w.pcs[t].Receive? && !w.pcs[t].r.Leave? {
      ReceiveInside(w, t, c, w');
      InsideHarmless(w, t, w');
    } else {
      ActiveAfter(w.pcs, t, w'.pcs[t]);
    }
  }

  // ----- shutdown and initialisation -----

  lemma CloseHarmless(w: World, t: Tid, w': World)
    requires Alive(w) && t in w.pcs && w.pcs[t].Shutdown? && w.pcs[t].s.Close? && ShutdownStep(w, t, w')
    ensures Harmless(w, t, w')
  {
    ActiveAfter(w.pcs, t, w'.pcs[t]);
    forall u | u in w.pcs && u != t
      ensures ThreadAlive(w'.sh, w'.closed, w.pcs[u])
    {
      assert HolderOk(w.locks, u, w.pcs[u]) && HolderOk(w.locks, t, w.pcs[t]);
    }
  }

  lemma WindDownHarmless(w: World, t: Tid, pc: ShutdownPc, w': World)
    requires Alive(w) && t in w.pcs && w.pcs[t] == Shutdown(pc) && w.pcs[t].HasDetached()
    requires WindDownStep(w, t, pc, w')
    ensures Harmless(w, t, w')
  {
    ActiveAfter(w.pcs, t, w'.pcs[t]);
    NoneActive(w);
  }

  lemma ShutdownHarmless(w: World, t: Tid, w': World)
    requires Alive(w) && t in w.pcs && ShutdownStep(w, t, w')
    ensures Harmless(w, t, w')
  {
    match w.pcs[t]
    case Idle => ActiveAfter(w.pcs, t, w'.pcs[t]);
    case Shutdown(WaitReceivers) => ActiveAfter(w.pcs, t, w'.pcs[t]);
    case Shutdown(Detach) =>
      NoneActive(w);
      ActiveAfter(w.pcs, t, w'.pcs[t]);
    case Shutdown(CancelPorts(_, _, _)) => ActiveAfter(w.pcs, t, w'.pcs[t]);
    case Shutdown(Close(_, _)) => CloseHarmless(w, t, w');
    case Shutdown(pc) => WindDownHarmless(w, t, pc, w');
  }

  lemma NegotiateHarmless(w: World, t: Tid, c: InitChoice, pc: InitPc, w': World)
    requires Alive(w) && t in w.pcs && w.pcs[t] == Init(pc) && NegotiateStep(w, t, c, pc, w')
    ensures Harmless(w, t, w')
  {
    ActiveAfter(w.pcs, t, w'.pcs[t]);
    NoneActive(w);
  }

  lemma InitHarmless(w: World, t: Tid, c: InitChoice, w': World)
    requires Alive(w) && t in w.pcs && InitStep(w, t, c, w')
    ensures Harmless(w, t, w')
  {
    match w.pcs[t]
    case Idle =>
      ActiveAfter(w.pcs, t, w'.pcs[t]);
      assert forall u :: u in w.pcs ==> ThreadAlive(w.sh, w.closed, w.pcs[u]) && !w.pcs[u].Receive?;
      assert ActiveSet(w.pcs) == {};
    case Init(ClearStats) => ActiveAfter(w.pcs, t, w'.pcs[t]);
    case Init(AllocStatus) => ActiveAfter(w.pcs, t, w'.pcs[t]);
    case Init(ClearPorts(_)) => ActiveAfter(w.pcs, t, w'.pcs[t]);
    case Init(pc) => NegotiateHarmless(w, t, c, pc, w');
  }

  lemma AliveKept(w: World, t: Tid, a: Action, w': World)
    requires Alive(w) && Step(w, t, a, w')
    ensures Alive(w')
  {
    match a {
    case OfRequest(c) => RequestBystander(w, t, c, w'); BystanderHarmless(w, t, w');
    case OfNote(result) => NoteBystander(w, t, result, w'); BystanderHarmless(w, t, w');
    case OfReceive(c) => ReceiveHarmless(w, t, c, w');
    case OfShutdown => ShutdownHarmless(w, t, w');
    case OfInit(c) => InitHarmless(w, t, c, w');
    case OfCount(_) => BystanderHarmless(w, t, w');
    }
    HarmlessKeepsAlive(w, t, a, w');
  }
}
