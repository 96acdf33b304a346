/** What a session change invalidates, and for whom. */
module LinkSession {
  import opened Link
  import opened LinkHistory
  import opened LinkLifecycle
  import opened LinkRequests
  import opened LinkInvariant
  import Frame

  // ----- requests older than the session do not stay pending -----

  /** No slot below port i still waits for a request registered before entry since. */
  ghost predicate FlushedBelow(w: World, i: nat, since: nat)
    requires WellShaped(w) && i <= PORTS
  {
    forall p :: 0 <= p < i && w.slots[p].pending ==> w.regAt[p] >= since
  }

  ghost predicate FlushOk(w: World) {
    WellShaped(w) && forall t :: t in w.pcs ==> FlushProgress(w, Reset(w.pcs[t]))
  }

  /** How far a thread has come with resetting the ports, and since when; none: it is not at it. */
  datatype Flush = NoFlush | Flushing(i: nat, since: nat)

  function Reset(pc: Pc): Flush {
    match pc
    case Receive(ResetPorts(i, since)) => Flushing(i, since)
    case Receive(ZeroStatus(since)) => Flushing(PORTS, since)
    case Shutdown(CancelPorts(i, _, since)) => Flushing(i, since)
    case Shutdown(Close(_, since)) => Flushing(PORTS, since)
    case _ => NoFlush
  }

  ghost predicate FlushProgress(w: World, f: Flush)
    requires WellShaped(w)
  {
    f.Flushing? ==> f.since <= |w.log| && f.i <= PORTS && FlushedBelow(w, f.i, f.since)
  }

  /** Slots that are pending after a step were so before, or have just been registered. */
  ghost predicate PendingMoves(w: World, w': World) {
    && WellShaped(w) && WellShaped(w') && Grows(w.log, w'.log)
    && forall p :: 0 <= p < PORTS && w'.slots[p].pending ==>
         (w.slots[p].pending && w'.regAt[p] == w.regAt[p]) || w'.regAt[p] == |w.log|
  }

  /** The reset loop advances only past a slot it has just emptied. */
  ghost predicate FlushMoves(w: World, t: Tid, w': World)
    requires WellShaped(w')
  {
    && t in w.pcs && t in w'.pcs && w'.pcs == w.pcs[t := w'.pcs[t]]
    && var f := Reset(w'.pcs[t]);
       f.Flushing? ==>
         if f.i == 0 then f.since <= |w'.log|
         else f.i <= PORTS && Reset(w.pcs[t]) == Flushing(f.i - 1, f.since) && !w'.slots[f.i - 1].pending
  }

  lemma FlushKept(w: World, t: Tid, w': World)
    requires FlushOk(w) && PendingMoves(w, w') && FlushMoves(w, t, w')
    ensures FlushOk(w')
  {
    forall u | u in w'.pcs
      ensures FlushProgress(w', Reset(w'.pcs[u]))
    {
      assert FlushProgress(w, Reset(w.pcs[u]));
    }
  }

  lemma JobMoves(w: World, t: Tid, c: RequestChoice, w': World)
    requires WellShaped(w) && t in w.pcs && w.pcs[t].IsJob() && RequestStep(w, t, c, w')
    ensures PendingMoves(w, w') && FlushMoves(w, t, w')
  {
    if !w.pcs[t].q.pc.Conclude? {
      JobShape(w, t, c, w');
    }
  }

  lemma ReceiveMoves(w: World, t: Tid, c: ReceiveChoice, w': World)
    requires WellShaped(w) && t in w.pcs && ReceiveStep(w, t, c, w')
    ensures PendingMoves(w, w') && FlushMoves(w, t, w')
  {
    hide Processed, ResetPort;
    match w.pcs[t]
    case Receive(Checked(m, at)) => ProcessedMoves(w, t, w', m, at);
    case Receive(ResetPorts(i, since)) => ResetMoves(w, t, w', i, since);
    case _ => ReceiveAside(w, t, c, w');
  }

  lemma ResetMoves(w: World, t: Tid, w': World, i: nat, since: nat)
    requires WellShaped(w) && t in w.pcs && w.pcs[t] == Receive(ResetPorts(i, since))
    requires HelloStep(w, t, ResetPorts(i, since), w')
    ensures PendingMoves(w, w') && FlushMoves(w, t, w')
  {
  }

  lemma ProcessedMoves(w: World, t: Tid, w': World, m: Msg, at: nat)
    requires WellShaped(w) && t in w.pcs && Frame.IsValidPort(m.port)
    requires (m.cmd == CMD_ALL_STATUS || m.cmd == CMD_DRIVE_TELEMETRY) ==> w.sh.status.Some?
    requires w' == Processed(w, t, m, at)
    ensures PendingMoves(w, w') && FlushMoves(w, t, w')
  {
  }

  lemma ShutdownMoves(w: World, t: Tid, w': World)
    requires WellShaped(w) && t in w.pcs && ShutdownStep(w, t, w')
    ensures PendingMoves(w, w') && FlushMoves(w, t, w')
  {
    hide WindDownStep;
    match w.pcs[t]
    case Shutdown(pc) =>
      if !pc.WaitReceivers? && !pc.Detach? && !pc.CancelPorts? && !pc.Close? {
        WindDownMoves(w, t, pc, w');
      }
    case _ =>
  }

  lemma WindDownMoves(w: World, t: Tid, pc: ShutdownPc, w': World)
    requires WellShaped(w) && t in w.pcs && WindDownStep(w, t, pc, w')
    ensures PendingMoves(w, w') && FlushMoves(w, t, w')
  {
  }

  lemma InitMoves(w: World, t: Tid, c: InitChoice, w': World)
    requires WellShaped(w) && t in w.pcs && InitStep(w, t, c, w')
    ensures PendingMoves(w, w') && FlushMoves(w, t, w')
  {
  }

  lemma StepMoves(w: World, t: Tid, a: Action, w': World)
    requires Step(w, t, a, w')
    ensures PendingMoves(w, w') && FlushMoves(w, t, w')
  {
    match a
    case OfRequest(c) => if w.pcs[t].IsJob() { JobMoves(w, t, c, w'); }
    case OfNote(_) =>
    case OfReceive(c) => ReceiveMoves(w, t, c, w');
    case OfShutdown => ShutdownMoves(w, t, w');
    case OfInit(c) => InitMoves(w, t, c, w');
    case OfCount(_) =>
  }

  // ----- with one receive call at a time, no old frame writes after a HELLO -----

  /** A received write names the session in force when it is made. */
  predicate WriteIsolated(before: seq<Event>, e: Event) {
    (e.StatusReplaced? || e.StatusOverlaid? || e.TelemetryReplaced?) && e.from.v2 ==>
      e.from.session == SessionAfter(before)
  }

  ghost predicate LogIsolated(log: seq<Event>) {
    forall j :: 0 <= j < |log| ==> WriteIsolated(log[..j], log[j])
  }

  ghost predicate ChecksCurrent(w: World) {
    forall t :: t in w.pcs && w.pcs[t].Receive? && w.pcs[t].r.Checked? && w.pcs[t].r.m.v2 ==>
      w.pcs[t].r.m.session == w.sh.session
  }

  ghost predicate Isolated(w: World) {
    && w.sh.active <= w.cap
    && (w.cap <= 1 ==> ChecksCurrent(w) && LogIsolated(w.log))
  }

  /** The session moves only through a HELLO of this thread or while nobody receives;
      received writes come from a frame past its check; the cap is respected. */
  ghost predicate SessionMoves(w: World, t: Tid, w': World) {
    && t in w.pcs
    && (w'.sh.session == w.sh.session || w.pcs[t] == Receive(Install(w'.sh.session)) || w.sh.active == 0)
    && w'.cap == w.cap
    && (w.sh.active <= w.cap ==> w'.sh.active <= w.cap)
    && (|w'.log| > |w.log| ==>
         var e := w'.log[|w.log|];
         e.StatusReplaced? || e.StatusOverlaid? || e.TelemetryReplaced? ==>
           w.pcs[t].Receive? && w.pcs[t].r.Checked?
           && e.from.v2 == w.pcs[t].r.m.v2 && e.from.session == w.pcs[t].r.m.session)
  }

  lemma ReceiveSession(w: World, t: Tid, c: ReceiveChoice, w': World)
    requires WellShaped(w) && t in w.pcs && ReceiveStep(w, t, c, w')
    ensures SessionMoves(w, t, w')
  {
    match w.pcs[t]
    case Receive(Checked(m, at)) => ProcessedSession(w, t, w', m, at);
    case _ =>
  }

  lemma ProcessedSession(w: World, t: Tid, w': World, m: Msg, at: nat)
    requires WellShaped(w) && t in w.pcs && w.pcs[t] == Receive(Checked(m, at)) && Frame.IsValidPort(m.port)
    requires (m.cmd == CMD_ALL_STATUS || m.cmd == CMD_DRIVE_TELEMETRY) ==> w.sh.status.Some?
    requires w' == Processed(w, t, m, at)
    ensures SessionMoves(w, t, w')
  {
  }

  lemma ShutdownSession(w: World, t: Tid, w': World)
    requires Alive(w) && t in w.pcs && ShutdownStep(w, t, w')
    ensures SessionMoves(w, t, w')
  {
    assert ThreadAlive(w.sh, w.closed, w.pcs[t]);
  }

  lemma InitSession(w: World, t: Tid, c: InitChoice, w': World)
    requires Alive(w) && t in w.pcs && InitStep(w, t, c, w')
    ensures SessionMoves(w, t, w')
  {
    assert ThreadAlive(w.sh, w.closed, w.pcs[t]);
    if w.sh.desc.None? {
      assert forall u :: u in w.pcs ==> ThreadAlive(w.sh, w.closed, w.pcs[u]);
      assert ActiveSet(w.pcs) == {};
    }
  }

  lemma StepSession(w: World, t: Tid, a: Action, w': World)
    requires Alive(w) && Step(w, t, a, w')
    ensures SessionMoves(w, t, w')
  {
    match a
    case OfRequest(c) => if w.pcs[t].IsJob() { JobSession(w, t, c, w'); }
    case OfNote(_) =>
    case OfReceive(c) => ReceiveSession(w, t, c, w');
    case OfShutdown => ShutdownSession(w, t, w');
    case OfInit(c) => InitSession(w, t, c, w');
    case OfCount(_) =>
  }

  lemma JobSession(w: World, t: Tid, c: RequestChoice, w': World)
    requires WellShaped(w) && t in w.pcs && w.pcs[t].IsJob() && RequestStep(w, t, c, w')
    ensures SessionMoves(w, t, w')
  {
  }

  lemma TwoActive(w: World, t: Tid, u: Tid)
    requires Alive(w) && t in w.pcs && u in w.pcs && t != u && w.pcs[t].Receive? && w.pcs[u].Receive?
    ensures w.sh.active >= 2
  {
    ActiveAfter(w.pcs, t, Idle);
    var pcs := w.pcs[t := Idle];
    ActiveAfter(pcs, u, Idle);
  }

  lemma IsolatedKept(w: World, t: Tid, w': World)
    requires Inv(w) && Isolated(w) && SessionMoves(w, t, w') && NewCheckFresh(w, t, w') && Grows(w.log, w'.log)
    ensures Isolated(w')
  {
    if w.cap <= 1 {
      forall u | u in w'.pcs && w'.pcs[u].Receive? && w'.pcs[u].r.Checked? && w'.pcs[u].r.m.v2
        ensures w'.pcs[u].r.m.session == w'.sh.session
      {
        var x := if u == t then t else u;
        assert ThreadAlive(w.sh, w.closed, w.pcs[x]);
        ActiveAfter(w.pcs, x, Idle);
        if u != t && w.pcs[t].Receive? {
          TwoActive(w, t, u);
        }
      }
      forall j | 0 <= j < |w'.log|
        ensures WriteIsolated(w'.log[..j], w'.log[j])
      {
        if j < |w.log| {
          assert w'.log[..j] == w.log[..j];
        } else {
          assert w'.log[..j] == w.log;
        }
      }
    }
  }
}
