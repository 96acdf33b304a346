/** What holds in every reachable state of the link. */
module LinkTheorems {
  import opened Bytes
  import opened Sequence
  import opened Link
  import opened LinkHistory
  import opened LinkLifecycle
  import opened LinkRequests
  import opened LinkInvariant

  // ----- answers -----

  lemma LogEntry(w: World, j: nat)
    requires Reachable(w) && j < |w.log|
    ensures Justified(w.log[..j], w.log[j])
  {
    ReachableInv(w);
  }

  /** A request that returns through its ACK branch returns the data of an ACK that named its
      port, command and sequence number, was processed after the registration and before the
      return, and arrived in the session current when it matched. */
  lemma AckedReturnWasAnswered(w: World, j: nat)
    requires Reachable(w) && j < |w.log|
    requires w.log[j].RequestReturned? && w.log[j].how == ByAck && (w.log[j].v2 || w.log[j].cmd != 0)
    ensures var e := w.log[j]; exists i: nat, k: nat ::
      && Answered(w.log[..j], i, k, e.t, e.port, e.cmd, e.number, e.result)
      && w.log[k].ack.session == SessionAfter(w.log[..k])
  {
    var e := w.log[j];
    LogEntry(w, j);
    var i: nat, k: nat :| Answered(w.log[..j], i, k, e.t, e.port, e.cmd, e.number, e.result);
    assert w.log[..j][k] == w.log[k];
    LogEntry(w, k);
  }

  /** Every ACK that matched, however many calls receive at once, answered the number outstanding
      on its port and named the session current at that moment. */
  lemma MatchedAckWasCurrent(w: World, j: nat)
    requires Reachable(w) && j < |w.log| && w.log[j].AckMatched?
    ensures w.log[j].ack.session == SessionAfter(w.log[..j])
    ensures Outstanding(w.log[..j], w.log[j].port) == Some(w.log[j].ack.sequence)
  {
    LogEntry(w, j);
  }

  /** The right ACK completes: one for the number outstanding on its port, in the session of the
      moment, with a command that is not negative, is matched whatever else goes on. */
  lemma RightAckCompletes(w: World, t: Tid, m: Msg, at: nat, w': World)
    requires Reachable(w) && t in w.pcs && w.pcs[t] == Receive(Checked(m, at)) && Step(w, t, OfReceive(Continue), w')
    requires m.cmd == CMD_ACK && |m.payload| == 8 && AckOf(m).cmd >= 0
    requires Outstanding(w.log, PortIndex(m.port)) == Some(m.sequence) && m.session == w.sh.session
    ensures var p := PortIndex(m.port);
      && w'.log == w.log + [AckMatched(p, AckOf(m))]
      && Outstanding(w'.log, p) == None && !w'.slots[p].pending
  {
    hide Reachable;
    ReachableInv(w);
    RightAckMatches(w, t, PortIndex(m.port), AckOf(m));
    OutstandingAppend(w.log, AckMatched(PortIndex(m.port), AckOf(m)), PortIndex(m.port));
  }

  lemma RightAckMatches(w: World, t: Tid, p: nat, a: Ack)
    requires Inv(w) && p < PORTS && t in w.pcs
    requires Outstanding(w.log, p) == Some(a.sequence) && a.session == w.sh.session && a.cmd >= 0
    ensures Matches(w.slots[p], w.sh.v2, w.sh.session, a)
  {
    assert PortOk(w, p);
  }

  /** And an answer found in the slot is returned: after a match that is still of the session, the
      call returns its data; after a cancellation, the error. */
  lemma FoundAnswerIsReturned(w: World, t: Tid, w': World)
    requires Reachable(w) && t in w.pcs && w.pcs[t].IsJob() && w.pcs[t].q.pc == Conclude(true)
    requires Step(w, t, OfRequest(Proceed), w') && |w'.log| > |w.log|
    ensures var j, e := w.pcs[t].q.job, w'.log[|w.log|]; var s := w.slots[j.port];
      && e.RequestReturned? && e.t == t && e.number == j.number
      && (s.ackCmd == -1 ==> e.how == ByCancel && e.result == s.ackData)
      && (s != CLEAR && s.ackCmd == j.cmd && s.ackSession == w.sh.session ==> e.how == ByAck && e.result == s.ackData)
  {
    hide Reachable;
    ReachableInv(w);
    ConcludesAsFound(w, t, w');
  }

  lemma ConcludesAsFound(w: World, t: Tid, w': World)
    requires Inv(w) && t in w.pcs && w.pcs[t].IsJob() && w.pcs[t].q.pc == Conclude(true)
    requires RequestStep(w, t, Proceed, w') && |w'.log| > |w.log|
    ensures var j, e := w.pcs[t].q.job, w'.log[|w.log|];
      && j.port < PORTS && e.RequestReturned? && e.t == t && e.number == j.number
      && var s := w.slots[j.port];
      && (s.ackCmd == -1 ==> e.how == ByCancel && e.result == s.ackData)
      && (s != CLEAR && s.ackCmd == j.cmd && s.ackSession == w.sh.session ==> e.how == ByAck && e.result == s.ackData)
  {
    var j := w.pcs[t].q.job;
    assert HolderOk(w.locks, t, w.pcs[t]);
    assert PortOk(w, j.port);
  }

  /** A request that returns through its cancel branch was outstanding when a reset of its
      port cancelled it with exactly the error returned. */
  lemma CanceledReturnWasCanceled(w: World, j: nat)
    requires Reachable(w) && j < |w.log|
    requires w.log[j].RequestReturned? && w.log[j].how == ByCancel
    ensures var e := w.log[j]; exists i: nat, k: nat ::
      && CanceledWith(w.log[..j], i, k, e.t, e.port, e.cmd, e.number, e.result)
      && Outstanding(w.log[..k], e.port) == Some(e.number)
  {
    var e := w.log[j];
    LogEntry(w, j);
    var i: nat, k: nat :| CanceledWith(w.log[..j], i, k, e.t, e.port, e.cmd, e.number, e.result);
    assert w.log[..j][k] == w.log[k];
    LogEntry(w, k);
  }

  /** What was completed and is outstanding again has been registered in between. */
  lemma {:induction false} RegisteredBetween(log: seq<Event>, p: nat, a: nat, b: nat) returns (m: nat)
    requires a < b <= |log|
    requires AboutPort(log[a], p) && !log[a].RequestRegistered?
    requires Outstanding(log[..b], p).Some?
    ensures a < m < b && log[m].RequestRegistered? && log[m].port == p
    decreases b
  {
    assert log[..b][..b - 1] == log[..b - 1];
    if AboutPort(log[b - 1], p) {
      m := b - 1;
    } else {
      m := RegisteredBetween(log, p, a, b - 1);
    }
  }

  /** At most one ACK is consumed per registration, retransmissions included. */
  lemma AtMostOneAckPerRequest(w: World, j: nat, k: nat)
    requires Reachable(w) && j < k < |w.log|
    requires w.log[j].AckMatched? && w.log[k].AckMatched? && w.log[j].port == w.log[k].port
    ensures exists m :: j < m < k && w.log[m].RequestRegistered? && w.log[m].port == w.log[k].port
  {
    LogEntry(w, k);
    var m := RegisteredBetween(w.log, w.log[k].port, j, k);
  }

  /** Once a request has been answered or cancelled, an ACK for its number is only counted. */
  lemma DuplicateAckOnlyCounted(w: World, t: Tid, p: nat, a: Ack)
    requires Reachable(w) && t in w.pcs && w.pcs[t].Receive? && p < PORTS
    requires Outstanding(w.log, p) != Some(a.sequence)
    ensures WellShaped(w)
    ensures Acknowledged(w, t, p, a)
         == At(w.(stats := w.stats.(staleAcks := w.stats.staleAcks + 1)), t, Receive(Count(true)))
  {
    ReachableInv(w);
    assert PortOk(w, p);
    assert ThreadAlive(w.sh, w.closed, w.pcs[t]);
  }

  /** A pending slot belongs to exactly one caller, the holder of the port's request mutex. */
  lemma PendingHasOneOwner(w: World, p: nat)
    requires Reachable(w) && p < PORTS && WellShaped(w) && w.slots[p].pending
    ensures w.locks.request[p].Some?
    ensures forall t :: t in w.pcs && w.pcs[t].Request? && w.pcs[t].q.Port() == p
                   <==> Some(t) == w.locks.request[p]
  {
    ReachableInv(w);
    assert PortOk(w, p);
    var owner := w.locks.request[p].value;
    forall t
      ensures t in w.pcs && w.pcs[t].Request? && w.pcs[t].q.Port() == p <==> Some(t) == w.locks.request[p]
    {
      if t in w.pcs {
        assert HolderOk(w.locks, t, w.pcs[t]);
      }
    }
  }

  /** An ACK in a legacy frame never completes a request. */
  lemma LegacyAckNeverMatches(w: World, t: Tid, m: Msg, at: nat, p: nat)
    requires Reachable(w) && t in w.pcs && w.pcs[t] == Receive(Checked(m, at)) && !m.v2
    requires |m.payload| == 8 && p < PORTS && WellShaped(w)
    ensures !Matches(w.slots[p], w.sh.v2, w.sh.session, AckOf(m))
  {
    ReachableInv(w);
    assert ThreadAlive(w.sh, w.closed, w.pcs[t]);
    assert PortOk(w, p);
  }

  /** Numbers handed out since the last initialisation repeat only after 2^32 - 1 calls. */
  lemma IssuedNumbersDistinct(w: World, i: nat, j: nat)
    requires Reachable(w) && i < j < |w.issued|
    ensures w.issued[i] != 0
    ensures w.issued[i] == w.issued[j] <==> (j - i) % PERIOD == 0
  {
    ReachableInv(w);
    NumbersRepeatOnlyAfterPeriod(1, i, j);
  }

  /** So an ACK for an older request cannot match the pending one within that window. */
  lemma OlderAckNeverMatches(w: World, t: Tid, p: nat, i: nat, j: nat, a: Ack)
    requires Reachable(w) && WellShaped(w) && p < PORTS && t in w.pcs && w.pcs[t].Receive?
    requires i < j < |w.issued| && j - i < PERIOD
    requires w.slots[p].pendingSeq == w.issued[j] && a.sequence == w.issued[i]
    ensures !Matches(w.slots[p], w.sh.v2, w.sh.session, a)
  {
    ReachableInv(w);
    assert ThreadAlive(w.sh, w.closed, w.pcs[t]);
    IssuedNumbersDistinct(w, i, j);
  }

  // ----- life and death of the descriptor -----

  /** A receive call in progress finds the link up and its descriptor open. */
  lemma ActiveReceiverIsSafe(w: World, t: Tid)
    requires Reachable(w) && t in w.pcs && w.pcs[t].Receive?
    ensures w.sh.handshake && w.sh.v2 && w.sh.session != 0
    ensures w.sh.desc.Some? && w.sh.desc.value !in w.closed
    ensures w.sh.status.Some?
    ensures w.sh.active > 0
  {
    ReachableInv(w);
    assert ThreadAlive(w.sh, w.closed, w.pcs[t]);
    ActiveAfter(w.pcs, t, Idle);
  }

  /** No send and no close is about to use a descriptor that is closed already. */
  lemma NoUseAfterClose(w: World, t: Tid)
    requires Reachable(w) && t in w.pcs && w.pcs[t].Uses().Some?
    ensures w.pcs[t].Uses().value !in w.closed
  {
    ReachableInv(w);
    assert ThreadAlive(w.sh, w.closed, w.pcs[t]);
  }

  /** However often shutdown runs, a descriptor is closed at most once. */
  lemma ClosedAtMostOnce(w: World, i: nat, j: nat)
    requires Reachable(w) && i < |w.log| && j < |w.log|
    requires w.log[i].DescriptorClosed? && w.log[i] == w.log[j]
    ensures i == j
  {
    assert i < j ==> w.log[..j][i] == w.log[i];
    assert j < i ==> w.log[..i][j] == w.log[j];
    LogEntry(w, i);
    LogEntry(w, j);
  }

  /** While a shutdown that has detached the descriptor runs, nobody receives. */
  lemma DetachedMeansDrained(w: World, t: Tid, u: Tid)
    requires Reachable(w) && t in w.pcs && u in w.pcs
    requires w.pcs[t].HasDetached()
    ensures !w.pcs[u].Receive? && w.sh.desc.None?
  {
    ReachableInv(w);
    assert ThreadAlive(w.sh, w.closed, w.pcs[t]);
    NoneActive(w);
  }

  /** Once shutdown has begun nobody starts to send and no receive call begins. */
  lemma StopIsFinal(w: World, t: Tid, a: Action, w': World)
    requires Step(w, t, a, w') && !a.OfInit? && w.sh.stop
    ensures w'.sh.stop && w'.sh.active <= w.sh.active && t in w'.pcs
    ensures w'.pcs[t].HoldsSend() ==> w.pcs[t].HoldsSend() || w.pcs[t].Shutdown?
  {
    match a
    case OfRequest(c) => if w.pcs[t].IsJob() { StoppedJob(w, t, c, w.pcs[t].q.job, w.pcs[t].q.pc, w'); }
    case OfNote(_) =>
    case OfReceive(c) => StoppedReceive(w, t, c, w');
    case OfShutdown => StoppedShutdown(w, t, w');
    case OfCount(_) =>
  }

  lemma StoppedJob(w: World, t: Tid, c: RequestChoice, j: Job, pc: JobPc, w': World)
    requires t in w.pcs && WellShaped(w) && w.pcs[t] == Request(Running(j, pc)) && j.port < PORTS && JobStep(w, t, c, j, pc, w')
    requires w.sh.stop
    ensures w'.sh == w.sh && t in w'.pcs && (w'.pcs[t].HoldsSend() ==> w.pcs[t].HoldsSend())
  {
    hide Verdict;
  }

  lemma StoppedReceive(w: World, t: Tid, c: ReceiveChoice, w': World)
    requires t in w.pcs && WellShaped(w) && ReceiveStep(w, t, c, w') && w.sh.stop
    ensures w'.sh.stop && w'.sh.active <= w.sh.active && t in w'.pcs && !w'.pcs[t].HoldsSend()
  {
    if w.pcs[t].Receive? && !w.pcs[t].r.Leave? {
      ReceiveInside(w, t, c, w');
    }
  }

  lemma StoppedShutdown(w: World, t: Tid, w': World)
    requires t in w.pcs && WellShaped(w) && ShutdownStep(w, t, w')
    ensures w'.sh.stop == (w.sh.stop || w.pcs[t].Idle?) && w'.sh.active == w.sh.active && t in w'.pcs
    ensures w'.pcs[t].HoldsSend() ==> w.pcs[t].Shutdown?
  {
    hide WindDownStep, ResetSlot;
    match w.pcs[t]
    case Shutdown(pc) =>
      if !pc.WaitReceivers? && !pc.Detach? && !pc.CancelPorts? && !pc.Close? {
        StoppedWindDown(w, t, pc, w');
      }
    case _ =>
  }

  lemma StoppedWindDown(w: World, t: Tid, pc: ShutdownPc, w': World)
    requires WindDownStep(w, t, pc, w')
    ensures w'.sh.stop == w.sh.stop && w'.sh.active == w.sh.active && t in w'.pcs && !w'.pcs[t].HoldsSend()
  {
  }

  /** When a shutdown returns, nothing of the link is left. */
  lemma ShutdownLeavesNothing(w: World, t: Tid, w': World)
    requires Reachable(w) && Step(w, t, OfShutdown, w') && w'.pcs[t].Idle?
    ensures w'.sh.desc.None? && w'.sh.status.None? && w'.sh.stop
    ensures !w'.sh.handshake && !w'.sh.v2 && w'.sh.session == 0
    ensures forall u :: u in w'.pcs ==> !w'.pcs[u].Receive?
  {
    hide Reachable;
    ReachableInv(w);
    ShutdownsLastStep(w, t, w');
  }

  lemma ShutdownsLastStep(w: World, t: Tid, w': World)
    requires Alive(w) && t in w.pcs && ShutdownStep(w, t, w') && t in w'.pcs && w'.pcs[t].Idle?
    ensures w'.sh.desc.None? && w'.sh.status.None? && w'.sh.stop
    ensures !w'.sh.handshake && !w'.sh.v2 && w'.sh.session == 0
    ensures forall u :: u in w'.pcs ==> !w'.pcs[u].Receive?
  {
    hide ResetPort;
    assert ThreadAlive(w.sh, w.closed, w.pcs[t]);
    NoneActive(w);
  }

  /** An initialisation ends either with everything a receive call needs, or with no descriptor and
      no status. */
  lemma InitialisationEnds(w: World, t: Tid, c: InitChoice, w': World)
    requires Reachable(w) && Step(w, t, OfInit(c), w') && w'.pcs[t].Idle?
    ensures if w'.sh.handshake
            then w'.sh.desc.Some? && w'.sh.status.Some? && w'.sh.v2 && w'.sh.session != 0 && !w'.sh.stop
            else w'.sh.desc.None? && w'.sh.status.None?
  {
    hide Reachable;
    ReachableInv(w);
    InitialisationsLastStep(w, t, c, w');
  }

  lemma InitialisationsLastStep(w: World, t: Tid, c: InitChoice, w': World)
    requires Alive(w) && t in w.pcs && InitStep(w, t, c, w') && t in w'.pcs && w'.pcs[t].Idle?
    ensures if w'.sh.handshake
            then w'.sh.desc.Some? && w'.sh.status.Some? && w'.sh.v2 && w'.sh.session != 0 && !w'.sh.stop
            else w'.sh.desc.None? && w'.sh.status.None?
  {
    hide ResetPort;
    assert ThreadAlive(w.sh, w.closed, w.pcs[t]);
  }

  // ----- cached state -----

  /** Status, telemetry and session are the replay of the history. */
  lemma StateIsReplay(w: World)
    requires Reachable(w)
    ensures w.sh.status.Some? ==> w.sh.status.value == StatusAfter(w.log)
    ensures w.sh.telemetry == TelemetryAfter(w.log)
    ensures w.sh.session == SessionAfter(w.log)
    ensures w.sh.handshake ==> w.sh.session != 0
  {
    ReachableInv(w);
  }

  /** Every received write names the session of the moment its check passed. */
  lemma WritesPassedTheirCheck(w: World, j: nat)
    requires Reachable(w) && j < |w.log|
    requires w.log[j].StatusReplaced? || w.log[j].StatusOverlaid? || w.log[j].TelemetryReplaced?
    ensures var from := w.log[j].from;
      && from.checkedAt <= j
      && (from.v2 ==> from.session == SessionAfter(w.log[..from.checkedAt]))
  {
    LogEntry(w, j);
    var from := w.log[j].from;
    assert w.log[..j][..from.checkedAt] == w.log[..from.checkedAt];
  }

  // ----- the induction principle, for the invariants of the following modules -----

  lemma ExtendReachable(w: World, t: Tid, a: Action, w': World)
    requires Reachable(w) && Step(w, t, a, w')
    ensures Reachable(w')
  {
    var run :| IsRun(run) && run[|run| - 1] == w;
    var run' := run + [w'];
    forall k | 0 < k < |run'|
      ensures CanBecome(run'[k - 1], run'[k])
    {
      if k < |run| {
        assert CanBecome(run[k - 1], run[k]);
      }
    }
    assert IsRun(run');
  }
}
