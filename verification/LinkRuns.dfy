/** Session isolation and counter conservation over whole runs. */
module LinkRuns {
  import opened Bytes
  import opened Errno
  import opened Link
  import opened LinkLifecycle
  import opened LinkRequests
  import opened LinkInvariant
  import opened LinkSession
  import opened LinkCounters

  ghost predicate RunOk(w: World) {
    Inv(w) && FlushOk(w) && Isolated(w) && CountersOk(w)
  }

  lemma RunOkKept(w: World, t: Tid, a: Action, w': World)
    requires RunOk(w) && Step(w, t, a, w')
    ensures RunOk(w')
  {
    InvKept(w, t, a, w');
    StepMoves(w, t, a, w');
    FlushKept(w, t, w');
    StepSession(w, t, a, w');
    StepChecksFresh(w, t, a, w');
    IsolatedKept(w, t, w');
    StepBalanced(w, t, a, w');
    CountersKept(w, t, w');
  }

  lemma {:induction false} RunStaysOk(run: seq<World>, k: nat)
    requires IsRun(run) && k < |run|
    ensures RunOk(run[k])
    decreases k
  {
    if k == 0 {
      InitialInv(run[0]);
    } else {
      RunStaysOk(run, k - 1);
      assert CanBecome(run[k - 1], run[k]);
      var t, a :| Step(run[k - 1], t, a, run[k]);
      RunOkKept(run[k - 1], t, a, run[k]);
    }
  }

  lemma ReachableOk(w: World)
    requires Reachable(w)
    ensures RunOk(w)
  {
    var run :| IsRun(run) && run[|run| - 1] == w;
    RunStaysOk(run, |run| - 1);
  }

  /** When the reset loop of a HELLO has passed port p, no request registered before the
      session was installed is pending there; after the loop this holds of every port. */
  lemma HelloCancelsOlderRequests(w: World, t: Tid, p: nat)
    requires Reachable(w) && t in w.pcs && w.pcs[t].Receive? && p < PORTS && WellShaped(w)
    requires (w.pcs[t].r.ResetPorts? && p < w.pcs[t].r.i) || w.pcs[t].r.ZeroStatus?
    requires w.slots[p].pending
    ensures w.regAt[p] >= w.pcs[t].r.since
    ensures w.regAt[p] < |w.log| && w.log[w.regAt[p]].RequestRegistered? && w.log[w.regAt[p]].port == p
  {
    ReachableOk(w);
    assert FlushProgress(w, Reset(w.pcs[t]));
    assert PortOk(w, p);
  }

  /** What was pending when the loop arrives is cancelled with ESTALE. */
  lemma HelloCancelsPending(w: World, t: Tid, w': World, p: nat, since: nat)
    requires Reachable(w) && t in w.pcs && w.pcs[t] == Receive(ResetPorts(p, since))
    requires Step(w, t, OfReceive(Continue), w')
    ensures !w'.slots[p].pending
    ensures Outstanding(w.log, p).Some? ==>
      && w'.log == w.log + [RequestCanceled(p, Outstanding(w.log, p).value, -ESTALE)]
      && w'.slots[p].ackCmd == -1 && w'.slots[p].ackData == -ESTALE
    ensures Outstanding(w.log, p).None? ==> w'.log == w.log && w'.slots[p] == CLEAR
  {
    ReachableInv(w);
    assert PortOk(w, p);
  }

  /** When the reset loop of a shutdown is through, no request registered before the descriptor was
      taken away is pending on any port. */
  lemma ShutdownCancelsOlderRequests(w: World, t: Tid, p: nat)
    requires Reachable(w) && t in w.pcs && w.pcs[t].Shutdown? && w.pcs[t].s.Close? && p < PORTS && WellShaped(w)
    requires w.slots[p].pending
    ensures w.regAt[p] >= w.pcs[t].s.since
    ensures w.regAt[p] < |w.log| && w.log[w.regAt[p]].RequestRegistered? && w.log[w.regAt[p]].port == p
  {
    ReachableOk(w);
    assert FlushProgress(w, Reset(w.pcs[t]));
    assert PortOk(w, p);
  }

  /** What was pending when the loop of a shutdown arrives is cancelled with ENOTCONN. */
  lemma ShutdownCancelsPending(w: World, t: Tid, w': World, p: nat, closing: Option<nat>, since: nat)
    requires Reachable(w) && t in w.pcs && w.pcs[t] == Shutdown(CancelPorts(p, closing, since))
    requires Step(w, t, OfShutdown, w')
    ensures !w'.slots[p].pending
    ensures Outstanding(w.log, p).Some? ==>
      && w'.log == w.log + [RequestCanceled(p, Outstanding(w.log, p).value, -ENOTCONN)]
      && w'.slots[p].ackCmd == -1 && w'.slots[p].ackData == -ENOTCONN
    ensures Outstanding(w.log, p).None? ==> w'.log == w.log && w'.slots[p] == CLEAR
  {
    ReachableInv(w);
    assert PortOk(w, p);
  }

  /** And so for the loop of an initialisation. */
  lemma InitialisationCancelsPending(w: World, t: Tid, w': World, p: nat)
    requires Reachable(w) && t in w.pcs && w.pcs[t] == Init(ClearPorts(p)) && Step(w, t, OfInit(Next), w')
    ensures !w'.slots[p].pending
    ensures Outstanding(w.log, p).Some? ==>
      && w'.log == w.log + [RequestCanceled(p, Outstanding(w.log, p).value, -ENOTCONN)]
      && w'.slots[p].ackCmd == -1 && w'.slots[p].ackData == -ENOTCONN
    ensures Outstanding(w.log, p).None? ==> w'.log == w.log && w'.slots[p] == CLEAR
  {
    ReachableInv(w);
    assert PortOk(w, p);
  }

  /** If the application receives in one thread only, every v2 frame that writes status or
      telemetry names the session in force at that moment. */
  lemma OneReceiverIsolatesSessions(w: World, j: nat)
    requires Reachable(w) && w.cap <= 1 && j < |w.log|
    requires w.log[j].StatusReplaced? || w.log[j].StatusOverlaid? || w.log[j].TelemetryReplaced?
    requires w.log[j].from.v2
    ensures w.log[j].from.session == SessionAfter(w.log[..j])
  {
    ReachableOk(w);
    assert WriteIsolated(w.log[..j], w.log[j]);
  }

  /** Refused frames are received frames, up to the calls still on their way out. */
  lemma RefusalsAreReceived(w: World)
    requires Reachable(w)
    ensures w.stats.sessionErrors + w.stats.staleAcks <= w.stats.rx + w.sh.active
  {
    ReachableOk(w);
    SubsetSize(OweSet(w.pcs), ActiveSet(w.pcs));
  }
}
