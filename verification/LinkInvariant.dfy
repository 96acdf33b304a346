/** The invariant of every reachable state, kept by every step of every thread. */
module LinkInvariant {
  import opened Errno
  import opened Link
  import opened LinkHistory
  import opened LinkLifecycle
  import opened LinkReplay
  import opened LinkRequests
  import Frame

  /** A frame past its session check named the session of that moment. */
  ghost predicate SourcesOk(w: World) {
    forall t :: t in w.pcs && w.pcs[t].Receive? && w.pcs[t].r.Checked? ==>
      SourceChecked(w.log, Source(w.pcs[t].r.m.v2, w.pcs[t].r.m.session, w.pcs[t].r.at))
  }

  ghost predicate Inv(w: World) {
    Sound(w) && SourcesOk(w) && LogOk(w.log)
  }

  // ----- one class of steps after another -----

  /** The ports are in order afterwards, and a new entry tells the truth. */
  ghost predicate Truthful(w: World, w': World) {
    && PortsOk(w')
    && Grows(w.log, w'.log)
    && (|w'.log| > |w.log| ==> Justified(w.log, w'.log[|w.log|]))
  }

  lemma RequestTruthful(w: World, t: Tid, c: RequestChoice, w': World)
    requires Inv(w) && t in w.pcs && RequestStep(w, t, c, w')
    ensures Truthful(w, w')
  {
    if !w.pcs[t].IsJob() {
      StartPorts(w, t, c, w');
    } else if w.pcs[t].q.pc.Conclude? {
      ConcludePorts(w, t, c, w');
    } else {
      JobShape(w, t, c, w');
      JobPorts(w, t, w');
    }
  }

  lemma NoteTruthful(w: World, t: Tid, result: int, w': World)
    requires Inv(w) && t in w.pcs && NoteStep(w, t, result, w')
    ensures Truthful(w, w')
  {
    NumberedOk(w);
    QuietPorts(w, t, w');
  }

  lemma CountTruthful(w: World, t: Tid, port: nat, w': World)
    requires Inv(w) && t in w.pcs && CountStep(w, t, port, w')
    ensures Truthful(w, w')
  {
    QuietPorts(w, t, w');
  }

  lemma ProcessedTruthful(w: World, t: Tid, w': World, m: Msg, at: nat)
    requires Inv(w) && t in w.pcs && w.pcs[t] == Receive(Checked(m, at)) && Frame.IsValidPort(m.port)
    requires (m.cmd == CMD_ALL_STATUS || m.cmd == CMD_DRIVE_TELEMETRY) ==> w.sh.status.Some?
    requires w' == Processed(w, t, m, at)
    ensures Truthful(w, w')
  {
    if m.cmd == CMD_ACK && |m.payload| == 8 && Matches(w.slots[PortIndex(m.port)], w.sh.v2, w.sh.session, AckOf(m)) {
      MatchPorts(w, t, w', PortIndex(m.port), AckOf(m));
    } else {
      ProcessedQuiet(w, t, w', m, at);
      QuietPorts(w, t, w');
    }
  }

  lemma ProcessedQuiet(w: World, t: Tid, w': World, m: Msg, at: nat)
    requires Inv(w) && t in w.pcs && w.pcs[t] == Receive(Checked(m, at)) && Frame.IsValidPort(m.port)
    requires (m.cmd == CMD_ALL_STATUS || m.cmd == CMD_DRIVE_TELEMETRY) ==> w.sh.status.Some?
    requires w' == Processed(w, t, m, at)
    requires !(m.cmd == CMD_ACK && |m.payload| == 8
               && Matches(w.slots[PortIndex(m.port)], w.sh.v2, w.sh.session, AckOf(m)))
    ensures SlotQuiet(w, t, w') && NumbersOk(w')
    ensures |w'.log| > |w.log| ==> Justified(w.log, w'.log[|w.log|])
  {
  }

  /** Steps that touch no slot and number no request. */
  ghost predicate Aside(w: World, t: Tid, w': World) {
    && SlotQuiet(w, t, w')
    && w'.sh.nextSeq == w.sh.nextSeq && w'.issued == w.issued
    && (|w'.log| > |w.log| ==> Justified(w.log, w'.log[|w.log|]))
  }

  lemma AsideTruthful(w: World, t: Tid, w': World)
    requires Inv(w) && Aside(w, t, w')
    ensures Truthful(w, w')
  {
    QuietPorts(w, t, w');
  }

  lemma ReceiveAside(w: World, t: Tid, c: ReceiveChoice, w': World)
    requires WellShaped(w) && t in w.pcs && ReceiveStep(w, t, c, w')
    requires w.pcs[t].Receive? ==> !w.pcs[t].r.Checked? && !w.pcs[t].r.ResetPorts?
    ensures Aside(w, t, w')
  {
  }

  lemma ReceiveTruthful(w: World, t: Tid, c: ReceiveChoice, w': World)
    requires Inv(w) && t in w.pcs && ReceiveStep(w, t, c, w')
    ensures Truthful(w, w')
  {
    match w.pcs[t]
    case Receive(Checked(m, at)) => ProcessedTruthful(w, t, w', m, at);
    case Receive(ResetPorts(i, _)) => ResetKeepsPorts(w, t, w', i, -ESTALE);
    case _ =>
      ReceiveAside(w, t, c, w');
      AsideTruthful(w, t, w');
  }

  lemma ShutdownAside(w: World, t: Tid, w': World)
    requires WellShaped(w) && t in w.pcs && ShutdownStep(w, t, w')
    requires w.pcs[t].Shutdown? ==> !w.pcs[t].s.CancelPorts?
    requires w.pcs[t].Uses().Some? ==> DescriptorClosed(w.pcs[t].Uses().value) !in w.log
    ensures Aside(w, t, w')
  {
  }

  lemma ShutdownTruthful(w: World, t: Tid, w': World)
    requires Inv(w) && t in w.pcs && ShutdownStep(w, t, w')
    ensures Truthful(w, w')
  {
    assert ThreadAlive(w.sh, w.closed, w.pcs[t]);
    match w.pcs[t]
    case Shutdown(CancelPorts(i, _, _)) => ResetKeepsPorts(w, t, w', i, -ENOTCONN);
    case _ =>
      ShutdownAside(w, t, w');
      AsideTruthful(w, t, w');
  }

  lemma InitQuiet(w: World, t: Tid, c: InitChoice, w': World)
    requires WellShaped(w) && t in w.pcs && InitStep(w, t, c, w')
    requires w.pcs[t].Init? ==> !w.pcs[t].i.ClearPorts?
    ensures SlotQuiet(w, t, w')
    ensures (w'.sh.nextSeq == w.sh.nextSeq && w'.issued == w.issued) || (w'.sh.nextSeq == 1 && w'.issued == [])
    ensures |w'.log| > |w.log| ==> Justified(w.log, w'.log[|w.log|])
  {
  }

  lemma InitTruthful(w: World, t: Tid, c: InitChoice, w': World)
    requires Inv(w) && t in w.pcs && InitStep(w, t, c, w')
    ensures Truthful(w, w')
  {
    match w.pcs[t]
    case Init(ClearPorts(i)) => ResetKeepsPorts(w, t, w', i, -ENOTCONN);
    case _ =>
      InitQuiet(w, t, c, w');
      QuietPorts(w, t, w');
  }

  lemma StepTruthful(w: World, t: Tid, a: Action, w': World)
    requires Inv(w) && Step(w, t, a, w')
    ensures Truthful(w, w')
  {
    match a
    case OfRequest(c) => RequestTruthful(w, t, c, w');
    case OfNote(result) => NoteTruthful(w, t, result, w');
    case OfReceive(c) => ReceiveTruthful(w, t, c, w');
    case OfShutdown => ShutdownTruthful(w, t, w');
    case OfInit(c) => InitTruthful(w, t, c, w');
    case OfCount(port) => CountTruthful(w, t, port, w');
  }

  // ----- sources -----

  /** Only a dispatch puts a thread past its session check. */
  ghost predicate NewCheckFresh(w: World, t: Tid, w': World) {
    && t in w.pcs && t in w'.pcs && w'.pcs == w.pcs[t := w'.pcs[t]]
    && (w'.pcs[t].Receive? && w'.pcs[t].r.Checked? ==>
         && w'.log == w.log && w'.sh == w.sh
         && w'.pcs[t].r.at == |w.log|
         && (w'.pcs[t].r.m.v2 && w.sh.v2 ==> w'.pcs[t].r.m.session == w.sh.session)
         && w.pcs[t].Receive?)
  }

  lemma StepChecksFresh(w: World, t: Tid, a: Action, w': World)
    requires Alive(w) && Step(w, t, a, w')
    ensures NewCheckFresh(w, t, w')
  {
    match a
    case OfRequest(c) => RequestBystander(w, t, c, w');
    case OfNote(result) => NoteBystander(w, t, result, w');
    case OfReceive(c) => ReceiveChecksFresh(w, t, c, w');
    case OfShutdown => ShutdownNoCheck(w, t, w');
    case OfInit(c) => InitNoCheck(w, t, c, w');
    case OfCount(_) =>
  }

  lemma ShutdownNoCheck(w: World, t: Tid, w': World)
    requires WellShaped(w) && t in w.pcs && ShutdownStep(w, t, w')
    ensures NewCheckFresh(w, t, w')
  {
  }

  lemma InitNoCheck(w: World, t: Tid, c: InitChoice, w': World)
    requires WellShaped(w) && t in w.pcs && InitStep(w, t, c, w')
    ensures NewCheckFresh(w, t, w')
  {
  }

  lemma ReceiveChecksFresh(w: World, t: Tid, c: ReceiveChoice, w': World)
    requires WellShaped(w) && t in w.pcs && ReceiveStep(w, t, c, w')
    ensures NewCheckFresh(w, t, w')
  {
    match w.pcs[t]
    case Receive(Checked(m, at)) => ProcessedLeavesCheck(w, t, w', m, at);
    case _ =>
  }

  lemma ProcessedLeavesCheck(w: World, t: Tid, w': World, m: Msg, at: nat)
    requires t in w.pcs && WellShaped(w) && Frame.IsValidPort(m.port)
    requires (m.cmd == CMD_ALL_STATUS || m.cmd == CMD_DRIVE_TELEMETRY) ==> w.sh.status.Some?
    requires w' == Processed(w, t, m, at)
    ensures t in w'.pcs && w'.pcs == w.pcs[t := w'.pcs[t]] && w'.pcs[t].Receive? && !w'.pcs[t].r.Checked?
  {
  }

  lemma SourcesKept(w: World, t: Tid, w': World)
    requires Inv(w) && NewCheckFresh(w, t, w') && Grows(w.log, w'.log)
    ensures SourcesOk(w')
  {
    forall u | u in w'.pcs && w'.pcs[u].Receive? && w'.pcs[u].r.Checked?
      ensures SourceChecked(w'.log, Source(w'.pcs[u].r.m.v2, w'.pcs[u].r.m.session, w'.pcs[u].r.at))
    {
      if u == t {
        assert ThreadAlive(w.sh, w.closed, w.pcs[t]);
        assert w.log[..|w.log|] == w.log;
      } else {
        var at := w.pcs[u].r.at;
        assert w'.log[..at] == w.log[..at];
      }
    }
  }

  // ----- all of it -----

  lemma InvKept(w: World, t: Tid, a: Action, w': World)
    requires Inv(w) && Step(w, t, a, w')
    ensures Inv(w')
  {
    AliveKept(w, t, a, w');
    ReplaysKept(w, t, a, w');
    StepTruthful(w, t, a, w');
    StepChecksFresh(w, t, a, w');
    SourcesKept(w, t, w');
    if |w'.log| > |w.log| {
      LogOkAppend(w.log, w'.log[|w.log|]);
      assert w'.log == w.log + [w'.log[|w.log|]];
    }
  }

  lemma InitialInv(w: World)
    requires Initial(w)
    ensures Inv(w)
  {
    assert ActiveSet(w.pcs) == {};
  }

  lemma {:induction false} RunInv(run: seq<World>, k: nat)
    requires IsRun(run) && k < |run|
    ensures Inv(run[k])
    decreases k
  {
    if k == 0 {
      InitialInv(run[0]);
    } else {
      RunInv(run, k - 1);
      assert CanBecome(run[k - 1], run[k]);
      var t, a :| Step(run[k - 1], t, a, run[k]);
      InvKept(run[k - 1], t, a, run[k]);
    }
  }

  lemma ReachableInv(w: World)
    requires Reachable(w)
    ensures Inv(w)
  {
    var run :| IsRun(run) && run[|run| - 1] == w;
    RunInv(run, |run| - 1);
  }
}
