/** Session, status, telemetry and closed descriptors are functions of the history. */
module LinkReplay {
  import opened Status
  import opened Bytes
  import opened Link
  import opened LinkHistory
  import Frame

  ghost predicate Replays(w: World) {
    && w.sh.session == SessionAfter(w.log)
    && (w.sh.status.Some? ==> w.sh.status.value == StatusAfter(w.log))
    && w.sh.telemetry == TelemetryAfter(w.log)
    && forall fd :: fd in w.closed <==> DescriptorClosed(fd) in w.log
  }

  ghost predicate Silent(w: World, w': World) {
    && w'.log == w.log && w'.closed == w.closed
    && w'.sh.session == w.sh.session && w'.sh.telemetry == w.sh.telemetry
    && (w'.sh.status.Some? ==> w'.sh.status == w.sh.status)
  }

  ghost predicate Tells(w: World, w': World, e: Event) {
    && w'.log == w.log + [e]
    && w'.sh.session == (if e.SessionIs? then e.session else w.sh.session)
    && w'.sh.telemetry == TelemetryStep(w.sh.telemetry, e)
    && w'.closed == w.closed + (if e.DescriptorClosed? then {e.fd} else {})
    && (w'.sh.status.Some? ==>
         || (e.StatusZeroed? && w'.sh.status.value == Zeroed(STATUS_SIZE))
         || (w.sh.status.Some? && w'.sh.status.value == StatusStep(w.sh.status.value, e)))
  }

  /** Every step either leaves no trace or leaves one entry that says what it changed. */
  ghost predicate Told(w: World, w': World) {
    Silent(w, w') || (|w'.log| > |w.log| && Tells(w, w', w'.log[|w.log|]))
  }

  lemma ToldReplays(w: World, w': World)
    requires Replays(w) && Told(w, w')
    ensures Replays(w')
  {
    if |w'.log| > |w.log| {
      SummariesAppend(w.log, w'.log[|w.log|]);
    }
  }

  lemma JobTold(w: World, t: Tid, c: RequestChoice, w': World)
    requires t in w.pcs && WellShaped(w) && w.pcs[t].IsJob() && RequestStep(w, t, c, w')
    ensures Told(w, w')
  {
  }

  lemma ReceiveTold(w: World, t: Tid, c: ReceiveChoice, w': World)
    requires t in w.pcs && WellShaped(w) && ReceiveStep(w, t, c, w')
    ensures Told(w, w')
  {
    match w.pcs[t]
    case Receive(Checked(m, at)) => ProcessedTold(w, t, w', m, at);
    case _ =>
  }

  lemma ProcessedTold(w: World, t: Tid, w': World, m: Msg, at: nat)
    requires t in w.pcs && WellShaped(w) && Frame.IsValidPort(m.port)
    requires (m.cmd == CMD_ALL_STATUS || m.cmd == CMD_DRIVE_TELEMETRY) ==> w.sh.status.Some?
    requires w' == Processed(w, t, m, at)
    ensures Told(w, w')
  {
  }

  lemma ShutdownTold(w: World, t: Tid, w': World)
    requires t in w.pcs && WellShaped(w) && ShutdownStep(w, t, w')
    ensures Told(w, w')
  {
  }

  lemma InitTold(w: World, t: Tid, c: InitChoice, w': World)
    requires t in w.pcs && WellShaped(w) && InitStep(w, t, c, w')
    ensures Told(w, w')
  {
  }

  lemma StepTold(w: World, t: Tid, a: Action, w': World)
    requires Step(w, t, a, w')
    ensures Told(w, w')
  {
    match a
    case OfRequest(c) => if w.pcs[t].IsJob() { JobTold(w, t, c, w'); }
    case OfNote(_) =>
    case OfReceive(c) => ReceiveTold(w, t, c, w');
    case OfShutdown => ShutdownTold(w, t, w');
    case OfInit(c) => InitTold(w, t, c, w');
    case OfCount(_) =>
  }

  lemma ReplaysKept(w: World, t: Tid, a: Action, w': World)
    requires Replays(w) && Step(w, t, a, w')
    ensures Replays(w')
  {
    StepTold(w, t, a, w');
    ToldReplays(w, w');
  }
}
