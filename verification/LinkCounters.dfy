/** The receive counters add up. */
module LinkCounters {
  import opened Link
  import opened LinkLifecycle
  import Frame

  /** Receive calls that have counted a refusal but not yet the frame it was in. */
  function OweSet(pcs: map<Tid, Pc>): set<Tid> { set t | t in pcs && pcs[t].Owes() }

  ghost predicate CountersOk(w: World) {
    w.stats.sessionErrors + w.stats.staleAcks <= w.stats.rx + |OweSet(w.pcs)|
  }

  lemma OweAfter(pcs: map<Tid, Pc>, t: Tid, pc: Pc)
    requires t in pcs
    ensures |OweSet(pcs[t := pc])| - |OweSet(pcs)| == (if pc.Owes() then 1 else 0) - (if pcs[t].Owes() then 1 else 0)
    ensures |OweSet(pcs)| <= |ActiveSet(pcs)|
  {
    hide Pc.Owes;
    var rest := OweSet(pcs) - {t};
    assert OweSet(pcs) == if pcs[t].Owes() then rest + {t} else rest;
    assert OweSet(pcs[t := pc]) == if pc.Owes() then rest + {t} else rest;
    OwesWhileActive(pcs);
  }

  lemma OwesWhileActive(pcs: map<Tid, Pc>)
    ensures |OweSet(pcs)| <= |ActiveSet(pcs)|
  {
    SubsetSize(OweSet(pcs), ActiveSet(pcs));
  }

  lemma {:induction false} SubsetSize(a: set<Tid>, b: set<Tid>)
    requires a <= b
    ensures |a| <= |b|
  {
    assert b == a + (b - a);
  }

  /** Refusals grow by no more than received frames and debts together. */
  ghost predicate Balanced(w: World, t: Tid, w': World) {
    && t in w.pcs && t in w'.pcs && w'.pcs == w.pcs[t := w'.pcs[t]]
    && ( || w'.stats == NO_STATS
         || w'.stats.sessionErrors + w'.stats.staleAcks - w.stats.sessionErrors - w.stats.staleAcks
            <= w'.stats.rx - w.stats.rx
               + (if w'.pcs[t].Owes() then 1 else 0) - (if w.pcs[t].Owes() then 1 else 0))
  }

  lemma CountersKept(w: World, t: Tid, w': World)
    requires CountersOk(w) && Balanced(w, t, w')
    ensures CountersOk(w')
  {
    OweAfter(w.pcs, t, w'.pcs[t]);
  }

  lemma JobBalanced(w: World, t: Tid, c: RequestChoice, w': World)
    requires WellShaped(w) && t in w.pcs && w.pcs[t].IsJob() && RequestStep(w, t, c, w')
    ensures Balanced(w, t, w')
  {
  }

  lemma ProcessedBalanced(w: World, t: Tid, w': World, m: Msg, at: nat)
    requires WellShaped(w) && t in w.pcs && w.pcs[t] == Receive(Checked(m, at)) && Frame.IsValidPort(m.port)
    requires (m.cmd == CMD_ALL_STATUS || m.cmd == CMD_DRIVE_TELEMETRY) ==> w.sh.status.Some?
    requires w' == Processed(w, t, m, at)
    ensures Balanced(w, t, w') && Raised(w, w') == 0
  {
  }

  lemma ReceiveBalanced(w: World, t: Tid, c: ReceiveChoice, w': World)
    requires WellShaped(w) && t in w.pcs && ReceiveStep(w, t, c, w')
    ensures Balanced(w, t, w')
  {
    match w.pcs[t]
    case Receive(Checked(m, at)) => ProcessedBalanced(w, t, w', m, at);
    case _ =>
  }

  lemma ShutdownBalanced(w: World, t: Tid, w': World)
    requires WellShaped(w) && t in w.pcs && ShutdownStep(w, t, w')
    ensures Balanced(w, t, w')
  {
  }

  lemma InitBalanced(w: World, t: Tid, c: InitChoice, w': World)
    requires WellShaped(w) && t in w.pcs && InitStep(w, t, c, w')
    ensures Balanced(w, t, w')
  {
  }

  lemma StepBalanced(w: World, t: Tid, a: Action, w': World)
    requires Step(w, t, a, w')
    ensures Balanced(w, t, w')
  {
    match a
    case OfRequest(c) => if w.pcs[t].IsJob() { JobBalanced(w, t, c, w'); }
    case OfNote(_) =>
    case OfReceive(c) => ReceiveBalanced(w, t, c, w');
    case OfShutdown => ShutdownBalanced(w, t, w');
    case OfInit(c) => InitBalanced(w, t, c, w');
    case OfCount(_) =>
  }

  // ----- one outcome per receive call -----

  /** How far a step raises rx_frames, crc_errors and framing_errors together. */
  function Raised(w: World, w': World): int {
    (w'.stats.rx - w.stats.rx) + (w'.stats.crcErrors - w.stats.crcErrors)
    + (w'.stats.framingErrors - w.stats.framingErrors)
  }

  /** A receive call that raises one of the three has nothing left to do but leave,
      and leaving raises none: one call raises at most one of them, once. */
  lemma RaiseThenLeave(w: World, t: Tid, c: ReceiveChoice, w': World)
    requires WellShaped(w) && t in w.pcs && ReceiveStep(w, t, c, w')
    ensures t in w'.pcs && 0 <= Raised(w, w') <= 1
    ensures Raised(w, w') == 1 ==> w'.pcs[t] == Receive(Leave)
    ensures w.pcs[t] == Receive(Leave) ==> Raised(w, w') == 0 && w'.pcs[t] == Idle
  {
    match w.pcs[t]
    case Receive(Checked(m, at)) => ProcessedBalanced(w, t, w', m, at);
    case _ =>
  }

  // ----- what each counter counts -----

  /** A send handed over to the transport and taken. */
  predicate Transmits(pc: Pc, a: Action) {
    || (pc.IsJob() && pc.q.pc.Sending? && a.OfRequest? && a.r.Sent? && a.r.result >= 0)
    || (pc.Note? && pc.n.HasLock? && a.OfNote? && a.result >= 0)
  }

  /** A frame for no port, refused when it is dispatched. */
  predicate Misaddressed(pc: Pc) {
    pc.Receive? && pc.r.Dispatch? && pc.r.m.cmd != CMD_LINK_HELLO && !Frame.IsValidPort(pc.r.m.port)
  }

  function One(b: bool): nat { if b then 1 else 0 }

  /** Outside initialisation every counter rises by one exactly when its event happens, and never
      falls: frames sent and taken, attempts repeated, legacy frames, bad checksums, frames that are
      none or for no port, frames of another session. */
  lemma CountersSayWhatHappened(w: World, t: Tid, a: Action, w': World)
    requires Step(w, t, a, w') && !a.OfInit?
    ensures t in w'.pcs
    ensures w'.stats.tx == w.stats.tx + One(Transmits(w.pcs[t], a))
    ensures w'.stats.retries == w.stats.retries
      + One(w.pcs[t].IsJob() && w.pcs[t].q.pc.Wait? && w'.pcs[t].IsJob() && w'.pcs[t].q.pc.Check? && w'.pcs[t].q.job.left > 0)
    ensures w'.stats.legacy == w.stats.legacy + One(a.OfReceive? && a.c.Frame1?)
    ensures w'.stats.crcErrors == w.stats.crcErrors + One(a.OfReceive? && a.c.BadCrc?)
    ensures w'.stats.framingErrors == w.stats.framingErrors + One((a.OfReceive? && a.c.BadFraming?) || Misaddressed(w.pcs[t]))
    ensures w'.stats.sessionErrors == w.stats.sessionErrors + One(w.pcs[t] == Receive(Stale))
    ensures w'.stats.rx == w.stats.rx + One(w.pcs[t].Receive? && w.pcs[t].r.Count?)
  {
    match a
    case OfRequest(c) => RequestCounts(w, t, c, w');
    case OfNote(_) =>
    case OfReceive(c) => ReceiveCounts(w, t, c, w');
    case OfShutdown => ShutdownCounts(w, t, w');
    case OfCount(_) =>
  }

  lemma RequestCounts(w: World, t: Tid, c: RequestChoice, w': World)
    requires t in w.pcs && WellShaped(w) && RequestStep(w, t, c, w')
    ensures t in w'.pcs && w'.stats == w.stats.(tx := w'.stats.tx, retries := w'.stats.retries, timeouts := w'.stats.timeouts)
    ensures w'.stats.tx == w.stats.tx + One(Transmits(w.pcs[t], OfRequest(c))) && !w.pcs[t].Receive?
    ensures w'.stats.retries == w.stats.retries
      + One(w.pcs[t].IsJob() && w.pcs[t].q.pc.Wait? && w'.pcs[t].IsJob() && w'.pcs[t].q.pc.Check? && w'.pcs[t].q.job.left > 0)
  {
    hide Verdict, JobStep;
    if w.pcs[t].IsJob() {
      JobCounts(w, t, c, w.pcs[t].q.job, w.pcs[t].q.pc, w');
    }
  }

  lemma JobCounts(w: World, t: Tid, c: RequestChoice, j: Job, pc: JobPc, w': World)
    requires t in w.pcs && WellShaped(w) && w.pcs[t] == Request(Running(j, pc)) && j.port < PORTS && JobStep(w, t, c, j, pc, w')
    ensures t in w'.pcs && w'.stats == w.stats.(tx := w'.stats.tx, retries := w'.stats.retries, timeouts := w'.stats.timeouts)
    ensures w'.stats.tx == w.stats.tx + One(Transmits(w.pcs[t], OfRequest(c)))
    ensures w'.stats.retries == w.stats.retries
      + One(pc.Wait? && w'.pcs[t].IsJob() && w'.pcs[t].q.pc.Check? && w'.pcs[t].q.job.left > 0)
  {
    hide Verdict, Tried;
    if pc.Wait? && c.WaitOver? {
      TriedLeft(j, c.error);
    }
  }

  lemma TriedLeft(j: Job, error: int)
    ensures Tried(j, j.result, NoAnswer).left == j.left && Tried(j, error, WaitFailed(error)).left == j.left
  {
  }

  lemma ReceiveCounts(w: World, t: Tid, c: ReceiveChoice, w': World)
    requires t in w.pcs && WellShaped(w) && ReceiveStep(w, t, c, w')
    ensures t in w'.pcs && w'.stats.tx == w.stats.tx && w'.stats.retries == w.stats.retries && !w.pcs[t].IsJob()
    ensures w'.stats.legacy == w.stats.legacy + One(c.Frame1?) && w'.stats.crcErrors == w.stats.crcErrors + One(c.BadCrc?)
    ensures w'.stats.framingErrors == w.stats.framingErrors + One(c.BadFraming? || Misaddressed(w.pcs[t]))
    ensures w'.stats.sessionErrors == w.stats.sessionErrors + One(w.pcs[t] == Receive(Stale))
    ensures w'.stats.rx == w.stats.rx + One(w.pcs[t].Receive? && w.pcs[t].r.Count?)
    ensures !Transmits(w.pcs[t], OfReceive(c))
  {
    hide Processed;
    match w.pcs[t]
    case Receive(Checked(m, at)) => ProcessedCounts(w, t, w', m, at);
    case _ =>
  }

  lemma ProcessedCounts(w: World, t: Tid, w': World, m: Msg, at: nat)
    requires t in w.pcs && WellShaped(w) && Frame.IsValidPort(m.port)
    requires (m.cmd == CMD_ALL_STATUS || m.cmd == CMD_DRIVE_TELEMETRY) ==> w.sh.status.Some?
    requires w' == Processed(w, t, m, at)
    ensures t in w'.pcs && w'.stats == w.stats.(staleAcks := w'.stats.staleAcks)
  {
  }

  lemma ShutdownCounts(w: World, t: Tid, w': World)
    requires t in w.pcs && WellShaped(w) && ShutdownStep(w, t, w')
    ensures t in w'.pcs && w'.stats == w.stats && !w.pcs[t].IsJob() && !w.pcs[t].Receive?
  {
  }
}
