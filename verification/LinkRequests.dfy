/** Which answer may complete which request. */
module LinkRequests {
  import opened Bytes
  import opened Sequence
  import opened Link
  import opened LinkHistory
  import opened LinkLifecycle
  import opened LinkReplay

  // ----- the invariant of one port -----

  /** What a slot says about the request registered at entry reg. */
  ghost predicate SlotStory(log: seq<Event>, p: nat, s: Slot, reg: nat, done: nat, number: u32) {
    if s.pending then s.pendingSeq == number
    else
      || s == CLEAR
      || (reg < done < |log| &&
          ( || (s.ackCmd == -1 && log[done] == RequestCanceled(p, number, s.ackData))
            || (s.ackCmd >= 0 && s.ackSeq == number
                && log[done] == AckMatched(p, Ack(s.ackSeq, s.ackSession, s.ackCmd, s.ackData)))))
  }

  ghost predicate RequestOk(log: seq<Event>, p: nat, s: Slot, reg: nat, done: nat, t: Tid, q: RequestPc) {
    match q
    case Running(j, pc) =>
      && j.port == p && j.number != 0
      && LatestRegistration(log, reg, t, p, j.cmd, j.number)
      && SlotStory(log, p, s, reg, done, j.number)
      && (pc == Conclude(true) ==> !s.pending)
    case Register(port, _, number) => port == p && !s.pending && number != 0
    case _ => q.Port() == p && !s.pending
  }

  ghost predicate PortOk(w: World, p: nat)
    requires WellShaped(w) && p < PORTS
  {
    var s := w.slots[p];
    && Outstanding(w.log, p) == (if s.pending then Some(s.pendingSeq) else None)
    && match w.locks.request[p]
       case None => !s.pending
       case Some(t) =>
         && t in w.pcs && w.pcs[t].Request?
         && RequestOk(w.log, p, s, w.regAt[p], w.doneAt[p], t, w.pcs[t].q)
  }

  ghost predicate NumbersOk(w: World) {
    && w.sh.nextSeq == SequenceAt(1, |w.issued|)
    && forall k :: 0 <= k < |w.issued| ==> w.issued[k] == SequenceAt(1, k)
  }

  ghost predicate PortsOk(w: World) {
    && WellShaped(w) && NumbersOk(w)
    && forall p :: 0 <= p < PORTS ==> PortOk(w, p)
  }

  ghost predicate Sound(w: World) {
    Alive(w) && Replays(w) && PortsOk(w)
  }

  // ----- ports a step leaves alone -----

  ghost predicate SamePort(w: World, w': World, p: nat)
    requires WellShaped(w) && WellShaped(w') && p < PORTS
  {
    && w'.slots[p] == w.slots[p] && w'.regAt[p] == w.regAt[p] && w'.doneAt[p] == w.doneAt[p]
    && w'.locks.request[p] == w.locks.request[p]
  }

  /** The log grew by at most one entry, and that entry is not about port p. */
  ghost predicate QuietFor(w: World, w': World, p: nat) {
    && Grows(w.log, w'.log)
    && (|w'.log| > |w.log| ==> !AboutPort(w'.log[|w.log|], p))
  }

  lemma UntouchedPort(w: World, t: Tid, w': World, p: nat)
    requires WellShaped(w) && WellShaped(w') && p < PORTS && PortOk(w, p)
    requires SamePort(w, w', p) && QuietFor(w, w', p)
    requires t in w.pcs && t in w'.pcs && w'.pcs == w.pcs[t := w'.pcs[t]]
    requires w.locks.request[p] != Some(t)
    ensures PortOk(w', p)
  {
    if |w'.log| > |w.log| {
      var e := w'.log[|w.log|];
      assert w'.log == w.log + [e];
      OutstandingAppend(w.log, e, p);
    }
  }

  /** A step of a thread that runs no request and touches no slot. */
  ghost predicate SlotQuiet(w: World, t: Tid, w': World) {
    && WellShaped(w) && WellShaped(w')
    && w'.slots == w.slots && w'.regAt == w.regAt && w'.doneAt == w.doneAt
    && w'.locks.request == w.locks.request
    && Grows(w.log, w'.log)
    && (|w'.log| > |w.log| ==> forall p :: 0 <= p < PORTS ==> !AboutPort(w'.log[|w.log|], p))
    && t in w.pcs && t in w'.pcs && w'.pcs == w.pcs[t := w'.pcs[t]]
    && !w.pcs[t].Request? && !w'.pcs[t].Request?
  }

  lemma QuietPorts(w: World, t: Tid, w': World)
    requires Sound(w) && SlotQuiet(w, t, w') && NumbersOk(w')
    ensures PortsOk(w')
  {
    HeldAtOwnPort(w, t);
    forall p: nat | p < PORTS
      ensures PortOk(w', p)
    {
      UntouchedPort(w, t, w', p);
    }
  }

  // ----- one iteration of reset_port_state -----

  ghost predicate SlotReset(w: World, t: Tid, w': World, p: nat, error: int) {
    && WellShaped(w) && p < PORTS
    && t in w.pcs && t in w'.pcs && !w.pcs[t].Request? && !w'.pcs[t].Request?
    && w' == At(ResetPort(w, p, error), t, w'.pcs[t])
  }

  lemma ResetKeepsPorts(w: World, t: Tid, w': World, p: nat, error: int)
    requires Sound(w) && SlotReset(w, t, w', p, error)
    ensures PortsOk(w')
    ensures w.slots[p].pending ==> Justified(w.log, RequestCanceled(p, w.slots[p].pendingSeq, error))
  {
    HeldAtOwnPort(w, t);
    assert PortOk(w, p);
    if w.slots[p].pending {
      OutstandingAppend(w.log, RequestCanceled(p, w.slots[p].pendingSeq, error), p);
    }
    forall q: nat | q < PORTS && q != p
      ensures PortOk(w', q)
    {
      UntouchedPort(w, t, w', q);
    }
  }

  // ----- a matching ACK -----

  lemma MatchPorts(w: World, t: Tid, w': World, p: nat, a: Ack)
    requires Sound(w) && t in w.pcs && w.pcs[t].Receive? && p < PORTS
    requires Matches(w.slots[p], w.sh.v2, w.sh.session, a)
    requires w' == Acknowledged(w, t, p, a)
    ensures PortsOk(w')
    ensures Justified(w.log, AckMatched(p, a))
  {
    HeldAtOwnPort(w, t);
    assert ThreadAlive(w.sh, w.closed, w.pcs[t]);
    assert PortOk(w, p);
    OutstandingAppend(w.log, AckMatched(p, a), p);
    forall q: nat | q < PORTS && q != p
      ensures PortOk(w', q)
    {
      UntouchedPort(w, t, w', q);
    }
  }

  // ----- the request itself -----

  lemma OtherPorts(w: World, t: Tid, w': World, p: nat)
    requires Sound(w) && WellShaped(w') && p < PORTS && NumbersOk(w')
    requires t in w.pcs && t in w'.pcs && w'.pcs == w.pcs[t := w'.pcs[t]]
    requires w.pcs[t].Request? ==> w.pcs[t].q.Port() == p
    requires forall q :: 0 <= q < PORTS && q != p ==> SamePort(w, w', q) && QuietFor(w, w', q)
    requires PortOk(w', p)
    ensures PortsOk(w')
  {
    HeldAtOwnPort(w, t);
    forall q: nat | q < PORTS && q != p
      ensures PortOk(w', q)
    {
      UntouchedPort(w, t, w', q);
    }
  }

  lemma NumberedOk(w: World)
    requires NumbersOk(w)
    ensures NumbersOk(Numbered(w)) && w.sh.nextSeq != 0
  {
    NumbersRepeatOnlyAfterPeriod(1, |w.issued|, |w.issued|);
  }

  lemma StartPorts(w: World, t: Tid, c: RequestChoice, w': World)
    requires Sound(w) && t in w.pcs && !w.pcs[t].IsJob() && RequestStep(w, t, c, w')
    ensures PortsOk(w')
  {
    assert HolderOk(w.locks, t, w.pcs[t]);
    var p := if w.pcs[t].Idle? then c.port else w.pcs[t].q.Port();
    assert PortOk(w, p);
    NumberedOk(w);
    if w.pcs[t].Request? && w.pcs[t].q.Register? {
      RegisterPort(w, t, c, w');
    } else {
      OtherPorts(w, t, w', p);
    }
  }

  lemma RegisterPort(w: World, t: Tid, c: RequestChoice, w': World)
    requires Sound(w) && t in w.pcs && w.pcs[t].Request? && w.pcs[t].q.Register? && RequestStep(w, t, c, w')
    ensures PortsOk(w')
  {
    var Register(p, cmd, number) := w.pcs[t].q;
    assert HolderOk(w.locks, t, w.pcs[t]);
    assert PortOk(w, p);
    OutstandingAppend(w.log, RequestRegistered(t, p, cmd, number), p);
    OtherPorts(w, t, w', p);
  }

  /** Until it concludes, a registered request only reads its slot. */
  ghost predicate JobWaits(w: World, t: Tid, w': World) {
    && t in w.pcs && t in w'.pcs && w.pcs[t].IsJob() && w'.pcs[t].IsJob()
    && w'.pcs == w.pcs[t := w'.pcs[t]]
    && w'.slots == w.slots && w'.regAt == w.regAt && w'.doneAt == w.doneAt && w'.log == w.log
    && w'.locks.request == w.locks.request
    && w'.sh == w.sh && w'.issued == w.issued
    && var j, j' := w.pcs[t].q.job, w'.pcs[t].q.job;
       && j'.port == j.port && j'.cmd == j.cmd && j'.number == j.number
       && j.port < |w.slots| && (w'.pcs[t].q.pc == Conclude(true) ==> !w.slots[j.port].pending)
  }

  lemma JobShape(w: World, t: Tid, c: RequestChoice, w': World)
    requires WellShaped(w) && t in w.pcs && w.pcs[t].IsJob() && RequestStep(w, t, c, w')
    requires !w.pcs[t].q.pc.Conclude?
    ensures JobWaits(w, t, w')
  {
  }

  lemma JobPorts(w: World, t: Tid, w': World)
    requires Sound(w) && JobWaits(w, t, w')
    ensures PortsOk(w')
  {
    var p := w.pcs[t].q.job.port;
    assert HolderOk(w.locks, t, w.pcs[t]);
    assert PortOk(w, p);
    OtherPorts(w, t, w', p);
  }

  /** A request that returns tells the truth about how it was completed. */
  lemma ConcludePorts(w: World, t: Tid, c: RequestChoice, w': World)
    requires Sound(w) && t in w.pcs && w.pcs[t].IsJob() && RequestStep(w, t, c, w')
    requires w.pcs[t].q.pc.Conclude?
    ensures PortsOk(w')
    ensures |w'.log| == |w.log| + 1 && w'.log[..|w.log|] == w.log && Justified(w.log, w'.log[|w.log|])
  {
    var j, completed := w.pcs[t].q.job, w.pcs[t].q.pc.completed;
    var p := j.port;
    var s := w.slots[p];
    assert HolderOk(w.locks, t, w.pcs[t]);
    assert PortOk(w, p);
    var how := Verdict(s, w.sh.v2, w.sh.session, j.cmd, j.number, completed);
    var result := if how.ByItself? then j.result else s.ackData;
    OutstandingAppend(w.log, RequestReturned(t, p, j.cmd, j.number, how, w.sh.v2, result, completed, j.tries, j.allowed), p);
    if how == ByCancel {
      assert CanceledWith(w.log, w.regAt[p], w.doneAt[p], t, p, j.cmd, j.number, result);
    }
    if how == ByAck && (w.sh.v2 || j.cmd != 0) {
      assert Answered(w.log, w.regAt[p], w.doneAt[p], t, p, j.cmd, j.number, result);
    }
    OtherPorts(w, t, w', p);
  }
}
