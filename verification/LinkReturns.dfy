/** What a request returns when no answer and no cancellation ended it, and what an ACK can carry. */
module LinkReturns {
  import opened Bytes
  import opened Errno
  import opened Link
  import Frame

  /** The error that is left after the attempts: the last one that failed other than by silence. */
  function ResultOf(tries: seq<Try>): int {
    if tries == [] then -ETIMEDOUT
    else
      match tries[|tries| - 1]
      case Refused => -ENOTCONN
      case SendFailed(e) => e
      case WaitFailed(e) => e
      case NoAnswer => ResultOf(tries[..|tries| - 1])
  }

  predicate AllWaited(tries: seq<Try>) {
    forall a <- tries :: a.WaitFailed? || a.NoAnswer?
  }

  /** Either the last attempt could not be sent, or all attempts allowed were sent and waited for. */
  predicate UsedUp(tries: seq<Try>, allowed: nat) {
    && 0 < |tries| <= allowed
    && AllWaited(tries[..|tries| - 1])
    && (tries[|tries| - 1].Refused? || tries[|tries| - 1].SendFailed? || |tries| == allowed)
  }

  predicate Negative(tries: seq<Try>) {
    forall a <- tries :: (a.SendFailed? ==> a.error < 0) && (a.WaitFailed? ==> a.error < 0)
  }

  predicate IsTimeout(e: Event) { e.RequestReturned? && e.how.ByItself? && e.result == -ETIMEDOUT }

  // ----- the invariant: what a running request knows of its attempts -----

  ghost predicate JobTold(j: Job, pc: JobPc) {
    && Negative(j.tries) && j.result == ResultOf(j.tries)
    && match pc
       case Attempts => j.tries == [] && j.left == 0
       case Conclude(completed) =>
         1 <= j.allowed <= 2 && if completed then |j.tries| < j.allowed && AllWaited(j.tries) else UsedUp(j.tries, j.allowed)
       case Check => 1 <= j.allowed <= 2 && |j.tries| + j.left == j.allowed && AllWaited(j.tries)
       case _ => 1 <= j.allowed <= 2 && |j.tries| + j.left == j.allowed && AllWaited(j.tries) && j.left > 0
  }

  ghost predicate ThreadTold(pc: Pc) {
    pc.IsJob() ==> JobTold(pc.q.job, pc.q.pc)
  }

  /** Signed 32-bit numbers. */
  predicate Int32(n: int) { -0x8000_0000 <= n < 0x8000_0000 }

  ghost predicate EventTold(e: Event) {
    match e
    case AckMatched(_, a) => 0 <= a.cmd && Int32(a.cmd) && Int32(a.data)
    case RequestReturned(_, _, _, _, how, _, result, completed, tries, allowed) =>
      && 1 <= allowed <= 2 && Negative(tries)
      && (if completed then |tries| < allowed && AllWaited(tries) else UsedUp(tries, allowed))
      && (how.ByItself? ==> result == ResultOf(tries))
    case _ => true
  }

  function TimeoutsAfter(log: seq<Event>): nat {
    if |log| == 0 then 0
    else
      var e := log[|log| - 1];
      if e.CountersCleared? then 0
      else TimeoutsAfter(log[..|log| - 1]) + (if IsTimeout(e) then 1 else 0)
  }

  ghost predicate AllTold(w: World) {
    && (forall t :: t in w.pcs ==> ThreadTold(w.pcs[t]))
    && (forall j :: 0 <= j < |w.log| ==> EventTold(w.log[j]))
    && w.stats.timeouts == TimeoutsAfter(w.log)
  }

  /** What a step adds to the story. */
  ghost predicate Adds(w: World, t: Tid, w': World) {
    && t in w.pcs && t in w'.pcs && w'.pcs == w.pcs[t := w'.pcs[t]]
    && (ThreadTold(w.pcs[t]) ==> ThreadTold(w'.pcs[t]))
    && if w'.log == w.log then w'.stats.timeouts == w.stats.timeouts
       else
         && |w'.log| == |w.log| + 1 && w'.log[..|w.log|] == w.log
         && var e := w'.log[|w.log|];
            && (ThreadTold(w.pcs[t]) ==> EventTold(e))
            && w'.stats.timeouts == if e.CountersCleared? then 0 else w.stats.timeouts + (if IsTimeout(e) then 1 else 0)
  }

  lemma AddsKeeps(w: World, t: Tid, w': World)
    requires AllTold(w) && Adds(w, t, w')
    ensures AllTold(w')
  {
    hide EventTold, ThreadTold;
    forall u | u in w'.pcs
      ensures ThreadTold(w'.pcs[u])
    {
      assert u != t ==> w'.pcs[u] == w.pcs[u];
    }
    if w'.log != w.log {
      forall j | 0 <= j < |w'.log|
        ensures EventTold(w'.log[j])
      {
        assert j < |w.log| ==> w'.log[j] == w'.log[..|w.log|][j];
      }
      assert w'.log[..|w'.log| - 1] == w.log;
    }
  }

  /** The last attempt decides. */
  lemma OneMoreTry(tries: seq<Try>, a: Try)
    ensures ResultOf(tries + [a]) ==
      match a case Refused => -ENOTCONN case SendFailed(e) => e case WaitFailed(e) => e case NoAnswer => ResultOf(tries)
    ensures (tries + [a])[..|tries + [a]| - 1] == tries
  {
    assert (tries + [a])[..|tries|] == tries;
  }

  lemma {:induction false} ResultIsNegative(tries: seq<Try>)
    requires Negative(tries)
    ensures ResultOf(tries) < 0
  {
    if tries != [] {
      assert tries[|tries| - 1] in tries;
      ResultIsNegative(tries[..|tries| - 1]);
    }
  }

  lemma JobAdds(w: World, t: Tid, c: RequestChoice, j: Job, pc: JobPc, w': World)
    requires t in w.pcs && WellShaped(w) && w.pcs[t] == Request(Running(j, pc)) && j.port < PORTS && JobStep(w, t, c, j, pc, w')
    ensures Adds(w, t, w')
  {
    if pc.Conclude? {
      ConcludeAdds(w, t, c, j, pc.completed, w');
    } else {
      JobGoesOn(w, t, c, j, pc, w');
    }
  }

  lemma ConcludeAdds(w: World, t: Tid, c: RequestChoice, j: Job, completed: bool, w': World)
    requires t in w.pcs && WellShaped(w) && w.pcs[t] == Request(Running(j, Conclude(completed))) && j.port < PORTS
    requires JobStep(w, t, c, j, Conclude(completed), w')
    ensures Adds(w, t, w')
  {
    hide ResultOf, Verdict, UsedUp, AllWaited, Negative;
  }

  /** One step of a running request that does not conclude. */
  ghost predicate Advances(j: Job, pc: JobPc, j': Job, pc': JobPc) {
    match pc
    case Attempts => (j' == Allowed(j, 1) || j' == Allowed(j, 2)) && pc' == Check
    case Check => j' == j && if j.left == 0 then pc' == Conclude(false) else pc'.Lock? || pc' == Conclude(true)
    case Lock => (j' == Tried(j, -ENOTCONN, Refused) && pc' == Conclude(false)) || (j' == j && pc'.Sending?)
    case Sending(_) =>
      || (j' == j && pc'.Wait?)
      || exists e: int :: e < 0 && j' == Tried(j, e, SendFailed(e)) && pc' == Conclude(false)
    case Wait =>
      && j.left > 0
      && ( || (j' == j && pc' == Conclude(true))
           || (j' == Tried(j, j.result, NoAnswer).(left := j.left - 1) && pc' == Check)
           || exists e: int :: e < 0 && j' == Tried(j, e, WaitFailed(e)).(left := j.left - 1) && pc' == Check)
    case Conclude(_) => false
  }

  lemma JobGoesOn(w: World, t: Tid, c: RequestChoice, j: Job, pc: JobPc, w': World)
    requires t in w.pcs && WellShaped(w) && w.pcs[t] == Request(Running(j, pc)) && j.port < PORTS && JobStep(w, t, c, j, pc, w')
    requires !pc.Conclude?
    ensures Adds(w, t, w')
  {
    hide JobTold, Tried, EventTold;
    JobAdvances(w, t, c, j, pc, w');
    if JobTold(j, pc) {
      AdvancesTold(j, pc, w'.pcs[t].q.job, w'.pcs[t].q.pc);
    }
  }

  lemma JobAdvances(w: World, t: Tid, c: RequestChoice, j: Job, pc: JobPc, w': World)
    requires t in w.pcs && WellShaped(w) && w.pcs[t] == Request(Running(j, pc)) && j.port < PORTS && JobStep(w, t, c, j, pc, w')
    requires !pc.Conclude?
    ensures t in w'.pcs && w'.pcs == w.pcs[t := w'.pcs[t]] && w'.pcs[t].IsJob()
    ensures w'.log == w.log && w'.stats.timeouts == w.stats.timeouts
    ensures Advances(j, pc, w'.pcs[t].q.job, w'.pcs[t].q.pc)
  {
    hide Tried;
  }

  lemma AdvancesTold(j: Job, pc: JobPc, j': Job, pc': JobPc)
    requires JobTold(j, pc) && Advances(j, pc, j', pc')
    ensures JobTold(j', pc')
  {
    hide ResultOf, Negative, AllWaited, UsedUp;
    NoTries();
    if |j'.tries| > |j.tries| {
      var a := j'.tries[|j.tries|];
      assert j'.tries == j.tries + [a];
      OneMoreTry(j.tries, a);
      TryAdded(j.tries, a, j.allowed);
    } else if pc'.Conclude? && !pc'.completed {
      AllUsedUp(j.tries, j.allowed);
    }
  }

  lemma TryAdded(tries: seq<Try>, a: Try, allowed: nat)
    requires Negative(tries) && AllWaited(tries) && |tries| < allowed
    requires (a.SendFailed? ==> a.error < 0) && (a.WaitFailed? ==> a.error < 0)
    ensures Negative(tries + [a])
    ensures if a.WaitFailed? || a.NoAnswer? then AllWaited(tries + [a]) else UsedUp(tries + [a], allowed)
  {
    assert (tries + [a])[..|tries|] == tries;
  }

  lemma AllUsedUp(tries: seq<Try>, allowed: nat)
    requires AllWaited(tries) && |tries| == allowed > 0
    ensures UsedUp(tries, allowed)
  {
  }

  lemma NoTries()
    ensures ResultOf([]) == -ETIMEDOUT && AllWaited([]) && Negative([])
  {
  }

  lemma RequestAdds(w: World, t: Tid, c: RequestChoice, w': World)
    requires t in w.pcs && WellShaped(w) && RequestStep(w, t, c, w')
    ensures Adds(w, t, w')
  {
    hide JobStep, ResultOf;
    NoTries();
    if w.pcs[t].IsJob() {
      JobAdds(w, t, c, w.pcs[t].q.job, w.pcs[t].q.pc, w');
    }
  }

  lemma SignedRange(n: u32)
    ensures Int32(Signed(n))
  {
  }

  lemma ReceiveAdds(w: World, t: Tid, c: ReceiveChoice, w': World)
    requires t in w.pcs && WellShaped(w) && ReceiveStep(w, t, c, w')
    ensures Adds(w, t, w')
  {
    hide Processed;
    match w.pcs[t]
    case Receive(Checked(m, at)) => ProcessedAdds(w, t, w', m, at);
    case _ =>
  }

  lemma ProcessedAdds(w: World, t: Tid, w': World, m: Msg, at: nat)
    requires t in w.pcs && WellShaped(w) && w.pcs[t].Receive? && Frame.IsValidPort(m.port)
    requires (m.cmd == CMD_ALL_STATUS || m.cmd == CMD_DRIVE_TELEMETRY) ==> w.sh.status.Some?
    requires w' == Processed(w, t, m, at)
    ensures Adds(w, t, w')
  {
    if |m.payload| == 8 {
      SignedRange(GetU32(m.payload[..4]));
      SignedRange(GetU32(m.payload[4..]));
    }
    hide Signed;
  }

  lemma ShutdownAdds(w: World, t: Tid, w': World)
    requires t in w.pcs && WellShaped(w) && ShutdownStep(w, t, w')
    ensures Adds(w, t, w')
  {
  }

  lemma InitAdds(w: World, t: Tid, c: InitChoice, w': World)
    requires t in w.pcs && WellShaped(w) && InitStep(w, t, c, w')
    ensures Adds(w, t, w')
  {
  }

  lemma StepAdds(w: World, t: Tid, a: Action, w': World)
    requires Step(w, t, a, w')
    ensures Adds(w, t, w')
  {
    match a
    case OfRequest(c) => RequestAdds(w, t, c, w');
    case OfNote(_) =>
    case OfReceive(c) => ReceiveAdds(w, t, c, w');
    case OfShutdown => ShutdownAdds(w, t, w');
    case OfInit(c) => InitAdds(w, t, c, w');
    case OfCount(_) =>
  }

  lemma {:induction false} RunTold(run: seq<World>, k: nat)
    requires IsRun(run) && k < |run|
    ensures AllTold(run[k])
    decreases k
  {
    hide AllTold, Step;
    if k == 0 {
      InitiallyTold(run[0]);
    } else {
      RunTold(run, k - 1);
      assert CanBecome(run[k - 1], run[k]);
      var t, a :| Step(run[k - 1], t, a, run[k]);
      StepAdds(run[k - 1], t, a, run[k]);
      AddsKeeps(run[k - 1], t, run[k]);
    }
  }

  lemma InitiallyTold(w: World)
    requires Initial(w)
    ensures AllTold(w)
  {
  }

  lemma ReachableTold(w: World)
    requires Reachable(w)
    ensures AllTold(w)
  {
    var run :| IsRun(run) && run[|run| - 1] == w;
    RunTold(run, |run| - 1);
  }

  // ----- what a request returns by itself -----

  /** A request that neither an ACK nor a cancellation ended returns an error: a timeout, unless it
      was refused because the link was down, its send failed, or its wait failed, and then that
      error. Without an answer it has used up its attempts: one in the old protocol, two in the new,
      unless the last could not be sent. */
  lemma UnansweredReturn(w: World, k: nat)
    requires Reachable(w) && k < |w.log| && w.log[k].RequestReturned? && w.log[k].how == ByItself
    ensures var e := w.log[k];
      && e.result < 0
      && (e.result != -ETIMEDOUT ==>
           || (e.result == -ENOTCONN && Refused in e.tries)
           || SendFailed(e.result) in e.tries || WaitFailed(e.result) in e.tries)
      && (!e.completed ==> UsedUp(e.tries, e.allowed))
      && |e.tries| <= e.allowed <= 2
  {
    ReachableTold(w);
    var e := w.log[k];
    assert EventTold(e);
    ResultIsNegative(e.tries);
    ResultCameFrom(e.tries);
  }

  lemma {:induction false} ResultCameFrom(tries: seq<Try>)
    ensures ResultOf(tries) == -ETIMEDOUT || (ResultOf(tries) == -ENOTCONN && Refused in tries)
      || SendFailed(ResultOf(tries)) in tries || WaitFailed(ResultOf(tries)) in tries
  {
    if tries != [] {
      var init := tries[..|tries| - 1];
      ResultCameFrom(init);
      assert tries == init + [tries[|tries| - 1]];
    }
  }

  /** request_timeouts counts the requests that returned a timeout by themselves since the counters
      were last cleared, no more and no fewer. */
  lemma TimeoutsAreCounted(w: World)
    requires Reachable(w)
    ensures w.stats.timeouts == TimeoutsAfter(w.log)
  {
    ReachableTold(w);
  }

  // ----- what an ACK carries -----

  /** The number a signed 32-bit field stores, as an unsigned one. */
  function Residue(n: int): u32
    requires Int32(n)
  {
    n % 0x1_0000_0000
  }

  /** The payload an ACK of this command and data has is read back as exactly these. */
  lemma AckPayloadReadsBack(m: Msg, cmd: int, data: int)
    requires Int32(cmd) && Int32(data) && m.payload == PutLE(Residue(cmd), 4) + PutLE(Residue(data), 4)
    ensures AckOf(m) == Ack(m.sequence, m.session, cmd, data)
  {
    hide PutLE, Residue;
    assert m.payload[..4] == PutU32(Residue(cmd)) && m.payload[4..] == PutU32(Residue(data));
    GetPutU32(Residue(cmd));
    GetPutU32(Residue(data));
    SignedResidue(cmd);
    SignedResidue(data);
  }

  lemma SignedResidue(n: int)
    requires Int32(n)
    ensures Signed(Residue(n)) == n
  {
    if n < 0 {
      assert n % 0x1_0000_0000 == n + 0x1_0000_0000;
    }
  }

  /** Every ACK that completed a request carried a command and a datum of 32 bits, the command not
      negative. */
  lemma MatchedAckInRange(w: World, k: nat)
    requires Reachable(w) && k < |w.log| && w.log[k].AckMatched?
    ensures 0 <= w.log[k].ack.cmd < 0x8000_0000
    ensures -0x8000_0000 <= w.log[k].ack.data < 0x8000_0000
  {
    ReachableTold(w);
    assert EventTold(w.log[k]);
  }

  /** An ACK whose command field has its top bit set completes nothing. */
  lemma NegativeAckMatchesNothing(s: Slot, v2: bool, session: u32, m: Msg)
    requires |m.payload| == 8 && m.payload[3] >= 128
    ensures !Matches(s, v2, session, AckOf(m))
  {
    var f := m.payload[..4];
    TopByte(f);
    PutGet(f);
    assert GetU32(f) == GetLE(f);
  }

  lemma TopByte(f: seq<byte>)
    requires |f| == 4 && f[3] >= 128
    ensures GetLE(f) >= 0x8000_0000
  {
    var a, b, c := f[1..], f[2..], f[3..];
    assert a[1..] == b && b[1..] == c && c[1..] == [];
    assert GetLE(c) == f[3];
    assert GetLE(b) == f[2] + 256 * GetLE(c);
    assert GetLE(a) == f[1] + 256 * GetLE(b);
  }
}
