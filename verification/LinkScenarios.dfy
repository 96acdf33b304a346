/** Runs that show where two promises stop: two receive calls at once, and command zero. */
module LinkScenarios {
  import opened Bytes
  import opened Errno
  import opened Status
  import opened Link
  import opened LinkHistory
  import opened LinkTheorems
  import Frame

  const QUIET: seq<Slot> := [CLEAR, CLEAR, CLEAR, CLEAR, CLEAR, CLEAR, CLEAR]
  const FREE: seq<Option<Tid>> := [None, None, None, None, None, None, None]
  const FD := 3
  const OLD_SESSION: u32 := 5
  const NEW_SESSION: u32 := 6

  lemma Begin(cap: nat) returns (w: World)
    ensures Reachable(w) && w.cap == cap
    ensures w.pcs == map[0 := Idle, 1 := Idle] && w.log == [] && w.issued == [] && w.closed == {}
    ensures w.sh == FreshShared() && w.slots == QUIET && w.stats == NO_STATS && w.locks == Locks(None, None, FREE)
    ensures |w.regAt| == |w.doneAt| == PORTS
  {
    w := World(FreshShared(), QUIET, NO_STATS, Locks(None, None, FREE), map[0 := Idle, 1 := Idle],
               [], [0, 0, 0, 0, 0, 0, 0], [0, 0, 0, 0, 0, 0, 0], [], {}, cap);
    assert seq(PORTS, _ => CLEAR) == QUIET;
    assert FREE == seq(PORTS, _ => None);
    assert IsRun([w]);
    assert [w][|[w]| - 1] == w;
  }

  /** A reset loop over quiet slots changes nothing but the thread's place. */
  lemma {:induction false} InitResets(w: World, t: Tid, i: nat)
    requires Reachable(w) && WellShaped(w) && t in w.pcs && w.slots == QUIET && i < PORTS
    requires w.pcs[t] == Init(ClearPorts(i))
    ensures Reachable(At(w, t, Init(Shake)))
    decreases PORTS - i
  {
    hide Reachable;
    var w' := At(w, t, Init(if i + 1 < PORTS then ClearPorts(i + 1) else Shake));
    assert w.slots[i := CLEAR] == w.slots;
    ExtendReachable(w, t, OfInit(Next), w');
    if i + 1 < PORTS {
      InitResets(w', t, i + 1);
      assert At(w', t, Init(Shake)) == At(w, t, Init(Shake));
    }
  }

  lemma {:induction false} HelloResets(w: World, t: Tid, i: nat, since: nat)
    requires Reachable(w) && WellShaped(w) && t in w.pcs && w.slots == QUIET && i < PORTS
    requires w.pcs[t] == Receive(ResetPorts(i, since))
    ensures Reachable(At(w, t, Receive(ZeroStatus(since))))
    decreases PORTS - i
  {
    hide Reachable;
    var w' := At(w, t, Receive(if i + 1 < PORTS then ResetPorts(i + 1, since) else ZeroStatus(since)));
    assert w.slots[i := CLEAR] == w.slots;
    ExtendReachable(w, t, OfReceive(Continue), w');
    if i + 1 < PORTS {
      HelloResets(w', t, i + 1, since);
      assert At(w', t, Receive(ZeroStatus(since))) == At(w, t, Receive(ZeroStatus(since)));
    }
  }

  /** A link brought up by thread 0 in the old session, with both threads idle. */
  ghost predicate Up(w: World, cap: nat) {
    && Reachable(w) && WellShaped(w) && w.cap == cap && w.pcs == map[0 := Idle, 1 := Idle]
    && w.sh == Shared(Some(FD), false, true, true, OLD_SESSION, 0, 1, Some(Zeroed(STATUS_SIZE)), Zeroed(RUNTIME_SIZE))
    && w.slots == QUIET && w.locks == Locks(None, None, FREE)
    && w.closed == {} && w.issued == []
    && w.log == [SessionIs(0), CountersCleared, StatusZeroed, SessionIs(OLD_SESSION)]
  }

  lemma OpenDescriptor(cap: nat) returns (w: World)
    ensures Reachable(w) && WellShaped(w) && w.cap == cap && w.pcs == map[0 := Init(AllocStatus), 1 := Idle]
    ensures w.sh == FreshShared().(desc := Some(FD))
    ensures w.slots == QUIET && w.locks == Locks(None, None, FREE) && w.closed == {} && w.issued == []
    ensures w.log == [SessionIs(0), CountersCleared]
  {
    hide Reachable;
    var w0 := Begin(cap);
    var w1 := At(Logged(w0.(sh := w0.sh.(desc := Some(FD))), SessionIs(0)), 0, Init(ClearStats));
    ExtendReachable(w0, 0, OfInit(Open(FD)), w1);
    w := At(Logged(w1, CountersCleared), 0, Init(AllocStatus));
    ExtendReachable(w1, 0, OfInit(Next), w);
  }

  lemma AllocateAndReset(w: World) returns (w'': World)
    requires Reachable(w) && WellShaped(w) && w.pcs == map[0 := Init(AllocStatus), 1 := Idle] && w.slots == QUIET
    ensures Reachable(w'') && w''.pcs == map[0 := Init(Shake), 1 := Idle]
    ensures w'' == w.(sh := w.sh.(status := Some(Zeroed(STATUS_SIZE))), log := w.log + [StatusZeroed], pcs := w''.pcs)
  {
    hide Reachable;
    var w' := At(Logged(w.(sh := w.sh.(status := Some(Zeroed(STATUS_SIZE)))), StatusZeroed), 0, Init(ClearPorts(0)));
    ExtendReachable(w, 0, OfInit(Next), w');
    InitResets(w', 0, 0);
    w'' := At(w', 0, Init(Shake));
  }

  lemma BringUp(cap: nat) returns (w: World)
    ensures Up(w, cap)
  {
    hide Reachable;
    var w1 := OpenDescriptor(cap);
    var w2 := AllocateAndReset(w1);
    w := ShakeHands(w2);
  }

  lemma ShakeHands(w: World) returns (w'': World)
    requires Reachable(w) && WellShaped(w) && w.pcs == map[0 := Init(Shake), 1 := Idle]
    ensures Reachable(w'') && w''.pcs == map[0 := Idle, 1 := Idle]
    ensures w'' == w.(sh := w.sh.(session := OLD_SESSION, v2 := true, handshake := true),
                      log := w.log + [SessionIs(OLD_SESSION)], pcs := w''.pcs)
  {
    hide Reachable;
    var w' := At(Logged(w.(sh := w.sh.(session := OLD_SESSION, v2 := true)), SessionIs(OLD_SESSION)), 0, Init(MarkReady));
    ExtendReachable(w, 0, OfInit(HelloAccepted(OLD_SESSION)), w');
    w'' := At(w'.(sh := w'.sh.(handshake := true)), 0, Idle);
    ExtendReachable(w', 0, OfInit(Next), w'');
  }

  /** One thread enters a receive call and reads a v2 frame. */
  lemma ReadFrame(w: World, t: Tid, f: Frame.Frame) returns (w': World)
    requires Reachable(w) && WellShaped(w) && t in w.pcs && w.pcs[t].Idle? && w.locks.lifecycle.None?
    requires !w.sh.stop && w.sh.desc.Some? && w.sh.handshake && w.sh.active < w.cap
    ensures Reachable(w')
    ensures w' == w.(sh := w.sh.(active := w.sh.active + 1),
                     pcs := w.pcs[t := Receive(Dispatch(Msg(true, f.cmd, f.port, f.sequence, f.session, f.payload)))])
  {
    hide Reachable;
    var entered := At(w.(sh := w.sh.(active := w.sh.active + 1)), t, Receive(Read));
    ExtendReachable(w, t, OfReceive(Enter), entered);
    w' := At(entered, t, Receive(Dispatch(Msg(true, f.cmd, f.port, f.sequence, f.session, f.payload))));
    ExtendReachable(entered, t, OfReceive(Frame2(f)), w');
    assert w.pcs[t := Receive(Read)][t := w'.pcs[t]] == w.pcs[t := w'.pcs[t]];
  }

  function Hello(session: u32): Frame.Frame {
    Frame.Frame(0, CMD_LINK_HELLO, Frame.PORT_NONE, 0, session, [2, 0, 0, 0] + PutU32(session) + [0, 0, 0, 0])
  }

  lemma HelloNames(session: u32)
    ensures HelloSession(Hello(session).payload) == session
  {
    assert Hello(session).payload[4..8] == PutU32(session);
    GetPutU32(session);
  }

  /** Thread 1 processes a HELLO up to its last step. */
  lemma ChangeSession(w: World) returns (w': World)
    requires Reachable(w) && WellShaped(w) && 1 in w.pcs && w.slots == QUIET && w.sh.status.Some?
    requires w.pcs[1] == Receive(Install(NEW_SESSION))
    ensures Reachable(w')
    ensures w' == w.(sh := w.sh.(session := NEW_SESSION, status := Some(Zeroed(STATUS_SIZE))),
                     log := w.log + [SessionIs(NEW_SESSION)] + [StatusZeroed],
                     pcs := w.pcs[1 := Receive(ZeroTelemetry)])
  {
    hide Reachable;
    var since := |w.log| + 1;
    var installed := At(Logged(w.(sh := w.sh.(session := NEW_SESSION)), SessionIs(NEW_SESSION)), 1, Receive(ResetPorts(0, since)));
    ExtendReachable(w, 1, OfReceive(Continue), installed);
    HelloResets(installed, 1, 0, since);
    var flushed := At(installed, 1, Receive(ZeroStatus(since)));
    w' := At(Logged(flushed.(sh := flushed.sh.(status := Some(Zeroed(STATUS_SIZE)))), StatusZeroed), 1, Receive(ZeroTelemetry));
    ExtendReachable(flushed, 1, OfReceive(Continue), w');
    assert w'.pcs == w.pcs[1 := Receive(ZeroTelemetry)];
  }

  /** With two receive calls at once, a status frame of the old session that has passed its
      check can still replace the status after a HELLO has changed session and wiped it. */
  lemma TwoReceiversBreakIsolation(cap: nat) returns (w: World, j: nat)
    requires cap >= 2
    ensures Reachable(w) && w.cap == cap && j < |w.log| && w.log[j].StatusReplaced? && w.log[j].from.v2
    ensures w.log[j].from.session != SessionAfter(w.log[..j])
  {
    hide Reachable;
    var up := BringUp(cap);
    var bytes: StatusBytes := Zeroed(STATUS_SIZE);
    var late := Frame.Frame(0, CMD_ALL_STATUS, 0, 0, OLD_SESSION, bytes);
    var read0 := ReadFrame(up, 0, late);
    var passed := PassCheck(read0, 0, read0.pcs[0].r.m);
    var changed := OverlappingHello(passed);
    var from := Source(true, OLD_SESSION, |read0.log|);
    w := At(Logged(changed.(sh := changed.sh.(status := Some(bytes))), StatusReplaced(from, bytes)), 0, Receive(Count(false)));
    ExtendReachable(changed, 0, OfReceive(Continue), w);
    j := |changed.log|;
    assert w.log[..j] == passed.log + [SessionIs(NEW_SESSION)] + [StatusZeroed];
    SummariesAppend(passed.log, SessionIs(NEW_SESSION));
    SummariesAppend(passed.log + [SessionIs(NEW_SESSION)], StatusZeroed);
  }

  lemma AcceptHello(w: World, t: Tid, m: Msg) returns (w': World)
    requires Reachable(w) && WellShaped(w) && t in w.pcs && w.pcs[t] == Receive(Dispatch(m))
    requires m.cmd == CMD_LINK_HELLO && m.payload == Hello(NEW_SESSION).payload && w.sh.session == OLD_SESSION
    ensures w' == At(w, t, Receive(Install(NEW_SESSION))) && Reachable(w')
  {
    hide Reachable;
    HelloNames(NEW_SESSION);
    w' := At(w, t, Receive(Install(NEW_SESSION)));
    ExtendReachable(w, t, OfReceive(Continue), w');
  }

  lemma OverlappingHello(passed: World) returns (changed: World)
    requires Reachable(passed) && WellShaped(passed) && 1 in passed.pcs && passed.pcs[1].Idle?
    requires passed.locks.lifecycle.None? && passed.slots == QUIET && passed.sh.status.Some?
    requires !passed.sh.stop && passed.sh.desc.Some? && passed.sh.handshake && passed.sh.active < passed.cap
    requires passed.sh.session == OLD_SESSION
    ensures Reachable(changed) && WellShaped(changed) && changed.cap == passed.cap
    ensures changed.sh.status.Some? && changed.pcs == passed.pcs[1 := Receive(ZeroTelemetry)]
    ensures changed.log == passed.log + [SessionIs(NEW_SESSION)] + [StatusZeroed]
  {
    hide Reachable;
    var read1 := ReadFrame(passed, 1, Hello(NEW_SESSION));
    var accepted := AcceptHello(read1, 1, read1.pcs[1].r.m);
    changed := ChangeSession(accepted);
    assert changed.pcs == passed.pcs[1 := Receive(ZeroTelemetry)];
  }

  // ----- command zero -----

  /** Thread 0 takes a number for a request with command zero on port zero. */
  lemma NumberZero(w0: World) returns (w: World)
    requires Reachable(w0) && WellShaped(w0) && w0.pcs == map[0 := Idle, 1 := Idle]
    requires w0.locks == Locks(None, None, FREE) && w0.sh.nextSeq == 1 && w0.issued == []
    ensures Reachable(w) && w.pcs == map[0 := Request(Register(0, 0, 1)), 1 := Idle]
    ensures w == w0.(sh := w0.sh.(nextSeq := 2), issued := [1], locks := Locks(None, None, FREE[0 := Some(0)]), pcs := w.pcs)
  {
    hide Reachable;
    var w1 := At(w0.(locks := Locks(None, None, FREE[0 := Some(0)])), 0, Request(Number(0, 0)));
    ExtendReachable(w0, 0, OfRequest(Start(0, 0)), w1);
    w := At(Numbered(w1), 0, Request(Register(0, 0, 1)));
    ExtendReachable(w1, 0, OfRequest(Proceed), w);
  }

  lemma RegisterZero(w0: World) returns (w: World)
    requires Reachable(w0) && WellShaped(w0) && w0.sh.v2 && w0.slots == QUIET
    requires w0.pcs == map[0 := Request(Register(0, 0, 1)), 1 := Idle]
    ensures Reachable(w) && WellShaped(w)
    ensures w.pcs == map[0 := Request(Running(Allowed(NewJob(0, 0, 1), 2), Check)), 1 := Idle]
    ensures w.sh == w0.sh && w.closed == w0.closed && w.locks == w0.locks && w.cap == w0.cap
    ensures w.slots == QUIET[0 := Registered(1)]
    ensures w.log == w0.log + [RequestRegistered(0, 0, 0, 1)]
  {
    hide Reachable;
    var w1 := At(Logged(WithSlot(w0, 0, Registered(1)), RequestRegistered(0, 0, 0, 1)).(regAt := w0.regAt[0 := |w0.log|]),
                 0, Request(Running(NewJob(0, 0, 1), Attempts)));
    ExtendReachable(w0, 0, OfRequest(Proceed), w1);
    w := JobAt(w1, 0, Allowed(NewJob(0, 0, 1), 2), Check);
    ExtendReachable(w1, 0, OfRequest(Proceed), w);
  }

  lemma SendZero(w0: World) returns (w: World)
    requires Reachable(w0) && WellShaped(w0)
    requires w0.pcs == map[0 := Request(Running(Allowed(NewJob(0, 0, 1), 2), Check)), 1 := Idle]
    requires w0.slots[0].pending && w0.locks.send.None? && w0.sh.desc == Some(FD) && !w0.sh.stop
    ensures Reachable(w)
    ensures w == w0.(pcs := map[0 := Request(Running(Allowed(NewJob(0, 0, 1), 2), Wait)), 1 := Idle],
                     stats := w0.stats.(tx := w0.stats.tx + 1))
  {
    hide Reachable;
    var j := Allowed(NewJob(0, 0, 1), 2);
    var w1 := JobAt(w0, 0, j, Lock);
    ExtendReachable(w0, 0, OfRequest(Proceed), w1);
    var w2 := JobAt(w1.(locks := w1.locks.(send := Some(0))), 0, j, Sending(FD));
    ExtendReachable(w1, 0, OfRequest(Proceed), w2);
    w := JobAt(w2.(locks := w2.locks.(send := None), stats := w2.stats.(tx := w2.stats.tx + 1)), 0, j, Wait);
    ExtendReachable(w2, 0, OfRequest(Sent(16)), w);
    assert w.locks == w0.locks;
    assert w.pcs == map[0 := Request(Running(j, Wait)), 1 := Idle];
  }

  predicate Answers(f: Frame.Frame) {
    && f.cmd == CMD_ACK && f.port == 0 && f.sequence == 1 && f.session == OLD_SESSION && |f.payload| == 8
    && Signed(GetU32(f.payload[..4])) == 0 && Signed(GetU32(f.payload[4..])) == 7
  }

  lemma SomeAnswer() returns (f: Frame.Frame)
    ensures Answers(f)
  {
    f := Frame.Frame(0, CMD_ACK, 0, 1, OLD_SESSION, PutU32(0) + PutU32(7));
    assert f.payload[..4] == PutU32(0) && f.payload[4..] == PutU32(7);
    GetPutU32(0);
    GetPutU32(7);
  }

  const ANSWERED := Slot(false, 1, 1, OLD_SESSION, 0, 7)

  /** A v2 frame of the current session passes its check. */
  lemma PassCheck(w: World, t: Tid, m: Msg) returns (w': World)
    requires Reachable(w) && WellShaped(w) && t in w.pcs && w.pcs[t] == Receive(Dispatch(m))
    requires m.cmd != CMD_LINK_HELLO && Frame.IsValidPort(m.port) && m.session == w.sh.session
    ensures Reachable(w') && w' == At(w, t, Receive(Checked(m, |w.log|)))
  {
    hide Reachable;
    w' := At(w, t, Receive(Checked(m, |w.log|)));
    ExtendReachable(w, t, OfReceive(Continue), w');
  }

  lemma ProcessAck(w: World, t: Tid, m: Msg, at: nat) returns (w': World)
    requires Reachable(w) && WellShaped(w) && t in w.pcs && w.pcs[t] == Receive(Checked(m, at))
    requires m.cmd == CMD_ACK && Frame.IsValidPort(m.port) && |m.payload| == 8
    requires Matches(w.slots[PortIndex(m.port)], w.sh.v2, w.sh.session, AckOf(m))
    ensures Reachable(w') && WellShaped(w') && w'.pcs == w.pcs[t := Receive(Count(false))]
    ensures w'.sh == w.sh && w'.locks == w.locks && w'.closed == w.closed && w'.cap == w.cap
    ensures var p := PortIndex(m.port);
      w'.slots == w.slots[p := Completed(w.slots[p], AckOf(m))] && w'.log == w.log + [AckMatched(p, AckOf(m))]
  {
    hide Reachable;
    w' := Acknowledged(w, t, PortIndex(m.port), AckOf(m));
    ExtendReachable(w, t, OfReceive(Continue), w');
  }

  /** Thread 1 receives the answer, whose data is 7, and leaves. */
  lemma AnswerZero(w0: World, f: Frame.Frame) returns (w: World)
    requires Answers(f)
    requires Reachable(w0) && WellShaped(w0) && 1 in w0.pcs && w0.pcs[1].Idle? && w0.locks.lifecycle.None?
    requires !w0.sh.stop && w0.sh.desc.Some? && w0.sh.handshake && w0.sh.active == 0 && w0.cap == 1
    requires w0.slots == QUIET[0 := Registered(1)] && w0.sh.session == OLD_SESSION && w0.sh.v2
    ensures Reachable(w) && WellShaped(w) && w.pcs == w0.pcs && w.sh == w0.sh && w.locks == w0.locks
    ensures w.slots == QUIET[0 := ANSWERED] && w.closed == w0.closed
    ensures w.log == w0.log + [AckMatched(0, Ack(1, OLD_SESSION, 0, 7))]
  {
    hide Reachable;
    var w1 := ReadFrame(w0, 1, f);
    var m := w1.pcs[1].r.m;
    var w2 := PassCheck(w1, 1, m);
    var w3 := ProcessAck(w2, 1, m, |w1.log|);
    w := LeaveCall(w3, 1);
    assert w.pcs == w0.pcs;
  }

  lemma LeaveCall(w0: World, t: Tid) returns (w: World)
    requires Reachable(w0) && WellShaped(w0) && t in w0.pcs && w0.pcs[t] == Receive(Count(false))
    requires w0.locks.lifecycle.None? && w0.sh.active > 0
    ensures Reachable(w)
    ensures w == w0.(stats := w0.stats.(rx := w0.stats.rx + 1), sh := w0.sh.(active := w0.sh.active - 1),
                     pcs := w0.pcs[t := Idle])
  {
    hide Reachable;
    var w1 := At(w0.(stats := w0.stats.(rx := w0.stats.rx + 1)), t, Receive(Leave));
    ExtendReachable(w0, t, OfReceive(Continue), w1);
    w := At(w1.(sh := w1.sh.(active := w1.sh.active - 1)), t, Idle);
    ExtendReachable(w1, t, OfReceive(Continue), w);
    assert w.pcs == w0.pcs[t := Idle];
  }

  /** Thread 1 shuts the link down as far as the port resets. */
  lemma DetachLink(w0: World) returns (w: World)
    requires Reachable(w0) && WellShaped(w0) && 1 in w0.pcs && w0.pcs[1].Idle?
    requires forall u :: u in w0.pcs ==> !w0.pcs[u].Init?
    requires w0.locks.lifecycle.None? && w0.locks.send.None? && w0.sh.active == 0
    ensures Reachable(w)
    ensures w == w0.(sh := w0.sh.(stop := true, desc := None), locks := w0.locks.(send := Some(1)),
                     pcs := w0.pcs[1 := Shutdown(CancelPorts(0, w0.sh.desc, |w0.log|))])
  {
    hide Reachable;
    var w1 := At(w0.(sh := w0.sh.(stop := true)), 1, Shutdown(WaitReceivers));
    ExtendReachable(w0, 1, OfShutdown, w1);
    var w2 := At(w1.(locks := w1.locks.(lifecycle := Some(1))), 1, Shutdown(Detach));
    ExtendReachable(w1, 1, OfShutdown, w2);
    w := At(w2.(sh := w2.sh.(desc := None), locks := w2.locks.(send := Some(1), lifecycle := None)), 1,
            Shutdown(CancelPorts(0, w2.sh.desc, |w2.log|)));
    ExtendReachable(w2, 1, OfShutdown, w);
    assert w.pcs == w0.pcs[1 := Shutdown(CancelPorts(0, w0.sh.desc, |w0.log|))];
  }

  lemma {:induction false} ShutdownResets(w0: World, i: nat, closing: Option<nat>, since: nat) returns (w: World)
    requires Reachable(w0) && WellShaped(w0) && 1 in w0.pcs && i < PORTS
    requires w0.pcs[1] == Shutdown(CancelPorts(i, closing, since))
    requires forall p :: 0 <= p < PORTS ==> !w0.slots[p].pending
    ensures Reachable(w) && WellShaped(w) && w.pcs == w0.pcs[1 := Shutdown(Close(closing, since))]
    ensures w.sh == w0.sh && w.locks == w0.locks && w.log == w0.log
    ensures forall p :: i <= p < PORTS ==> w.slots[p] == CLEAR
    ensures forall p :: 0 <= p < i ==> w.slots[p] == w0.slots[p]
    decreases PORTS - i
  {
    hide Reachable;
    var w1 := At(ResetPort(w0, i, -ENOTCONN), 1,
                 Shutdown(if i + 1 < PORTS then CancelPorts(i + 1, closing, since) else Close(closing, since)));
    ExtendReachable(w0, 1, OfShutdown, w1);
    w := w1;
    if i + 1 < PORTS {
      w := ShutdownResets(w1, i + 1, closing, since);
      assert w.pcs == w0.pcs[1 := Shutdown(Close(closing, since))];
    }
  }

  lemma WindDown(w0: World, since: nat) returns (w: World)
    requires Reachable(w0) && WellShaped(w0) && 1 in w0.pcs && w0.pcs[1] == Shutdown(Close(Some(FD), since))
    ensures Reachable(w) && WellShaped(w) && !w.sh.v2 && w.pcs == w0.pcs[1 := Shutdown(ClearSession)]
    ensures w.slots == w0.slots && w.log == w0.log + [DescriptorClosed(FD)]
  {
    hide Reachable;
    var w1 := At(Logged(w0, DescriptorClosed(FD)).(closed := w0.closed + {FD}), 1, Shutdown(UnlockSend));
    ExtendReachable(w0, 1, OfShutdown, w1);
    var w2 := At(w1.(locks := w1.locks.(send := None)), 1, Shutdown(FreeStatus));
    ExtendReachable(w1, 1, OfShutdown, w2);
    var w3 := At(w2.(sh := w2.sh.(status := None)), 1, Shutdown(ClearHandshake));
    ExtendReachable(w2, 1, OfShutdown, w3);
    var w4 := At(w3.(sh := w3.sh.(handshake := false)), 1, Shutdown(ClearV2));
    ExtendReachable(w3, 1, OfShutdown, w4);
    w := At(w4.(sh := w4.sh.(v2 := false)), 1, Shutdown(ClearSession));
    ExtendReachable(w4, 1, OfShutdown, w);
    assert w.pcs == w0.pcs[1 := Shutdown(ClearSession)];
  }

  /** Thread 0 wakes up after the shutdown and returns the cleared slot as its answer. */
  lemma WakeLate(w0: World) returns (w: World)
    requires Reachable(w0) && WellShaped(w0) && 0 in w0.pcs && !w0.sh.v2 && w0.slots[0] == CLEAR
    requires w0.pcs[0] == Request(Running(Allowed(NewJob(0, 0, 1), 2), Wait))
    ensures Reachable(w) && w.log == w0.log + [RequestReturned(0, 0, 0, 1, ByAck, false, 0, true, [], 2)]
  {
    hide Reachable;
    var j := Allowed(NewJob(0, 0, 1), 2);
    var w1 := JobAt(w0, 0, j, Conclude(true));
    ExtendReachable(w0, 0, OfRequest(Proceed), w1);
    w := At(Logged(WithSlot(w1, 0, CLEAR), RequestReturned(0, 0, 0, 1, ByAck, false, 0, true, [], 2)), 0, Request(Release(0)));
    ExtendReachable(w1, 0, OfRequest(Proceed), w);
  }

  /** The request is answered, and the link shut down before its thread wakes up. */
  lemma AnsweredThenDown(up: World) returns (w: World)
    requires Up(up, 1)
    ensures Reachable(w) && WellShaped(w) && 0 in w.pcs && !w.sh.v2 && w.slots[0] == CLEAR
    ensures w.pcs[0] == Request(Running(Allowed(NewJob(0, 0, 1), 2), Wait))
    ensures w.log == up.log + [RequestRegistered(0, 0, 0, 1)] + [AckMatched(0, Ack(1, OLD_SESSION, 0, 7))] + [DescriptorClosed(FD)]
  {
    hide Reachable;
    var asked := AskedAndSent(up);
    var f := SomeAnswer();
    var answered := AnswerZero(asked, f);
    var detached := DetachLink(answered);
    var canceled := ShutdownResets(detached, 0, Some(FD), |answered.log|);
    w := WindDown(canceled, |answered.log|);
  }

  lemma AskedAndSent(up: World) returns (w: World)
    requires Up(up, 1)
    ensures Reachable(w) && WellShaped(w) && w.cap == 1 && w.closed == {}
    ensures w.pcs == map[0 := Request(Running(Allowed(NewJob(0, 0, 1), 2), Wait)), 1 := Idle]
    ensures w.sh == up.sh.(nextSeq := 2) && w.locks == Locks(None, None, FREE[0 := Some(0)])
    ensures w.slots == QUIET[0 := Registered(1)] && w.log == up.log + [RequestRegistered(0, 0, 0, 1)]
  {
    hide Reachable;
    var numbered := NumberZero(up);
    var asked := RegisterZero(numbered);
    w := SendZero(asked);
  }

  /** Command zero alone can return through the ACK branch with data no ACK carried: the answer
      said 7, a shutdown cleared the slot and left v2 mode, and the request returns 0. */
  lemma CommandZeroReturnsUnanswered() returns (w: World, j: nat)
    ensures Reachable(w) && j < |w.log|
    ensures w.log[j] == RequestReturned(0, 0, 0, 1, ByAck, false, 0, true, [], 2)
    ensures forall i: nat, k: nat :: !Answered(w.log[..j], i, k, 0, 0, 0, 1, 0)
  {
    hide Reachable;
    var up := BringUp(1);
    var down := AnsweredThenDown(up);
    w := WakeLate(down);
    j := |down.log|;
    assert w.log[..j] == down.log;
    assert forall k :: 0 <= k < j && down.log[k].AckMatched? ==> down.log[k].ack.data == 7;
  }
}
