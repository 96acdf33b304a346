/** Undisturbed, the steps a receive call takes over a dispatched frame add up to
    process_command as the program runs it from top to bottom. */
module LinkAlone {
  import opened Bytes
  import opened Errno
  import opened Status
  import opened Link
  import opened LinkBlocks
  import Frame

  function ViewOf(w: World): View {
    View(w.sh.v2, w.sh.session, w.slots, w.sh.status, w.sh.telemetry, w.stats)
  }

  ghost predicate Continues(t: Tid, w: World, w': World) {
    t in w.pcs && WellShaped(w) && ReceiveStep(w, t, Continue, w')
  }

  /** n steps of thread t, with nobody else in between. */
  ghost predicate Alone(n: nat, t: Tid, w: World, w': World) {
    if n == 0 then w == w' else exists m :: Continues(t, w, m) && Alone(n - 1, t, m, w')
  }

  lemma {:induction false} OneMore(n: nat, t: Tid, w: World, w': World, w'': World)
    requires Alone(n, t, w, w') && Continues(t, w', w'')
    ensures Alone(n + 1, t, w, w'')
  {
    if n == 0 {
      assert Alone(0, t, w'', w'');
    } else {
      var m :| Continues(t, w, m) && Alone(n - 1, t, m, w');
      OneMore(n - 1, t, m, w', w'');
    }
  }

  /** The first i slots reset. */
  function ResetBelow(slots: seq<Slot>, i: nat, session: u32): (r: seq<Slot>)
    ensures |r| == |slots|
    ensures forall k :: 0 <= k < |slots| ==> r[k] == if k < i then ResetSlot(slots[k], -ESTALE, session) else slots[k]
  {
    seq(|slots|, k requires 0 <= k < |slots| => if k < i then ResetSlot(slots[k], -ESTALE, session) else slots[k])
  }

  lemma ResetAlone(w: World, t: Tid, i: nat, since: nat) returns (w': World)
    requires WellShaped(w) && t in w.pcs && w.pcs[t] == Receive(ResetPorts(i, since)) && i < PORTS
    ensures Continues(t, w, w') && WellShaped(w') && t in w'.pcs
    ensures w'.pcs[t] == Receive(if i + 1 < PORTS then ResetPorts(i + 1, since) else ZeroStatus(since))
    ensures ViewOf(w') == ViewOf(w).(slots := w.slots[i := ResetSlot(w.slots[i], -ESTALE, w.sh.session)])
  {
    w' := At(ResetPort(w, i, -ESTALE), t, Receive(if i + 1 < PORTS then ResetPorts(i + 1, since) else ZeroStatus(since)));
  }

  lemma {:induction false} ResetsAlone(w: World, t: Tid, i: nat, since: nat) returns (w': World)
    requires WellShaped(w) && t in w.pcs && w.pcs[t] == Receive(ResetPorts(0, since)) && i < PORTS
    ensures Alone(i, t, w, w') && WellShaped(w') && t in w'.pcs && w'.pcs[t] == Receive(ResetPorts(i, since))
    ensures ViewOf(w') == ViewOf(w).(slots := ResetBelow(w.slots, i, w.sh.session))
  {
    if i == 0 {
      w' := w;
      assert ResetBelow(w.slots, 0, w.sh.session) == w.slots;
    } else {
      hide Continues, Alone, ResetSlot;
      var u := ResetsAlone(w, t, i - 1, since);
      w' := ResetAlone(u, t, i - 1, since);
      assert ResetBelow(w.slots, i, w.sh.session)
          == ResetBelow(w.slots, i - 1, w.sh.session)[i - 1 := ResetSlot(w.slots[i - 1], -ESTALE, w.sh.session)];
      OneMore(i - 1, t, w, u, w');
    }
  }

  /** The two steps that clear status and telemetry. */
  lemma ZeroAlone(w: World, t: Tid, since: nat) returns (zeroed: World, w': World)
    requires WellShaped(w) && t in w.pcs && w.pcs[t] == Receive(ZeroStatus(since))
    ensures Continues(t, w, zeroed) && Continues(t, zeroed, w')
    ensures WellShaped(w') && t in w'.pcs && w'.pcs[t] == Receive(Count(false))
    ensures ViewOf(w') == ViewOf(w).(telemetry := Zeroed(RUNTIME_SIZE),
                                     status := if w.sh.status.None? then None else Some(Zeroed(STATUS_SIZE)))
  {
    zeroed := At(if w.sh.status.None? then w
                 else Logged(w.(sh := w.sh.(status := Some(Zeroed(STATUS_SIZE)))), StatusZeroed),
                 t, Receive(ZeroTelemetry));
    w' := At(Logged(zeroed.(sh := zeroed.sh.(telemetry := Zeroed(RUNTIME_SIZE))), TelemetryZeroed), t, Receive(Count(false)));
  }

  lemma InstallAlone(w: World, t: Tid, session: u32) returns (w': World)
    requires WellShaped(w) && t in w.pcs && w.pcs[t] == Receive(Install(session))
    ensures Continues(t, w, w') && WellShaped(w') && t in w'.pcs
    ensures w'.pcs[t] == Receive(ResetPorts(0, |w.log| + 1)) && ViewOf(w') == ViewOf(w).(session := session)
  {
    w' := At(Logged(w.(sh := w.sh.(session := session)), SessionIs(session)), t, Receive(ResetPorts(0, |w.log| + 1)));
  }

  lemma HelloAlone(w: World, t: Tid, session: u32) returns (n: nat, w': World)
    requires WellShaped(w) && t in w.pcs && w.pcs[t] == Receive(Install(session))
    ensures Alone(n, t, w, w') && WellShaped(w') && t in w'.pcs && w'.pcs[t] == Receive(Count(false))
    ensures ViewOf(w') == SessionChanged(ViewOf(w), session)
  {
    hide Alone, Continues, ResetSlot;
    var since := |w.log| + 1;
    var installed := InstallAlone(w, t, session);
    var last := ResetsAlone(installed, t, PORTS - 1, since);
    var flushed := ResetAlone(last, t, PORTS - 1, since);
    assert flushed.slots == AllReset(w.slots, -ESTALE, session);
    var zeroed;
    zeroed, w' := ZeroAlone(flushed, t, since);
    OneMore(PORTS - 1, t, installed, last, flushed);
    OneMore(PORTS, t, installed, flushed, zeroed);
    OneMore(PORTS + 1, t, installed, zeroed, w');
    Before(PORTS + 2, t, w, installed, w');
    n := PORTS + 3;
  }

  lemma Before(n: nat, t: Tid, w: World, w': World, w'': World)
    requires Continues(t, w, w') && Alone(n, t, w', w'')
    ensures Alone(n + 1, t, w, w'')
  {
  }

  lemma CountAlone(w: World, t: Tid, owes: bool) returns (w': World)
    requires WellShaped(w) && t in w.pcs && w.pcs[t] == Receive(Count(owes))
    ensures Continues(t, w, w') && WellShaped(w') && t in w'.pcs && w'.pcs[t] == Receive(Leave)
    ensures ViewOf(w') == Counted(ViewOf(w), 0)
  {
    w' := At(w.(stats := w.stats.(rx := w.stats.rx + 1)), t, Receive(Leave));
  }

  lemma ProcessedAlone(w: World, t: Tid, m: Msg, at: nat) returns (w': World)
    requires WellShaped(w) && t in w.pcs && w.pcs[t] == Receive(Checked(m, at))
    requires Frame.IsValidPort(m.port) && (NeedsStatus(m) ==> w.sh.status.Some?) && m.cmd != CMD_LINK_HELLO
    requires w.sh.v2 ==> m.session == w.sh.session
    ensures Continues(t, w, w') && WellShaped(w') && t in w'.pcs
    ensures ViewOf(w') == Command(ViewOf(w), m).0
    ensures w'.pcs[t] == Receive(Leave) || (w'.pcs[t].Receive? && w'.pcs[t].r.Count?)
    ensures w'.pcs[t] == Receive(Leave) <==> !IsReceived(Command(ViewOf(w), m).1)
  {
    hide Overlay;
    w' := Processed(w, t, m, at);
  }

  /** After the head of process_command has let the frame pass. */
  lemma CheckedAlone(w: World, t: Tid, m: Msg, at: nat) returns (n: nat, w': World)
    requires WellShaped(w) && t in w.pcs && w.pcs[t] == Receive(Checked(m, at))
    requires Frame.IsValidPort(m.port) && (NeedsStatus(m) ==> w.sh.status.Some?) && m.cmd != CMD_LINK_HELLO
    requires w.sh.v2 ==> m.session == w.sh.session
    ensures Alone(n, t, w, w') && WellShaped(w') && t in w'.pcs && w'.pcs[t] == Receive(Leave)
    ensures ViewOf(w') == Counted(Command(ViewOf(w), m).0, Command(ViewOf(w), m).1)
  {
    hide Alone, Continues, Processed, Command, ReceiveStep;
    var done := ProcessedAlone(w, t, m, at);
    NoSteps(t, done);
    if done.pcs[t] == Receive(Leave) {
      n, w' := 1, done;
      Before(0, t, w, done, w');
    } else {
      w' := CountAlone(done, t, done.pcs[t].r.owes);
      OneMore(0, t, done, done, w');
      Before(1, t, w, done, w');
      n := 2;
    }
  }

  lemma NoSteps(t: Tid, w: World)
    ensures Alone(0, t, w, w)
  {
  }

  /** Run without interference from the moment a frame is dispatched, a receive call reaches its
      exit with exactly the state that the sequential process_command and the count after it give. */
  lemma CommandIsItsSteps(w: World, t: Tid, m: Msg) returns (n: nat, w': World)
    requires WellShaped(w) && t in w.pcs && w.pcs[t] == Receive(Dispatch(m))
    requires NeedsStatus(m) ==> w.sh.status.Some?
    ensures Alone(n, t, w, w') && t in w'.pcs && w'.pcs[t] == Receive(Leave)
    ensures ViewOf(w') == Counted(Command(ViewOf(w), m).0, Command(ViewOf(w), m).1)
  {
    hide Alone;
    var d := Dispatched(w, t, m);
    assert Continues(t, w, d);
    NoSteps(t, d);
    if d.pcs[t].r.Install? {
      var k, u := HelloAlone(d, t, d.pcs[t].r.session);
      w' := CountAlone(u, t, false);
      OneMore(k, t, d, u, w');
      n := k + 2;
      Before(k + 1, t, w, d, w');
    } else if d.pcs[t].r.Count? {
      w' := CountAlone(d, t, d.pcs[t].r.owes);
      OneMore(0, t, d, d, w');
      n := 2;
      Before(1, t, w, d, w');
    } else if d.pcs[t].r.Stale? {
      var s := At(d.(stats := d.stats.(sessionErrors := d.stats.sessionErrors + 1)), t, Receive(Count(true)));
      assert Continues(t, d, s);
      w' := CountAlone(s, t, true);
      OneMore(0, t, d, d, s);
      OneMore(1, t, d, s, w');
      n := 3;
      Before(2, t, w, d, w');
    } else if d.pcs[t].r.Checked? {
      var k;
      k, w' := CheckedAlone(d, t, m, d.pcs[t].r.at);
      n := k + 1;
      Before(k, t, w, d, w');
    } else {
      n, w' := 1, d;
      Before(0, t, w, d, w');
    }
  }
}
