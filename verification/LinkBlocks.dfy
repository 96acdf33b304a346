/** The mutex-protected blocks of the link as they stand in the program: slots, status and
    counters changed in place. */
module LinkBlocks {
  import opened Bytes
  import opened Errno
  import opened Status
  import opened Link
  import Frame

  /** The request part of a port's record. */
  class PortDevice {
    var pending: bool
    var pendingSequence: u32
    var ackSequence: u32
    var ackSession: u32
    var ackCmd: int
    var ackData: int

    constructor ()
      ensures Value() == CLEAR
    {
      pending, pendingSequence, ackSequence, ackSession, ackCmd, ackData := false, 0, 0, 0, 0, 0;
    }

    function Value(): Slot
      reads this
    {
      Slot(pending, pendingSequence, ackSequence, ackSession, ackCmd, ackData)
    }

    method Load(s: Slot)
      modifies this
      ensures Value() == s
    {
      pending, pendingSequence := s.pending, s.pendingSeq;
      ackSequence, ackSession, ackCmd, ackData := s.ackSeq, s.ackSession, s.ackCmd, s.ackData;
    }

    /** A request announces itself. */
    method Register(sequence: u32)
      modifies this
      ensures Value() == Registered(sequence)
    {
      pending := true;
      pendingSequence := sequence;
      ackSequence := 0;
      ackSession := 0;
      ackCmd := 0;
      ackData := 0;
    }

    /** One round of the reset loop. */
    method Reset(error: int, session: u32)
      modifies this
      ensures Value() == ResetSlot(old(Value()), error, session)
    {
      if pending {
        ackData := error;
        ackCmd := -1;
        ackSequence := pendingSequence;
        ackSession := session;
        pending := false;
      } else {
        pendingSequence := 0;
        ackSequence := 0;
        ackSession := 0;
        ackCmd := 0;
        ackData := 0;
      }
    }

    /** An ACK arrives. */
    method Acknowledge(a: Ack, v2: bool, session: u32) returns (matches: bool)
      modifies this
      ensures matches == Matches(old(Value()), v2, session, a)
      ensures Value() == if matches then Completed(old(Value()), a) else old(Value())
    {
      matches := pending && a.cmd >= 0 && (!v2 || (a.sequence == pendingSequence && a.session == session));
      if matches {
        ackCmd := a.cmd;
        ackData := a.data;
        ackSequence := a.sequence;
        ackSession := a.session;
        pending := false;
      }
    }

    /** The last block of a request: read the verdict, clear the pending flag. */
    method Conclude(completed: bool, cmd: byte, sequence: u32, v2: bool, session: u32, soFar: int)
        returns (result: int, timedOut: bool)
      modifies this
      ensures Value() == old(Value()).(pending := false)
      ensures var how := Verdict(old(Value()), v2, session, cmd, sequence, completed);
        && result == (if how.ByItself? then soFar else old(Value()).ackData)
        && timedOut == (how.ByItself? && soFar == -ETIMEDOUT)
    {
      result, timedOut := soFar, false;
      if completed && ackCmd == -1 {
        result := ackData;
      } else if completed && ackCmd == cmd && (!v2 || (ackSequence == sequence && ackSession == session)) {
        result := ackData;
      } else if result == -ETIMEDOUT {
        timedOut := true;
      }
      pending := false;
    }
  }

  /** What a received command can see and change. */
  datatype View = View(
    v2: bool, session: u32, slots: seq<Slot>, status: Option<StatusBytes>, telemetry: seq<byte>, stats: Stats)

  function AllReset(slots: seq<Slot>, error: int, session: u32): (r: seq<Slot>)
    ensures |r| == |slots| && forall i :: 0 <= i < |slots| ==> r[i] == ResetSlot(slots[i], error, session)
  {
    seq(|slots|, i requires 0 <= i < |slots| => ResetSlot(slots[i], error, session))
  }

  /** What an accepted HELLO leaves behind. */
  function SessionChanged(v: View, session: u32): View {
    v.(session := session, slots := AllReset(v.slots, -ESTALE, session), telemetry := Zeroed(RUNTIME_SIZE),
       status := if v.status.None? then None else Some(Zeroed(STATUS_SIZE)))
  }

  /** Commands that store into the status, which must exist. */
  predicate NeedsStatus(m: Msg) { m.cmd == CMD_ALL_STATUS || m.cmd == CMD_DRIVE_TELEMETRY }

  /** process_command: the new state and the result. */
  function Command(v: View, m: Msg): (View, int)
    requires |v.slots| == PORTS && (NeedsStatus(m) ==> v.status.Some?)
  {
    if m.cmd == CMD_LINK_HELLO then
      var session := HelloSession(m.payload);
      (if session == 0 || session == v.session then v else SessionChanged(v, session), 0)
    else if !Frame.IsValidPort(m.port) then
      (v.(stats := v.stats.(framingErrors := v.stats.framingErrors + 1)), -EINVAL)
    else if v.v2 && m.session != v.session then
      (v.(stats := v.stats.(sessionErrors := v.stats.sessionErrors + 1)), -ESTALE)
    else if m.cmd == CMD_ALL_STATUS then
      if |m.payload| != STATUS_SIZE then (v, -EMSGSIZE) else (v.(status := Some(m.payload)), 0)
    else if m.cmd == CMD_RUNTIME_TELEMETRY then
      if |m.payload| != RUNTIME_SIZE then (v, -EMSGSIZE) else (v.(telemetry := m.payload), 0)
    else if m.cmd == CMD_DRIVE_TELEMETRY then
      if |m.payload| != DRIVE_SIZE then (v, -EMSGSIZE)
      else (v.(status := Some(Overlay(v.status.value, m.payload))), 0)
    else if m.cmd == CMD_ACK then
      if |m.payload| != 8 then (v, -EMSGSIZE) else AckCommand(v, PortIndex(m.port), AckOf(m))
    else (v, if m.cmd == CMD_LINK_STATS then 0 else -ENOMSG)
  }

  function AckCommand(v: View, p: nat, a: Ack): (View, int)
    requires |v.slots| == PORTS && p < PORTS
  {
    if Matches(v.slots[p], v.v2, v.session, a) then (v.(slots := v.slots[p := Completed(v.slots[p], a)]), 0)
    else (v.(stats := v.stats.(staleAcks := v.stats.staleAcks + 1)), -ESTALE)
  }

  /** Whether a receive call counts its frame as received. */
  predicate IsReceived(result: int) { result == 0 || result == -ENOMSG || result == -ESTALE }

  function Counted(v: View, result: int): View {
    if IsReceived(result) then v.(stats := v.stats.(rx := v.stats.rx + 1)) else v
  }

  class LinkState {
    const ports: seq<PortDevice>
    var v2: bool
    var session: u32
    var status: array?<byte>
    var telemetry: seq<byte>
    var stats: Stats

    constructor (ports: seq<PortDevice>, status: array?<byte>, session: u32)
      requires |ports| == PORTS && forall i, j :: 0 <= i < j < PORTS ==> ports[i] != ports[j]
      requires status != null ==> status.Length == STATUS_SIZE
      ensures Valid() && this.ports == ports && this.status == status && this.session == session && v2
    {
      this.ports, this.status, this.session := ports, status, session;
      v2, telemetry, stats := true, Zeroed(RUNTIME_SIZE), NO_STATS;
    }

    ghost predicate Valid()
      reads this
    {
      && |ports| == PORTS
      && (forall i, j :: 0 <= i < j < PORTS ==> ports[i] != ports[j])
      && (status != null ==> status.Length == STATUS_SIZE)
    }

    ghost function Slots(): (r: seq<Slot>)
      reads this, ports
      ensures |r| == |ports| && forall i :: 0 <= i < |ports| ==> r[i] == ports[i].Value()
    {
      seq(|ports|, i requires 0 <= i < |ports| reads this, ports => ports[i].Value())
    }

    ghost function Abs(): View
      reads this, ports, status
      requires Valid()
    {
      View(v2, session, Slots(), if status == null then None else Some(status[..]), telemetry, stats)
    }

    method ResetPortState(error: int)
      requires Valid()
      modifies ports
      ensures Valid() && Slots() == AllReset(old(Slots()), error, session)
    {
      for i := 0 to PORTS
        invariant forall k :: 0 <= k < i ==> ports[k].Value() == ResetSlot(old(ports[k].Value()), error, session)
        invariant forall k :: i <= k < PORTS ==> ports[k].Value() == old(ports[k].Value())
      {
        ports[i].Reset(error, session);
      }
    }

    method ProcessHelloPayload(buf: seq<byte>)
      requires Valid()
      modifies this, ports, status
      ensures Valid() && status == old(status)
      ensures var s := HelloSession(buf);
        Abs() == if s == 0 || s == old(session) then old(Abs()) else SessionChanged(old(Abs()), s)
    {
      if |buf| != HELLO_PAYLOAD_SIZE || buf[0] != Frame.V2_VERSION {
        return;
      }
      var announced := GetU32(buf[4..8]);
      if announced == 0 || announced == session {
        return;
      }
      session := announced;
      ResetPortState(-ESTALE);
      if status != null {
        CopyInto(status, 0, Zeroed(STATUS_SIZE));
        assert status[..] == Zeroed(STATUS_SIZE);
      }
      telemetry := Zeroed(RUNTIME_SIZE);
    }

    method ProcessAck(m: Msg) returns (result: int)
      requires Valid() && Frame.IsValidPort(m.port) && |m.payload| == 8
      modifies this`stats, ports
      ensures Valid()
      ensures (Abs(), result) == AckCommand(old(Abs()), PortIndex(m.port), AckOf(m))
    {
      var p := PortIndex(m.port);
      var matches := ports[p].Acknowledge(AckOf(m), v2, session);
      if !matches {
        stats := stats.(staleAcks := stats.staleAcks + 1);
      }
      assert Slots() == old(Slots())[p := ports[p].Value()];
      assert !matches ==> Slots() == old(Slots());
      return if matches then 0 else -ESTALE;
    }

    method ProcessCommand(m: Msg) returns (result: int)
      requires Valid() && (NeedsStatus(m) ==> status != null)
      modifies this, ports, status
      ensures Valid() && status == old(status)
      ensures (Abs(), result) == Command(old(Abs()), m)
    {
      if m.cmd == CMD_LINK_HELLO {
        ProcessHelloPayload(m.payload);
        return 0;
      }
      if !Frame.IsValidPort(m.port) {
        stats := stats.(framingErrors := stats.framingErrors + 1);
        assert Slots() == old(Slots());
        return -EINVAL;
      }
      if v2 && m.session != session {
        stats := stats.(sessionErrors := stats.sessionErrors + 1);
        assert Slots() == old(Slots());
        return -ESTALE;
      }
      assert Slots() == old(Slots());
      match m.cmd
      case CMD_ALL_STATUS =>
        if |m.payload| != STATUS_SIZE { return -EMSGSIZE; }
        CopyInto(status, 0, m.payload);
        assert status[..] == m.payload && Slots() == old(Slots());
        return 0;
      case CMD_RUNTIME_TELEMETRY =>
        if |m.payload| != RUNTIME_SIZE { return -EMSGSIZE; }
        telemetry := m.payload;
        assert Slots() == old(Slots());
        return 0;
      case CMD_DRIVE_TELEMETRY =>
        if |m.payload| != DRIVE_SIZE { return -EMSGSIZE; }
        ApplyDriveTelemetry(status, m.payload);
        assert Slots() == old(Slots());
        return 0;
      case CMD_ACK =>
        if |m.payload| != 8 { return -EMSGSIZE; }
        result := ProcessAck(m);
      case CMD_LINK_STATS =>
        return 0;
      case _ =>
        return -ENOMSG;
    }

    /** Dispatch of one frame and the count of what was received. */
    method ReceiveCommand(m: Msg) returns (result: int)
      requires Valid() && (NeedsStatus(m) ==> status != null)
      modifies this, ports, status
      ensures Valid() && status == old(status)
      ensures result == Command(old(Abs()), m).1 && Abs() == Counted(Command(old(Abs()), m).0, result)
    {
      result := ProcessCommand(m);
      if result == 0 || result == -ENOMSG || result == -ESTALE {
        ghost var slots := Slots();
        stats := stats.(rx := stats.rx + 1);
        assert Slots() == slots;
      }
    }
  }
}
