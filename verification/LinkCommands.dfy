/** What a received command may change, what it is refused for, and what it means when it is not. */
module LinkCommands {
  import opened Bytes
  import opened Errno
  import opened Status
  import opened Link
  import opened LinkBlocks
  import Frame

  /** Sent to a device port or to the hub. */
  predicate HasPort(m: Msg) { m.port <= 5 || m.port == 255 }

  /** In the new protocol, sent in the session of the moment. */
  predicate InSession(v: View, m: Msg) { v.v2 ==> m.session == v.session }

  /** Every refusal has one cause and one trace: a counter, or nothing at all. */
  lemma RefusalLeavesOneTrace(v: View, m: Msg)
    requires |v.slots| == PORTS && (NeedsStatus(m) ==> v.status.Some?)
    ensures var (v', r) := Command(v, m);
      && r in {0, -EINVAL, -ESTALE, -EMSGSIZE, -ENOMSG}
      && (r == -EINVAL <==> m.cmd != 0x08 && !HasPort(m))
      && (r == -EINVAL ==> v' == v.(stats := v.stats.(framingErrors := v.stats.framingErrors + 1)))
      && (m.cmd != 0x08 && HasPort(m) && !InSession(v, m) ==>
            r == -ESTALE && v' == v.(stats := v.stats.(sessionErrors := v.stats.sessionErrors + 1)))
      && (r == -ESTALE && InSession(v, m) ==>
            m.cmd == 0x02 && v' == v.(stats := v.stats.(staleAcks := v.stats.staleAcks + 1)))
      && (r == -EMSGSIZE || r == -ENOMSG ==> v' == v)
      && (r == 0 ==> v'.stats == v.stats)
  {
    hide Overlay;
  }

  /** Each command has its own part of the state and leaves the others alone. */
  lemma CommandsKeepToTheirPart(v: View, m: Msg)
    requires |v.slots| == PORTS && (NeedsStatus(m) ==> v.status.Some?)
    ensures var v' := Command(v, m).0;
      && v'.v2 == v.v2 && |v'.slots| == PORTS
      && (v'.session != v.session ==> m.cmd == 0x08)
      && (v'.status != v.status ==> m.cmd in {0x01, 0x0C, 0x08})
      && (v'.telemetry != v.telemetry ==> m.cmd in {0x0E, 0x08})
      && forall p :: 0 <= p < PORTS && v'.slots[p] != v.slots[p] ==>
           m.cmd == 0x08 || (m.cmd == 0x02 && p == if m.port == 255 then 6 else m.port as int)
  {
    hide Overlay;
  }

  /** And a command that is accepted does what it says: the whole status or telemetry, the overlay
      of a drive frame, the answer of an ACK in the slot of its port. */
  lemma AcceptedCommandsTakeEffect(v: View, m: Msg)
    requires |v.slots| == PORTS && (NeedsStatus(m) ==> v.status.Some?) && HasPort(m) && InSession(v, m)
    ensures var (v', r) := Command(v, m);
      && (m.cmd == 0x01 ==> if |m.payload| == 136 then r == 0 && v'.status == Some(m.payload) else r == -EMSGSIZE)
      && (m.cmd == 0x0E ==> if |m.payload| == 68 then r == 0 && v'.telemetry == m.payload else r == -EMSGSIZE)
      && (m.cmd == 0x0C ==>
            if |m.payload| == 34 then r == 0 && v'.status == Some(Overlay(v.status.value, m.payload)) else r == -EMSGSIZE)
      && (m.cmd == 0x02 && |m.payload| == 8 ==>
            var s, a := v.slots[if m.port == 255 then 6 else m.port as int], AckOf(m);
            r == if Matches(s, v.v2, v.session, a) then 0 else -ESTALE)
      && (m.cmd == 0x02 && |m.payload| != 8 ==> r == -EMSGSIZE)
  {
    hide Overlay;
  }

  /** A HELLO announces the session in bytes 4 to 7, low byte first; of another length or version, it
      announces nothing. */
  lemma HelloReadsBack(capabilities: byte, most: nat, session: u32, period: nat)
    ensures HelloSession([2, capabilities] + PutLE(most, 2) + PutLE(session, 4) + PutLE(period, 4)) == session
  {
    var payload := [2, capabilities] + PutLE(most, 2) + PutLE(session, 4) + PutLE(period, 4);
    assert payload[4..8] == PutU32(session);
    GetPutU32(session);
  }

  lemma OtherHellosAnnounceNothing(payload: seq<byte>)
    requires |payload| != 12 || payload[0] != 2
    ensures HelloSession(payload) == 0
  {
  }

  /** What a HELLO does: nothing when it announces no session or the current one; else the new
      session is in force, what was pending is cancelled as stale, and status and telemetry are zero. */
  lemma HelloTakesEffect(v: View, m: Msg)
    requires |v.slots| == PORTS && m.cmd == 0x08
    ensures var (v', r), s := Command(v, m), HelloSession(m.payload);
      && r == 0
      && (s == 0 || s == v.session ==> v' == v)
      && (s != 0 && s != v.session ==>
            && v'.session == s
            && (forall p :: 0 <= p < PORTS ==>
                  !v'.slots[p].pending && (v.slots[p].pending ==> v'.slots[p].ackCmd == -1 && v'.slots[p].ackData == -ESTALE))
            && (v.status.Some? ==> v'.status == Some(Zeroed(136)))
            && v'.telemetry == Zeroed(68))
  {
  }

  /** Every port has a slot of its own. */
  lemma PortsApart(p: byte, q: byte)
    requires Frame.IsValidPort(p) && Frame.IsValidPort(q)
    ensures PortIndex(p) == PortIndex(q) <==> p == q
    ensures PortIndex(p) == if p == 255 then 6 else p as int
  {
  }
}
