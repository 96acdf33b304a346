/** The link as a transition system: one step per mutex-protected block or atomic access,
    taken by any number of threads in any order. */
module Link {
  import opened Bytes
  import opened Errno
  import opened Sequence
  import opened Status
  import Frame

  type Tid = nat

  const PORTS := 7   // six device ports and the hub
  const HUB := 6

  const CMD_ALL_STATUS: byte := 0x01
  const CMD_ACK: byte := 0x02
  const CMD_LINK_HELLO: byte := 0x08
  const CMD_LINK_STATS: byte := 0x0A
  const CMD_DRIVE_TELEMETRY: byte := 0x0C
  const CMD_RUNTIME_TELEMETRY: byte := 0x0E
  const HELLO_PAYLOAD_SIZE := 12

  // ----- one port's request slot -----

  datatype Slot = Slot(
    pending: bool, pendingSeq: u32, ackSeq: u32, ackSession: u32, ackCmd: int, ackData: int)

  const CLEAR := Slot(false, 0, 0, 0, 0, 0)

  datatype Ack = Ack(sequence: u32, session: u32, cmd: int, data: int)

  function Registered(number: u32): Slot { Slot(true, number, 0, 0, 0, 0) }

  /** Cancel what is pending, wipe what is not. */
  function ResetSlot(s: Slot, error: int, session: u32): Slot {
    if s.pending then Slot(false, s.pendingSeq, s.pendingSeq, session, -1, error) else CLEAR
  }

  predicate Matches(s: Slot, v2: bool, session: u32, a: Ack) {
    && s.pending
    && a.cmd >= 0
    && (!v2 || (a.sequence == s.pendingSeq && a.session == session))
  }

  function Completed(s: Slot, a: Ack): Slot {
    Slot(false, s.pendingSeq, a.sequence, a.session, a.cmd, a.data)
  }

  /** The branch by which a request returns. */
  datatype How = ByCancel | ByAck | ByItself

  function Verdict(s: Slot, v2: bool, session: u32, cmd: byte, number: u32, completed: bool): How {
    if completed && s.ackCmd == -1 then ByCancel
    else if completed && s.ackCmd == cmd && (!v2 || (s.ackSeq == number && s.ackSession == session)) then ByAck
    else ByItself
  }

  /** How one attempt of a request ended without an answer. */
  datatype Try =
    | Refused                   // the link was stopped or had no descriptor
    | SendFailed(error: int)
    | WaitFailed(error: int)
    | NoAnswer                  // sent, and nothing came before the deadline

  // ----- messages -----

  datatype Msg = Msg(
    v2: bool, cmd: byte, port: byte, sequence: u32, session: u32, payload: seq<byte>)

  function PortIndex(port: byte): (p: nat)
    requires Frame.IsValidPort(port)
    ensures p < PORTS
  {
    if port == Frame.PORT_NONE then HUB else port
  }

  /** A 32-bit field read as int32_t. */
  function Signed(n: u32): int {
    if n < 0x8000_0000 then n else n - 0x1_0000_0000
  }

  function AckOf(m: Msg): Ack
    requires |m.payload| == 8
  {
    Ack(m.sequence, m.session, Signed(GetU32(m.payload[..4])), Signed(GetU32(m.payload[4..])))
  }

  /** The session a HELLO payload announces; zero for one that is ignored. */
  function HelloSession(payload: seq<byte>): u32 {
    if |payload| != HELLO_PAYLOAD_SIZE || payload[0] != Frame.V2_VERSION then 0 else GetU32(payload[4..8])
  }

  // ----- shared state -----

  datatype Stats = Stats(
    tx: nat, rx: nat, legacy: nat, crcErrors: nat, framingErrors: nat,
    sessionErrors: nat, timeouts: nat, retries: nat, staleAcks: nat)

  const NO_STATS := Stats(0, 0, 0, 0, 0, 0, 0, 0, 0)

  datatype Shared = Shared(
    desc: Option<nat>,            // fgDesc, naming the descriptor
    stop: bool,
    handshake: bool,
    v2: bool,
    session: u32,
    active: nat,                  // fgActiveReceivers
    nextSeq: u32,
    status: Option<StatusBytes>,  // fgStatus, None while it is NULL
    telemetry: seq<byte>)

  /** Holders of the mutexes that outlive one step. */
  datatype Locks = Locks(lifecycle: Option<Tid>, send: Option<Tid>, request: seq<Option<Tid>>)

  // ----- history, kept for the theorems only -----

  /** Where a received write came from: the session its frame named, and how long the
      history was when the session check was passed. */
  datatype Source = Source(v2: bool, session: u32, checkedAt: nat)

  type DevicePort = p: nat | p < DEVICE_PORTS

  datatype Event =
    | RequestRegistered(t: Tid, port: nat, cmd: byte, number: u32)
    | AckMatched(port: nat, ack: Ack)
    | RequestCanceled(port: nat, number: u32, error: int)
    | RequestReturned(t: Tid, port: nat, cmd: byte, number: u32, how: How, v2: bool, result: int,
                      completed: bool, tries: seq<Try>, allowed: nat)
    | SessionIs(session: u32)
    | StatusZeroed
    | StatusReplaced(from: Source, bytes: StatusBytes)
    | StatusOverlaid(from: Source, drive: Drive)
    | CountCleared(device: DevicePort)
    | TelemetryZeroed
    | TelemetryReplaced(from: Source, runtime: seq<byte>)
    | DescriptorClosed(fd: nat)
    | CountersCleared          // at the start of an initialisation, with the telemetry

  function StatusStep(s: StatusBytes, e: Event): StatusBytes {
    match e
    case StatusZeroed => Zeroed(STATUS_SIZE)
    case StatusReplaced(_, bytes) => bytes
    case StatusOverlaid(_, drive) => Overlay(s, drive)
    case CountCleared(device) => CountReset(s, device)
    case _ => s
  }

  function StatusAfter(log: seq<Event>): StatusBytes {
    if |log| == 0 then Zeroed(STATUS_SIZE) else StatusStep(StatusAfter(log[..|log| - 1]), log[|log| - 1])
  }

  function TelemetryStep(s: seq<byte>, e: Event): seq<byte> {
    match e
    case TelemetryZeroed => Zeroed(RUNTIME_SIZE)
    case CountersCleared => Zeroed(RUNTIME_SIZE)
    case TelemetryReplaced(_, runtime) => runtime
    case _ => s
  }

  function TelemetryAfter(log: seq<Event>): seq<byte> {
    if |log| == 0 then Zeroed(RUNTIME_SIZE) else TelemetryStep(TelemetryAfter(log[..|log| - 1]), log[|log| - 1])
  }

  function SessionAfter(log: seq<Event>): u32 {
    if |log| == 0 then 0
    else if log[|log| - 1].SessionIs? then log[|log| - 1].session
    else SessionAfter(log[..|log| - 1])
  }

  predicate AboutPort(e: Event, p: nat) {
    || (e.RequestRegistered? && e.port == p)
    || (e.AckMatched? && e.port == p)
    || (e.RequestCanceled? && e.port == p)
    || (e.RequestReturned? && e.port == p)
  }

  /** The number of the request outstanding on the port, by the history alone. */
  function Outstanding(log: seq<Event>, port: nat): Option<u32> {
    if |log| == 0 then None
    else
      var e := log[|log| - 1];
      if !AboutPort(e, port) then Outstanding(log[..|log| - 1], port)
      else if e.RequestRegistered? then Some(e.number) else None
  }

  // ----- threads -----

  /** The local variables of a registered request, and how its attempts went. */
  datatype Job = Job(port: nat, cmd: byte, number: u32, left: nat, result: int, tries: seq<Try>, allowed: nat)

  function NewJob(port: nat, cmd: byte, number: u32): Job { Job(port, cmd, number, 0, -ETIMEDOUT, [], 0) }

  function Allowed(j: Job, n: nat): Job { j.(left := n, allowed := n) }

  function Tried(j: Job, result: int, a: Try): Job { j.(result := result, tries := j.tries + [a]) }

  datatype JobPc =
    | Attempts
    | Check
    | Lock
    | Sending(fd: nat)
    | Wait
    | Conclude(completed: bool)

  /** A request; it holds its port's request mutex throughout. */
  datatype RequestPc =
    | Number(port: nat, cmd: byte)
    | Register(port: nat, cmd: byte, number: u32)
    | Running(job: Job, pc: JobPc)
    | Release(port: nat)
  {
    function Port(): nat { if Running? then job.port else port }
  }

  /** A send that waits for no answer. */
  datatype NotePc = WantsLock | HasLock(fd: nat)

  /** A receive call. */
  datatype ReceivePc =
    | Read
    | Dispatch(m: Msg)
    | Install(session: u32)
    | ResetPorts(i: nat, since: nat)
    | ZeroStatus(since: nat)
    | ZeroTelemetry
    | Checked(m: Msg, at: nat)
    | Stale
    | Count(owes: bool)
    | Leave

  datatype ShutdownPc =
    | WaitReceivers
    | Detach
    | CancelPorts(i: nat, closing: Option<nat>, since: nat)   // since: how long the history was at the detachment
    | Close(closing: Option<nat>, since: nat)
    | UnlockSend
    | FreeStatus
    | ClearHandshake
    | ClearV2
    | ClearSession

  datatype InitPc =
    | ClearStats
    | AllocStatus
    | ClearPorts(i: nat)
    | Shake
    | MarkReady
    | DropStatus
    | DropDescriptor

  datatype Pc =
    | Idle
    | Request(q: RequestPc)
    | Note(n: NotePc)
    | Receive(r: ReceivePc)
    | Shutdown(s: ShutdownPc)
    | Init(i: InitPc)
  {
    predicate IsJob() { Request? && q.Running? }

    predicate HoldsSend() {
      || (Request? && q.Running? && q.pc.Sending?)
      || (Note? && n.HasLock?)
      || (Shutdown? && (s.CancelPorts? || s.Close? || s.UnlockSend?))
    }

    predicate HoldsLifecycle() { Shutdown? && s.Detach? }

    /** A shutdown that has taken the descriptor away. */
    predicate HasDetached() { Shutdown? && !s.WaitReceivers? && !s.Detach? }

    /** A receive call whose rx_frames increment is still to come. */
    predicate Owes() { Receive? && r.Count? && r.owes }

    /** The descriptor this thread is about to use or close. */
    function Uses(): Option<nat> {
      if Request? && q.Running? && q.pc.Sending? then Some(q.pc.fd)
      else if Note? && n.HasLock? then Some(n.fd)
      else if Shutdown? && s.CancelPorts? then s.closing
      else if Shutdown? && s.Close? then s.closing
      else None
    }
  }

  datatype World = World(
    sh: Shared,
    slots: seq<Slot>,
    stats: Stats,
    locks: Locks,
    pcs: map<Tid, Pc>,
    log: seq<Event>,
    regAt: seq<nat>,     // per port, where its latest registration stands in the log
    doneAt: seq<nat>,    // per port, where its latest match or cancellation stands
    issued: seq<u32>,    // sequence numbers handed out since the last initialisation
    closed: set<nat>,    // descriptors closed so far
    cap: nat)            // how many receive calls the application runs at once

  function At(w: World, t: Tid, pc: Pc): World { w.(pcs := w.pcs[t := pc]) }

  function Logged(w: World, e: Event): World { w.(log := w.log + [e]) }

  function WithSlot(w: World, p: nat, s: Slot): World
    requires p < |w.slots|
  {
    w.(slots := w.slots[p := s])
  }

  /** One iteration of reset_port_state. */
  function ResetPort(w: World, p: nat, error: int): World
    requires p < |w.slots| && p < |w.doneAt|
  {
    var s := w.slots[p];
    var w' := WithSlot(w, p, ResetSlot(s, error, w.sh.session));
    if s.pending
    then Logged(w', RequestCanceled(p, s.pendingSeq, error)).(doneAt := w.doneAt[p := |w.log|])
    else w'
  }

  // ----- steps of a request -----

  datatype RequestChoice =
    | Start(port: nat, cmd: byte)
    | Proceed
    | Sent(result: int)      // what the transport answered
    | WaitOver(error: int)   // the wait ended with the request still pending

  ghost predicate RequestStep(w: World, t: Tid, c: RequestChoice, w': World)
    requires t in w.pcs && WellShaped(w)
  {
    match w.pcs[t]
    case Idle =>
      && c.Start? && c.port < PORTS && w.locks.request[c.port].None?
      && w' == At(w.(locks := w.locks.(request := w.locks.request[c.port := Some(t)])), t,
                  Request(Number(c.port, c.cmd)))
    case Request(Number(p, cmd)) =>
      c.Proceed? && w' == At(Numbered(w), t, Request(Register(p, cmd, w.sh.nextSeq)))
    case Request(Register(p, cmd, number)) =>
      && c.Proceed? && p < PORTS
      && w' == At(Logged(WithSlot(w, p, Registered(number)), RequestRegistered(t, p, cmd, number))
                    .(regAt := w.regAt[p := |w.log|]),
                  t, Request(Running(NewJob(p, cmd, number), Attempts)))
    case Request(Running(j, pc)) => j.port < PORTS && JobStep(w, t, c, j, pc, w')
    case Request(Release(p)) =>
      && c.Proceed? && p < PORTS
      && w' == At(w.(locks := w.locks.(request := w.locks.request[p := None])), t, Idle)
    case _ => false
  }

  /** next_sequence */
  function Numbered(w: World): World {
    w.(sh := w.sh.(nextSeq := Successor(w.sh.nextSeq)), issued := w.issued + [w.sh.nextSeq])
  }

  function JobAt(w: World, t: Tid, j: Job, pc: JobPc): World { At(w, t, Request(Running(j, pc))) }

  ghost predicate JobStep(w: World, t: Tid, c: RequestChoice, j: Job, pc: JobPc, w': World)
    requires t in w.pcs && WellShaped(w) && j.port < PORTS
  {
    var sh, s := w.sh, w.slots[j.port];
    match pc
    case Attempts => c.Proceed? && w' == JobAt(w, t, Allowed(j, if sh.v2 then 2 else 1), Check)
    case Check =>
      c.Proceed? && w' == JobAt(w, t, j, if j.left == 0 then Conclude(false) else if s.pending then Lock else Conclude(true))
    case Lock =>
      && c.Proceed? && w.locks.send.None?
      && w' == if sh.desc.None? || sh.stop then JobAt(w, t, Tried(j, -ENOTCONN, Refused), Conclude(false))
               else JobAt(w.(locks := w.locks.(send := Some(t))), t, j, Sending(sh.desc.value))
    case Sending(_) =>
      && c.Sent?
      && var out := w.(locks := w.locks.(send := None));
         w' == if c.result < 0 then JobAt(out, t, Tried(j, c.result, SendFailed(c.result)), Conclude(false))
               else JobAt(out.(stats := w.stats.(tx := w.stats.tx + 1)), t, j, Wait)
    case Wait =>
      && j.left > 0
      && if s.pending then
           && c.WaitOver? && c.error <= 0
           && var j' := (if c.error < 0 then Tried(j, c.error, WaitFailed(c.error)) else Tried(j, j.result, NoAnswer))
                          .(left := j.left - 1);
              var stats := if j'.left > 0 then w.stats.(retries := w.stats.retries + 1) else w.stats;
              w' == JobAt(w.(stats := stats), t, j', Check)
         else c.Proceed? && w' == JobAt(w, t, j, Conclude(true))
    case Conclude(completed) =>
      && c.Proceed?
      && var how := Verdict(s, sh.v2, sh.session, j.cmd, j.number, completed);
         var result := if how.ByItself? then j.result else s.ackData;
         var stats := if how.ByItself? && j.result == -ETIMEDOUT
                      then w.stats.(timeouts := w.stats.timeouts + 1) else w.stats;
         w' == At(Logged(WithSlot(w.(stats := stats), j.port, s.(pending := false)),
                         RequestReturned(t, j.port, j.cmd, j.number, how, sh.v2, result, completed, j.tries, j.allowed)),
                  t, Request(Release(j.port)))
  }

  /** A send without a request: number, lock, send, unlock. */
  ghost predicate NoteStep(w: World, t: Tid, result: int, w': World)
    requires t in w.pcs && WellShaped(w)
  {
    match w.pcs[t]
    case Idle => w' == At(Numbered(w), t, Note(WantsLock))
    case Note(WantsLock) =>
      && w.locks.send.None?
      && w' == if w.sh.desc.None? || w.sh.stop then At(w, t, Idle)
               else At(w.(locks := w.locks.(send := Some(t))), t, Note(HasLock(w.sh.desc.value)))
    case Note(HasLock(_)) =>
      var stats := if result < 0 then w.stats else w.stats.(tx := w.stats.tx + 1);
      w' == At(w.(locks := w.locks.(send := None), stats := stats), t, Idle)
    case _ => false
  }

  // ----- steps of a receive call -----

  datatype ReceiveChoice =
    | Enter
    | Nothing                   // no start byte, or the transport failed
    | BadCrc
    | BadFraming
    | Frame2(frame: Frame.Frame)
    | Frame1(cmd: byte, port: byte, payload: seq<byte>)
    | Continue

  ghost predicate ReceiveStep(w: World, t: Tid, c: ReceiveChoice, w': World)
    requires t in w.pcs && WellShaped(w)
  {
    var sh := w.sh;
    match w.pcs[t]
    case Idle =>
      && c.Enter? && w.locks.lifecycle.None? && !sh.stop && sh.desc.Some? && sh.handshake && sh.active < w.cap
      && w' == At(w.(sh := sh.(active := sh.active + 1)), t, Receive(Read))
    case Receive(Read) => ReadStep(w, t, c, w')
    case Receive(Dispatch(m)) => c.Continue? && w' == Dispatched(w, t, m)
    case Receive(Checked(m, at)) =>
      && c.Continue? && Frame.IsValidPort(m.port)
      && ((m.cmd == CMD_ALL_STATUS || m.cmd == CMD_DRIVE_TELEMETRY) ==> sh.status.Some?)
      && w' == Processed(w, t, m, at)
    case Receive(Stale) =>
      c.Continue? && w' == At(w.(stats := w.stats.(sessionErrors := w.stats.sessionErrors + 1)), t, Receive(Count(true)))
    case Receive(Count(_)) =>
      c.Continue? && w' == At(w.(stats := w.stats.(rx := w.stats.rx + 1)), t, Receive(Leave))
    case Receive(Leave) =>
      && c.Continue? && w.locks.lifecycle.None? && sh.active > 0
      && w' == At(w.(sh := sh.(active := sh.active - 1)), t, Idle)
    case Receive(pc) => c.Continue? && HelloStep(w, t, pc, w')
    case _ => false
  }

  /** Reading and checking one frame; the stream may hold anything. */
  ghost predicate ReadStep(w: World, t: Tid, c: ReceiveChoice, w': World) {
    match c
    case Nothing => w' == At(w, t, Receive(Leave))
    case BadCrc => w' == At(w.(stats := w.stats.(crcErrors := w.stats.crcErrors + 1)), t, Receive(Leave))
    case BadFraming => w' == At(w.(stats := w.stats.(framingErrors := w.stats.framingErrors + 1)), t, Receive(Leave))
    case Frame2(f) =>
      w' == At(w, t, Receive(Dispatch(Msg(true, f.cmd, f.port, f.sequence, f.session, f.payload))))
    case Frame1(cmd, port, payload) =>
      && Frame.IsValidPort(port)
      && w' == At(w.(stats := w.stats.(legacy := w.stats.legacy + 1)), t,
                  Receive(Dispatch(Msg(false, cmd, port, 0, w.sh.session, payload))))
    case _ => false
  }

  /** process_hello_payload once it has accepted the new session. */
  ghost predicate HelloStep(w: World, t: Tid, pc: ReceivePc, w': World)
    requires WellShaped(w)
  {
    match pc
    case Install(session) =>
      w' == At(Logged(w.(sh := w.sh.(session := session)), SessionIs(session)), t, Receive(ResetPorts(0, |w.log| + 1)))
    case ResetPorts(i, since) =>
      && i < PORTS
      && w' == At(ResetPort(w, i, -ESTALE), t,
                  Receive(if i + 1 < PORTS then ResetPorts(i + 1, since) else ZeroStatus(since)))
    case ZeroStatus(_) =>
      w' == At(if w.sh.status.None? then w
               else Logged(w.(sh := w.sh.(status := Some(Zeroed(STATUS_SIZE)))), StatusZeroed),
               t, Receive(ZeroTelemetry))
    case ZeroTelemetry =>
      w' == At(Logged(w.(sh := w.sh.(telemetry := Zeroed(RUNTIME_SIZE))), TelemetryZeroed), t, Receive(Count(false)))
    case _ => false
  }

  /** The head of process_command: HELLO, port check, session check. */
  function Dispatched(w: World, t: Tid, m: Msg): World {
    if m.cmd == CMD_LINK_HELLO then
      var s := HelloSession(m.payload);
      At(w, t, Receive(if s == 0 || s == w.sh.session then Count(false) else Install(s)))
    else if !Frame.IsValidPort(m.port) then
      At(w.(stats := w.stats.(framingErrors := w.stats.framingErrors + 1)), t, Receive(Leave))
    else At(w, t, Receive(if w.sh.v2 && m.session != w.sh.session then Stale else Checked(m, |w.log|)))
  }

  /** The switch of process_command. */
  function Processed(w: World, t: Tid, m: Msg, at: nat): World
    requires WellShaped(w) && Frame.IsValidPort(m.port)
    requires (m.cmd == CMD_ALL_STATUS || m.cmd == CMD_DRIVE_TELEMETRY) ==> w.sh.status.Some?
  {
    var sh, from := w.sh, Source(m.v2, m.session, at);
    var refused, counted := At(w, t, Receive(Leave)), Receive(Count(false));
    if m.cmd == CMD_ALL_STATUS then
      if |m.payload| != STATUS_SIZE then refused
      else At(Logged(w.(sh := sh.(status := Some(m.payload))), StatusReplaced(from, m.payload)), t, counted)
    else if m.cmd == CMD_RUNTIME_TELEMETRY then
      if |m.payload| != RUNTIME_SIZE then refused
      else At(Logged(w.(sh := sh.(telemetry := m.payload)), TelemetryReplaced(from, m.payload)), t, counted)
    else if m.cmd == CMD_DRIVE_TELEMETRY then
      if |m.payload| != DRIVE_SIZE then refused
      else At(Logged(w.(sh := sh.(status := Some(Overlay(sh.status.value, m.payload)))), StatusOverlaid(from, m.payload)), t, counted)
    else if m.cmd == CMD_ACK then
      if |m.payload| != 8 then refused else Acknowledged(w, t, PortIndex(m.port), AckOf(m))
    else At(w, t, counted)
  }

  /** The ACK block: match and complete, or count a stale one. */
  function Acknowledged(w: World, t: Tid, p: nat, a: Ack): World
    requires WellShaped(w) && p < PORTS
  {
    if Matches(w.slots[p], w.sh.v2, w.sh.session, a) then
      At(Logged(WithSlot(w, p, Completed(w.slots[p], a)), AckMatched(p, a)).(doneAt := w.doneAt[p := |w.log|]),
         t, Receive(Count(false)))
    else
      At(w.(stats := w.stats.(staleAcks := w.stats.staleAcks + 1)), t, Receive(Count(true)))
  }

  // ----- steps of a shutdown -----

  ghost predicate ShutdownStep(w: World, t: Tid, w': World)
    requires t in w.pcs && WellShaped(w)
  {
    var sh := w.sh;
    match w.pcs[t]
    case Idle =>
      && (forall u :: u in w.pcs ==> !w.pcs[u].Init?)
      && w' == At(w.(sh := sh.(stop := true)), t, Shutdown(WaitReceivers))
    case Shutdown(WaitReceivers) =>
      && w.locks.lifecycle.None? && sh.active == 0
      && w' == At(w.(locks := w.locks.(lifecycle := Some(t))), t, Shutdown(Detach))
    case Shutdown(Detach) =>
      && w.locks.send.None?
      && w' == At(w.(sh := sh.(desc := None), locks := w.locks.(send := Some(t), lifecycle := None)), t,
                  Shutdown(CancelPorts(0, sh.desc, |w.log|)))
    case Shutdown(CancelPorts(i, closing, since)) =>
      && i < PORTS
      && w' == At(ResetPort(w, i, -ENOTCONN), t,
                  Shutdown(if i + 1 < PORTS then CancelPorts(i + 1, closing, since) else Close(closing, since)))
    case Shutdown(Close(closing, _)) =>
      w' == At(if closing.None? then w
               else Logged(w, DescriptorClosed(closing.value)).(closed := w.closed + {closing.value}),
               t, Shutdown(UnlockSend))
    case Shutdown(pc) => WindDownStep(w, t, pc, w')
    case _ => false
  }

  ghost predicate WindDownStep(w: World, t: Tid, pc: ShutdownPc, w': World) {
    var sh := w.sh;
    match pc
    case UnlockSend => w' == At(w.(locks := w.locks.(send := None)), t, Shutdown(FreeStatus))
    case FreeStatus => w' == At(w.(sh := sh.(status := None)), t, Shutdown(ClearHandshake))
    case ClearHandshake => w' == At(w.(sh := sh.(handshake := false)), t, Shutdown(ClearV2))
    case ClearV2 => w' == At(w.(sh := sh.(v2 := false)), t, Shutdown(ClearSession))
    case ClearSession => w' == At(Logged(w.(sh := sh.(session := 0)), SessionIs(0)), t, Idle)
    case _ => false
  }

  // ----- steps of an initialisation -----

  datatype InitChoice =
    | Open(fd: nat)          // an open descriptor of the caller
    | Next
    | OutOfMemory
    | HelloRefused(session: u32)
    | HelloAccepted(session: u32)

  ghost predicate InitStep(w: World, t: Tid, c: InitChoice, w': World)
    requires t in w.pcs && WellShaped(w)
  {
    var sh := w.sh;
    match w.pcs[t]
    case Idle =>
      && c.Open? && c.fd !in w.closed && w.locks.lifecycle.None? && sh.desc.None?
      && (forall u :: u in w.pcs ==> !w.pcs[u].Init? && !w.pcs[u].Shutdown?)
      && w' == At(Logged(w.(sh := sh.(desc := Some(c.fd), stop := false, handshake := false, v2 := false,
                                      session := 0, active := 0)), SessionIs(0)),
                  t, Init(ClearStats))
    case Init(ClearStats) =>
      && c.Next?
      && w' == At(Logged(w.(sh := sh.(nextSeq := 1, telemetry := Zeroed(RUNTIME_SIZE)), stats := NO_STATS, issued := []),
                         CountersCleared),
                  t, Init(AllocStatus))
    case Init(AllocStatus) =>
      || (c.OutOfMemory? && w' == At(w.(sh := sh.(status := None)), t, Init(DropDescriptor)))
      || (c.Next? && w' == At(Logged(w.(sh := sh.(status := Some(Zeroed(STATUS_SIZE)))), StatusZeroed), t, Init(ClearPorts(0))))
    case Init(ClearPorts(i)) =>
      && c.Next? && i < PORTS
      && w' == At(ResetPort(w, i, -ENOTCONN), t, Init(if i + 1 < PORTS then ClearPorts(i + 1) else Shake))
    case Init(pc) => NegotiateStep(w, t, c, pc, w')
    case _ => false
  }

  ghost predicate NegotiateStep(w: World, t: Tid, c: InitChoice, pc: InitPc, w': World) {
    var sh := w.sh;
    match pc
    case Shake =>
      || (c.HelloRefused? && w' == At(Logged(w.(sh := sh.(session := c.session)), SessionIs(c.session)), t, Init(DropStatus)))
      || (c.HelloAccepted? && c.session != 0
          && w' == At(Logged(w.(sh := sh.(session := c.session, v2 := true)), SessionIs(c.session)), t, Init(MarkReady)))
    case MarkReady => c.Next? && w' == At(w.(sh := sh.(handshake := true)), t, Idle)
    case DropStatus => c.Next? && w' == At(w.(sh := sh.(status := None)), t, Init(DropDescriptor))
    case DropDescriptor => c.Next? && w.locks.lifecycle.None? && w' == At(w.(sh := sh.(desc := None)), t, Idle)
    case _ => false
  }

  /** The status write of pup_motor_reset_count, while the status exists. */
  ghost predicate CountStep(w: World, t: Tid, port: nat, w': World)
    requires t in w.pcs
  {
    && w.pcs[t].Idle? && port < DEVICE_PORTS && w.sh.status.Some?
    && w' == At(Logged(w.(sh := w.sh.(status := Some(CountReset(w.sh.status.value, port)))), CountCleared(port)), t, Idle)
  }

  // ----- runs -----

  ghost predicate WellShaped(w: World) {
    |w.slots| == |w.locks.request| == |w.regAt| == |w.doneAt| == PORTS
  }

  datatype Action =
    | OfRequest(r: RequestChoice)
    | OfNote(result: int)
    | OfReceive(c: ReceiveChoice)
    | OfShutdown
    | OfInit(i: InitChoice)
    | OfCount(port: nat)

  ghost predicate Step(w: World, t: Tid, a: Action, w': World) {
    && t in w.pcs && WellShaped(w)
    && match a
       case OfRequest(r) => RequestStep(w, t, r, w')
       case OfNote(result) => NoteStep(w, t, result, w')
       case OfReceive(c) => ReceiveStep(w, t, c, w')
       case OfShutdown => ShutdownStep(w, t, w')
       case OfInit(i) => InitStep(w, t, i, w')
       case OfCount(port) => CountStep(w, t, port, w')
  }

  function FreshShared(): Shared {
    Shared(None, false, false, false, 0, 0, 1, None, Zeroed(RUNTIME_SIZE))
  }

  ghost predicate Initial(w: World) {
    && w.sh == FreshShared()
    && w.slots == seq(PORTS, _ => CLEAR)
    && w.stats == NO_STATS
    && w.locks == Locks(None, None, seq(PORTS, _ => None))
    && (forall t :: t in w.pcs ==> w.pcs[t] == Idle)
    && w.log == [] && w.issued == [] && w.closed == {}
    && |w.regAt| == |w.doneAt| == PORTS
  }

  /** A finite run: states, and between neighbours one step of one thread. */
  ghost predicate IsRun(run: seq<World>) {
    && |run| > 0
    && Initial(run[0])
    && forall k :: 0 < k < |run| ==> CanBecome(run[k - 1], run[k])
  }

  ghost predicate CanBecome(w: World, w': World) {
    exists t, a :: Step(w, t, a, w')
  }

  ghost predicate Reachable(w: World) {
    exists run :: IsRun(run) && run[|run| - 1] == w
  }
}
