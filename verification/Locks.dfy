/** The order in which the link takes its mutexes, and why threads that keep to one order never block. */
module Locks {

  const PORTS := 7

  type Port = p: nat | p < PORTS

  datatype Mutex =
    | Lifecycle
    | Request(port: nat)
    | Sequence
    | Send
    | Transport
    | Slot(port: nat)
    | Device(port: nat)
    | Status
    | Telemetry
    | Stats

  /** A mutex is only requested while all mutexes held rank below it. The device mutexes come
      late where shutdown clears devices, and early where a device is opened by a request. */
  function Rank(early: bool, m: Mutex): nat {
    match m
    case Device(_) => if early then 0 else 5
    case Lifecycle => 1
    case Request(_) => 2
    case Sequence => 3
    case Send => 4
    case Transport => 5
    case Slot(_) => 5
    case Status => 5
    case Telemetry => 5
    case Stats => 6
  }

  datatype Op = Acquire(m: Mutex) | Release(m: Mutex)

  datatype Thread = Thread(held: set<Mutex>, rest: seq<Op>)

  // ----- threads taking turns -----

  predicate Enabled(s: seq<Thread>, i: nat)
    requires i < |s|
  {
    && |s[i].rest| > 0
    && (s[i].rest[0].Acquire? ==> forall j :: 0 <= j < |s| ==> s[i].rest[0].m !in s[j].held)
  }

  function Stepped(t: Thread): Thread
    requires |t.rest| > 0
  {
    Thread(if t.rest[0].Acquire? then t.held + {t.rest[0].m} else t.held - {t.rest[0].m}, t.rest[1..])
  }

  predicate CanBecome(s: seq<Thread>, s': seq<Thread>) {
    exists i: nat :: i < |s| && Enabled(s, i) && s' == s[i := Stepped(s[i])]
  }

  ghost predicate IsRun(run: seq<seq<Thread>>) {
    |run| > 0 && forall k :: 0 < k < |run| ==> CanBecome(run[k - 1], run[k])
  }

  ghost predicate Reaches(s: seq<Thread>, s': seq<Thread>) {
    exists run :: IsRun(run) && run[0] == s && run[|run| - 1] == s'
  }

  predicate Finished(s: seq<Thread>) {
    forall i :: 0 <= i < |s| ==> s[i].rest == []
  }

  /** Somebody has work left and nobody can go on. */
  predicate Stuck(s: seq<Thread>) {
    !Finished(s) && forall i: nat :: i < |s| ==> !Enabled(s, i)
  }

  ghost predicate CanStick(start: seq<Thread>) {
    exists s :: Reaches(start, s) && Stuck(s)
  }

  // ----- programs that climb the ranks -----

  predicate Above(early: bool, m: Mutex, held: set<Mutex>) {
    forall h <- held :: Rank(early, h) < Rank(early, m)
  }

  predicate Climbs(early: bool, held: set<Mutex>, ops: seq<Op>)
    decreases |ops|
  {
    |ops| > 0 ==>
      match ops[0]
      case Acquire(m) => Above(early, m, held) && Climbs(early, held + {m}, ops[1..])
      case Release(m) => m in held && Climbs(early, held - {m}, ops[1..])
  }

  function After(held: set<Mutex>, ops: seq<Op>): set<Mutex>
    decreases |ops|
  {
    if |ops| == 0 then held
    else After(if ops[0].Acquire? then held + {ops[0].m} else held - {ops[0].m}, ops[1..])
  }

  predicate Ordered(early: bool, t: Thread) { Climbs(early, t.held, t.rest) && After(t.held, t.rest) == {} }

  ghost predicate Inv(early: bool, s: seq<Thread>) {
    && (forall i :: 0 <= i < |s| ==> Ordered(early, s[i]))
    && (forall i, j :: 0 <= i < j < |s| ==> s[i].held !! s[j].held)
  }

  lemma StepKeepsInv(early: bool, s: seq<Thread>, s': seq<Thread>)
    requires Inv(early, s) && CanBecome(s, s')
    ensures Inv(early, s')
  {
    var i: nat :| i < |s| && Enabled(s, i) && s' == s[i := Stepped(s[i])];
    assert Ordered(early, Stepped(s[i]));
  }

  lemma {:induction false} RunKeepsInv(early: bool, run: seq<seq<Thread>>)
    requires IsRun(run) && Inv(early, run[0])
    ensures Inv(early, run[|run| - 1])
  {
    if |run| > 1 {
      RunKeepsInv(early, run[..|run| - 1]);
      StepKeepsInv(early, run[|run| - 2], run[|run| - 1]);
    }
  }

  /** Some way ahead the thread holds nothing, and it climbs until there. */
  ghost predicate Escapes(early: bool, t: Thread) {
    exists n: nat :: n <= |t.rest| && Climbs(early, t.held, t.rest[..n]) && After(t.held, t.rest[..n]) == {}
  }

  /** A thread that holds something and escapes next takes a mutex above all it holds, or gives one back. */
  lemma HolderGoesOn(early: bool, t: Thread)
    requires Escapes(early, t) && t.held != {}
    ensures t.rest != [] && (t.rest[0].Acquire? ==> Above(early, t.rest[0].m, t.held))
  {
    var n: nat :| n <= |t.rest| && Climbs(early, t.held, t.rest[..n]) && After(t.held, t.rest[..n]) == {};
    assert n > 0 && t.rest[..n][0] == t.rest[0];
  }

  /** From a waiting thread to the holder of what it waits for, upwards through the ranks. */
  lemma {:induction false} SomebodyMoves(early: bool, s: seq<Thread>, i: nat)
    requires forall j :: 0 <= j < |s| ==> Escapes(early, s[j])
    requires i < |s| && s[i].rest != []
    ensures exists j: nat :: j < |s| && Enabled(s, j)
    decreases if s[i].rest[0].Acquire? then 6 - Rank(early, s[i].rest[0].m) else 7
  {
    if !Enabled(s, i) {
      var m := s[i].rest[0].m;
      var j :| 0 <= j < |s| && m in s[j].held;
      HolderGoesOn(early, s[j]);
      if s[j].rest[0].Acquire? {
        SomebodyMoves(early, s, j);
      } else {
        assert Enabled(s, j);
      }
    }
  }

  /** Threads whose programs climb the ranks and give everything back never block for good. */
  lemma OrderedNeverStuck(early: bool, start: seq<Thread>)
    requires forall i :: 0 <= i < |start| ==> start[i].held == {} && Ordered(early, start[i])
    ensures !CanStick(start)
  {
    forall s: seq<Thread> | Reaches(start, s)
      ensures !Stuck(s)
    {
      var run :| IsRun(run) && run[0] == start && run[|run| - 1] == s;
      RunKeepsInv(early, run);
      if !Finished(s) {
        forall j | 0 <= j < |s|
          ensures Escapes(early, s[j])
        {
          assert Ordered(early, s[j]) && s[j].rest[..|s[j].rest|] == s[j].rest;
        }
        var i :| 0 <= i < |s| && s[i].rest != [];
        SomebodyMoves(early, s, i);
      }
    }
  }

  // ----- the calls of the link -----

  function Guard(m: Mutex, body: seq<Op>): seq<Op> { [Acquire(m)] + body + [Release(m)] }

  function Repeat(ops: seq<Op>, n: nat): seq<Op> {
    if n == 0 then [] else ops + Repeat(ops, n - 1)
  }

  /** n waits on a condition that gives the mutex up and takes it again. */
  function Waits(m: Mutex, n: nat): seq<Op> { Repeat([Release(m), Acquire(m)], n) }

  function When(c: bool, ops: seq<Op>): seq<Op> { if c then ops else [] }

  function Count(): seq<Op> { Guard(Stats, []) }

  function UseTransport(times: nat): seq<Op> { Repeat(Guard(Transport, []), times) }

  function ResetPorts(devices: bool, n: nat): seq<Op> {
    if n == 0 then []
    else ResetPorts(devices, n - 1) + Guard(Slot(n - 1), []) + When(devices, Guard(Device(n - 1), []))
  }

  function SendFrame(transports: nat, sent: bool): seq<Op> {
    Guard(Send, UseTransport(transports)) + When(sent, Count())
  }

  datatype Attempt = Attempt(pending: bool, transports: nat, sent: bool, waits: nat, retried: bool)

  function AttemptOps(p: nat, a: Attempt): seq<Op> {
    Guard(Slot(p), [])
    + When(a.pending, SendFrame(a.transports, a.sent)
                      + When(a.sent, Guard(Slot(p), Waits(Slot(p), a.waits)) + When(a.retried, Count())))
  }

  function Attempts(p: nat, attempts: seq<Attempt>): seq<Op> {
    if |attempts| == 0 then [] else AttemptOps(p, attempts[0]) + Attempts(p, attempts[1..])
  }

  function AskOps(p: nat, attempts: seq<Attempt>, timedOut: bool): seq<Op> {
    Guard(Request(p), Guard(Sequence, []) + Guard(Slot(p), []) + Attempts(p, attempts)
                      + Guard(Slot(p), When(timedOut, Count())))
  }

  /** What a receive call does with what it read. */
  datatype Received =
    | Nothing
    | Refused                            // one error counter
    | Hello(installed: bool, status: bool)
    | StatusFrame
    | TelemetryFrame
    | AckFrame(port: Port, matched: bool)

  function ReceivedOps(r: Received): seq<Op> {
    match r
    case Nothing => []
    case Refused => Count()
    case Hello(installed, status) =>
      When(installed, ResetPorts(false, PORTS) + When(status, Guard(Status, [])) + Guard(Telemetry, []))
    case StatusFrame => Guard(Status, [])
    case TelemetryFrame => Guard(Telemetry, [])
    case AckFrame(p, matched) => Guard(Slot(p), When(!matched, Count()))
  }

  datatype Call =
    | Ask(port: Port, attempts: seq<Attempt>, timedOut: bool)
    | OpenDevice(port: Port, configure: bool, attempts: seq<Attempt>, timedOut: bool)
    | Tell(transports: nat, sent: bool)
    | Receive(entered: bool, legacy: bool, received: Received, counted: bool)
    | ShutDown(waits: nat, connected: bool)
    | Initialise(again: bool, transports: nat, dropped: bool)
    | WithStatus(waits: nat)
    | ReadTelemetry
    | ReadStats
    | UseLink(transports: nat)

  function OpsOf(c: Call): seq<Op> {
    match c
    case Ask(p, attempts, timedOut) => AskOps(p, attempts, timedOut)
    case OpenDevice(p, configure, attempts, timedOut) => Guard(Device(p), When(configure, AskOps(p, attempts, timedOut)))
    case Tell(transports, sent) => Guard(Sequence, []) + SendFrame(transports, sent)
    case Receive(entered, legacy, received, counted) =>
      Guard(Lifecycle, [])
      + When(entered, When(legacy, Count()) + ReceivedOps(received) + When(counted, Count()) + Guard(Lifecycle, []))
    case ShutDown(waits, connected) =>
      [Acquire(Lifecycle)] + Waits(Lifecycle, waits) + [Acquire(Send)] + [Release(Lifecycle)]
      + ResetPorts(true, PORTS) + When(connected, Guard(Transport, [])) + [Release(Send)] + Guard(Status, [])
    case Initialise(again, transports, dropped) =>
      Guard(Lifecycle, []) + When(again, ResetPorts(true, PORTS)) + UseTransport(transports)
      + When(dropped, Guard(Lifecycle, []))
    case WithStatus(waits) => Guard(Status, Waits(Status, waits))
    case ReadTelemetry => Guard(Telemetry, [])
    case ReadStats => Guard(Stats, [])
    case UseLink(transports) => UseTransport(transports)
  }

  function Program(calls: seq<Call>): seq<Op> {
    if |calls| == 0 then [] else OpsOf(calls[0]) + Program(calls[1..])
  }

  // ----- every call climbs -----

  /** Keeps to the ranks and ends with what it started with. */
  predicate Neutral(early: bool, held: set<Mutex>, ops: seq<Op>) {
    Climbs(early, held, ops) && After(held, ops) == held
  }

  lemma {:induction false} Concat(early: bool, held: set<Mutex>, a: seq<Op>, b: seq<Op>)
    ensures Climbs(early, held, a + b) <==> Climbs(early, held, a) && Climbs(early, After(held, a), b)
    ensures After(held, a + b) == After(After(held, a), b)
    decreases |a|
  {
    if |a| == 0 {
      assert a + b == b;
    } else {
      var held' := if a[0].Acquire? then held + {a[0].m} else held - {a[0].m};
      Concat(early, held', a[1..], b);
      assert (a + b)[1..] == a[1..] + b;
    }
  }

  lemma NeutralConcat(early: bool, held: set<Mutex>, a: seq<Op>, b: seq<Op>)
    requires Neutral(early, held, a) && Neutral(early, held, b)
    ensures Neutral(early, held, a + b)
  {
    Concat(early, held, a, b);
  }

  lemma NeutralFour(early: bool, held: set<Mutex>, a: seq<Op>, b: seq<Op>, c: seq<Op>, d: seq<Op>)
    requires Neutral(early, held, a) && Neutral(early, held, b) && Neutral(early, held, c) && Neutral(early, held, d)
    ensures Neutral(early, held, a + b + c + d)
  {
    hide Neutral;
    NeutralConcat(early, held, a, b);
    NeutralConcat(early, held, a + b, c);
    NeutralConcat(early, held, a + b + c, d);
  }

  lemma NeutralGuard(early: bool, held: set<Mutex>, m: Mutex, body: seq<Op>)
    requires Above(early, m, held) && Neutral(early, held + {m}, body)
    ensures Neutral(early, held, Guard(m, body))
  {
    assert m !in held;
    Concat(early, held + {m}, body, [Release(m)]);
    assert [Acquire(m)] + body + [Release(m)] == [Acquire(m)] + (body + [Release(m)]);
    assert held + {m} - {m} == held;
    assert [Release(m)][1..] == [];
  }

  lemma TakesOne(early: bool, held: set<Mutex>, m: Mutex)
    requires Above(early, m, held)
    ensures Climbs(early, held, [Acquire(m)]) && After(held, [Acquire(m)]) == held + {m}
  {
    assert [Acquire(m)][1..] == [];
  }

  lemma GivesOne(early: bool, held: set<Mutex>, m: Mutex)
    requires m in held
    ensures Climbs(early, held, [Release(m)]) && After(held, [Release(m)]) == held - {m}
  {
    assert [Release(m)][1..] == [];
  }

  lemma {:induction false} NeutralRepeat(early: bool, held: set<Mutex>, ops: seq<Op>, n: nat)
    requires Neutral(early, held, ops)
    ensures Neutral(early, held, Repeat(ops, n))
  {
    if n != 0 {
      NeutralRepeat(early, held, ops, n - 1);
      NeutralConcat(early, held, ops, Repeat(ops, n - 1));
    }
  }

  lemma NeutralWaits(early: bool, held: set<Mutex>, m: Mutex, n: nat)
    requires m in held && Above(early, m, held - {m})
    ensures Neutral(early, held, Waits(m, n))
  {
    assert held - {m} + {m} == held;
    var give, take := [Release(m)], [Acquire(m)];
    assert give + take == [Release(m), Acquire(m)] && give[1..] == [] && take[1..] == [];
    Concat(early, held, give, take);
    assert After(held, give) == held - {m} && After(held - {m}, take) == held;
    NeutralRepeat(early, held, [Release(m), Acquire(m)], n);
  }

  lemma NeutralCount(early: bool, held: set<Mutex>)
    requires Above(early, Stats, held)
    ensures forall c :: Neutral(early, held, When(c, Count()))
  {
    NeutralGuard(early, held, Stats, []);
  }

  lemma {:induction false} ResetPortsNeutral(early: bool, held: set<Mutex>, devices: bool, n: nat)
    requires forall h <- held :: Rank(early, h) < 5
    requires early && devices ==> held == {}
    ensures Neutral(early, held, ResetPorts(devices, n))
  {
    if n != 0 {
      ResetPortsNeutral(early, held, devices, n - 1);
      NeutralGuard(early, held, Slot(n - 1), []);
      NeutralNothing(early, held);
      if devices {
        NeutralGuard(early, held, Device(n - 1), []);
      }
      NeutralConcat(early, held, ResetPorts(devices, n - 1), Guard(Slot(n - 1), []));
      NeutralConcat(early, held, ResetPorts(devices, n - 1) + Guard(Slot(n - 1), []), When(devices, Guard(Device(n - 1), [])));
    }
  }

  lemma TransportNeutral(early: bool, held: set<Mutex>, times: nat)
    requires forall h <- held :: Rank(early, h) < 5
    ensures Neutral(early, held, UseTransport(times))
  {
    NeutralGuard(early, held, Transport, []);
    NeutralRepeat(early, held, Guard(Transport, []), times);
  }

  lemma SendNeutral(early: bool, held: set<Mutex>, transports: nat, sent: bool)
    requires forall h <- held :: Rank(early, h) < 4
    ensures Neutral(early, held, SendFrame(transports, sent))
  {
    TransportNeutral(early, held + {Send}, transports);
    NeutralGuard(early, held, Send, UseTransport(transports));
    NeutralCount(early, held);
    NeutralConcat(early, held, Guard(Send, UseTransport(transports)), When(sent, Count()));
  }

  lemma AttemptNeutral(early: bool, held: set<Mutex>, p: nat, a: Attempt)
    requires forall h <- held :: Rank(early, h) < 4
    ensures Neutral(early, held, AttemptOps(p, a))
  {
    NeutralGuard(early, held, Slot(p), []);
    SendNeutral(early, held, a.transports, a.sent);
    assert held + {Slot(p)} - {Slot(p)} == held;
    NeutralWaits(early, held + {Slot(p)}, Slot(p), a.waits);
    NeutralGuard(early, held, Slot(p), Waits(Slot(p), a.waits));
    NeutralCount(early, held);
    hide Neutral, Guard, Count, SendFrame, Waits;
    var waited := Guard(Slot(p), Waits(Slot(p), a.waits)) + When(a.retried, Count());
    NeutralConcat(early, held, Guard(Slot(p), Waits(Slot(p), a.waits)), When(a.retried, Count()));
    NeutralNothing(early, held);
    NeutralConcat(early, held, SendFrame(a.transports, a.sent), When(a.sent, waited));
    NeutralConcat(early, held, Guard(Slot(p), []), When(a.pending, SendFrame(a.transports, a.sent) + When(a.sent, waited)));
  }

  lemma NeutralNothing(early: bool, held: set<Mutex>)
    ensures Neutral(early, held, [])
  {
  }

  lemma {:induction false} AttemptsNeutral(early: bool, held: set<Mutex>, p: nat, attempts: seq<Attempt>)
    requires forall h <- held :: Rank(early, h) < 4
    ensures Neutral(early, held, Attempts(p, attempts))
  {
    hide Neutral, AttemptOps;
    if |attempts| == 0 {
      NeutralNothing(early, held);
    } else {
      AttemptNeutral(early, held, p, attempts[0]);
      AttemptsNeutral(early, held, p, attempts[1..]);
      NeutralConcat(early, held, AttemptOps(p, attempts[0]), Attempts(p, attempts[1..]));
    }
  }

  /** A request, made with any mutexes below the request mutexes in hand. */
  lemma AskNeutral(early: bool, held: set<Mutex>, p: nat, attempts: seq<Attempt>, timedOut: bool)
    requires forall h <- held :: Rank(early, h) < 2
    ensures Neutral(early, held, AskOps(p, attempts, timedOut))
  {
    var inside := held + {Request(p)};
    NeutralGuard(early, inside, Sequence, []);
    NeutralGuard(early, inside, Slot(p), []);
    AttemptsNeutral(early, inside, p, attempts);
    NeutralCount(early, inside + {Slot(p)});
    NeutralGuard(early, inside, Slot(p), When(timedOut, Count()));
    hide Neutral, Attempts, Count, When;
    var a, b, c, d := Guard(Sequence, []), Guard(Slot(p), []), Attempts(p, attempts), Guard(Slot(p), When(timedOut, Count()));
    hide Guard;
    NeutralFour(early, inside, a, b, c, d);
    NeutralGuard(early, held, Request(p), a + b + c + d);
  }

  lemma ReceivedNeutral(early: bool, r: Received)
    ensures Neutral(early, {}, ReceivedOps(r))
  {
    hide ResetPorts;
    NeutralNothing(early, {});
    NeutralCount(early, {});
    NeutralGuard(early, {}, Status, []);
    NeutralGuard(early, {}, Telemetry, []);
    ResetPortsNeutral(early, {}, false, PORTS);
    if r.AckFrame? {
      NeutralCount(early, {Slot(r.port)});
      assert {} + {Slot(r.port)} == {Slot(r.port)};
      NeutralGuard(early, {}, Slot(r.port), When(!r.matched, Count()));
    } else if r.Hello? {
      hide Neutral, ResetPorts, Guard;
      NeutralConcat(early, {}, ResetPorts(false, PORTS), When(r.status, Guard(Status, [])));
      NeutralConcat(early, {}, ResetPorts(false, PORTS) + When(r.status, Guard(Status, [])), Guard(Telemetry, []));
    }
  }

  lemma ReceiveNeutral(early: bool, entered: bool, legacy: bool, received: Received, counted: bool)
    ensures Neutral(early, {}, OpsOf(Receive(entered, legacy, received, counted)))
  {
    NeutralNothing(early, {});
    NeutralCount(early, {});
    NeutralGuard(early, {}, Lifecycle, []);
    ReceivedNeutral(early, received);
    hide Neutral, Guard, ReceivedOps, Count;
    var a, b, c, d := When(legacy, Count()), ReceivedOps(received), When(counted, Count()), Guard(Lifecycle, []);
    NeutralFour(early, {}, a, b, c, d);
    NeutralConcat(early, {}, Guard(Lifecycle, []), When(entered, a + b + c + d));
  }

  function HandOver(waits: nat): seq<Op> {
    [Acquire(Lifecycle)] + Waits(Lifecycle, waits) + [Acquire(Send)] + [Release(Lifecycle)]
  }

  /** Shutdown hands over from the lifecycle mutex to the send mutex. */
  lemma HandOverClimbs(early: bool, waits: nat)
    ensures Climbs(early, {}, HandOver(waits)) && After({}, HandOver(waits)) == {Send}
  {
    var l, both: set<Mutex> := {Lifecycle}, {Lifecycle, Send};
    NeutralWaits(early, l, Lifecycle, waits);
    TakesOne(early, {}, Lifecycle);
    TakesOne(early, l, Send);
    GivesOne(early, both, Lifecycle);
    assert {} + {Lifecycle} == l && l + {Send} == both && both - {Lifecycle} == {Send};
    var a, b, c, d := [Acquire(Lifecycle)], Waits(Lifecycle, waits), [Acquire(Send)], [Release(Lifecycle)];
    hide Climbs, After, Waits;
    Concat(early, {}, a, b);
    Concat(early, {}, a + b, c);
    Concat(early, {}, a + b + c, d);
  }

  lemma ShutDownNeutral(early: bool, waits: nat, connected: bool)
    requires !early
    ensures Neutral(early, {}, OpsOf(ShutDown(waits, connected)))
  {
    hide ResetPorts;
    var s: set<Mutex> := {Send};
    HandOverClimbs(early, waits);
    ResetPortsNeutral(early, s, true, PORTS);
    NeutralNothing(early, s);
    NeutralGuard(early, s, Transport, []);
    GivesOne(early, s, Send);
    NeutralGuard(early, {}, Status, []);
    var a, e, f := HandOver(waits), ResetPorts(true, PORTS), When(connected, Guard(Transport, []));
    var g, h := [Release(Send)], Guard(Status, []);
    assert OpsOf(ShutDown(waits, connected)) == a + e + f + g + h;
    assert s - {Send} == {};
    hide Climbs, After, HandOver, ResetPorts, Guard;
    Concat(early, {}, a, e);
    Concat(early, {}, a + e, f);
    Concat(early, {}, a + e + f, g);
    Concat(early, {}, a + e + f + g, h);
  }

  lemma InitialiseNeutral(early: bool, again: bool, transports: nat, dropped: bool)
    ensures Neutral(early, {}, OpsOf(Initialise(again, transports, dropped)))
  {
    hide ResetPorts;
    NeutralNothing(early, {});
    NeutralGuard(early, {}, Lifecycle, []);
    ResetPortsNeutral(early, {}, true, PORTS);
    TransportNeutral(early, {}, transports);
    hide Neutral, ResetPorts, Guard, UseTransport;
    NeutralFour(early, {}, Guard(Lifecycle, []), When(again, ResetPorts(true, PORTS)), UseTransport(transports),
                When(dropped, Guard(Lifecycle, [])));
  }

  /** Whether the call keeps to the ranks: the shutdown with devices late, the opening with devices early. */
  predicate Suits(early: bool, c: Call) {
    if early then !c.ShutDown? else !(c.OpenDevice? && c.configure)
  }

  lemma CallNeutral(early: bool, c: Call)
    requires Suits(early, c)
    ensures Neutral(early, {}, OpsOf(c))
  {
    match c
    case Ask(p, attempts, timedOut) => AskNeutral(early, {}, p, attempts, timedOut);
    case OpenDevice(p, configure, attempts, timedOut) =>
      if configure {
        AskNeutral(early, {Device(p)}, p, attempts, timedOut);
      }
      assert {} + {Device(p)} == {Device(p)};
      NeutralGuard(early, {}, Device(p), When(configure, AskOps(p, attempts, timedOut)));
    case Tell(transports, sent) =>
      NeutralGuard(early, {}, Sequence, []);
      SendNeutral(early, {}, transports, sent);
      NeutralConcat(early, {}, Guard(Sequence, []), SendFrame(transports, sent));
    case Receive(entered, legacy, received, counted) => ReceiveNeutral(early, entered, legacy, received, counted);
    case ShutDown(waits, connected) => ShutDownNeutral(early, waits, connected);
    case Initialise(again, transports, dropped) => InitialiseNeutral(early, again, transports, dropped);
    case WithStatus(waits) =>
      assert {} + {Status} == {Status};
      NeutralWaits(early, {Status}, Status, waits);
      NeutralGuard(early, {}, Status, Waits(Status, waits));
    case ReadTelemetry => NeutralGuard(early, {}, Telemetry, []);
    case ReadStats => NeutralGuard(early, {}, Stats, []);
    case UseLink(transports) => TransportNeutral(early, {}, transports);
  }
}
