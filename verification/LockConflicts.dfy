/** Exactly when calls of the link can block one another for good: one thread configures a device
    while another one shuts the link down. */
module LockConflicts {
  import opened Locks

  predicate Configures(calls: seq<Call>) { exists c <- calls :: c.OpenDevice? && c.configure }

  predicate ShutsDown(calls: seq<Call>) { exists c <- calls :: c.ShutDown? }

  /** One thread configures a device, and a different one shuts down. */
  predicate Conflict(programs: seq<seq<Call>>) {
    exists i: nat, j: nat ::
      i < |programs| && j < |programs| && i != j && Configures(programs[i]) && ShutsDown(programs[j])
  }

  function Starts(programs: seq<seq<Call>>): (s: seq<Thread>)
    ensures |s| == |programs| && forall i :: 0 <= i < |s| ==> s[i] == Thread({}, Program(programs[i]))
  {
    seq(|programs|, i requires 0 <= i < |programs| => Thread({}, Program(programs[i])))
  }

  // ----- without a conflict nobody blocks for good -----

  /** The thread has begun the first k of its calls and has n operations of the k-th still to do. */
  ghost predicate Inside(t: Thread, calls: seq<Call>, k: nat, n: nat) {
    && k <= |calls| && n <= |t.rest| && (k == 0 ==> n == 0)
    && t.rest[n..] == Program(calls[k..])
    && After(t.held, t.rest[..n]) == {}
    && (n > 0 ==> forall early :: Suits(early, calls[k - 1]) ==> Climbs(early, t.held, t.rest[..n]))
  }

  ghost predicate Somewhere(t: Thread, calls: seq<Call>) {
    exists k: nat, n: nat :: Inside(t, calls, k, n)
  }

  ghost predicate AllInside(programs: seq<seq<Call>>, s: seq<Thread>) {
    && |s| == |programs|
    && (forall i :: 0 <= i < |s| ==> Somewhere(s[i], programs[i]))
    && (forall i, j :: 0 <= i < j < |s| ==> s[i].held !! s[j].held)
  }

  /** Between two calls, the thread is at the start of its next call that does anything. */
  lemma {:induction false} NextCall(t: Thread, calls: seq<Call>, k: nat) returns (k': nat, n: nat)
    requires Inside(t, calls, k, 0) && t.rest != []
    ensures n > 0 && Inside(t, calls, k', n)
    decreases |calls| - k
  {
    assert t.rest[0..] == t.rest && t.rest[..0] == [];
    var ops, later := OpsOf(calls[k]), Program(calls[k + 1..]);
    assert calls[k..][1..] == calls[k + 1..];
    assert t.rest == ops + later;
    if ops == [] {
      assert t.rest == later;
      k', n := NextCall(t, calls, k + 1);
    } else {
      k', n := k + 1, |ops|;
      assert t.rest[..n] == ops && t.rest[n..] == later;
      forall early | Suits(early, calls[k])
        ensures Neutral(early, {}, ops)
      {
        CallNeutral(early, calls[k]);
      }
      assert Suits(calls[k].OpenDevice?, calls[k]);
    }
  }

  lemma StepInside(t: Thread, calls: seq<Call>, k: nat, n: nat)
    requires Inside(t, calls, k, n) && n > 0
    ensures Inside(Stepped(t), calls, k, n - 1)
  {
    var t' := Stepped(t);
    var ahead := t.rest[..n];
    assert ahead[0] == t.rest[0] && ahead[1..] == t'.rest[..n - 1];
    assert t'.rest[n - 1..] == t.rest[n..];
    assert After(t.held, ahead) == After(t'.held, ahead[1..]);
    forall early | Suits(early, calls[k - 1])
      ensures Climbs(early, t'.held, ahead[1..])
    {
      assert Climbs(early, t.held, ahead);
    }
  }

  lemma StepSomewhere(t: Thread, calls: seq<Call>)
    requires Somewhere(t, calls) && t.rest != []
    ensures Somewhere(Stepped(t), calls)
  {
    var k: nat, n: nat :| Inside(t, calls, k, n);
    if n == 0 {
      k, n := NextCall(t, calls, k);
    }
    StepInside(t, calls, k, n);
  }

  lemma StepAllInside(programs: seq<seq<Call>>, s: seq<Thread>, s': seq<Thread>)
    requires AllInside(programs, s) && CanBecome(s, s')
    ensures AllInside(programs, s')
  {
    hide Somewhere;
    var i: nat :| i < |s| && Enabled(s, i) && s' == s[i := Stepped(s[i])];
    StepSomewhere(s[i], programs[i]);
  }

  lemma {:induction false} RunAllInside(programs: seq<seq<Call>>, run: seq<seq<Thread>>)
    requires IsRun(run) && AllInside(programs, run[0])
    ensures AllInside(programs, run[|run| - 1])
  {
    hide AllInside, CanBecome;
    if |run| > 1 {
      RunAllInside(programs, run[..|run| - 1]);
      StepAllInside(programs, run[|run| - 2], run[|run| - 1]);
    }
  }

  /** The thread is inside a call that configures a device. */
  ghost predicate Configuring(t: Thread, calls: seq<Call>) {
    exists k: nat, n: nat :: Inside(t, calls, k, n) && n > 0 && calls[k - 1].OpenDevice? && calls[k - 1].configure
  }

  lemma InsideEscapes(early: bool, t: Thread, calls: seq<Call>, k: nat, n: nat)
    requires Inside(t, calls, k, n) && (n > 0 ==> Suits(early, calls[k - 1]))
    ensures Escapes(early, t)
  {
    hide Climbs, Suits;
    if n == 0 {
      hide After;
      NothingAhead(early, t);
    }
    assert n <= |t.rest| && Climbs(early, t.held, t.rest[..n]) && After(t.held, t.rest[..n]) == {};
  }

  lemma NothingAhead(early: bool, t: Thread)
    ensures t.rest[..0] == [] && Climbs(early, t.held, []) && After(t.held, []) == t.held
  {
  }

  /** While a thread configures a device, no other thread is in a shutdown. */
  lemma NobodyShutsDown(programs: seq<seq<Call>>, s: seq<Thread>, j: nat, i: nat, k: nat)
    requires |s| == |programs| && !Conflict(programs) && i < |s| && j < |s| && i != j && Configuring(s[j], programs[j])
    requires 0 < k <= |programs[i]|
    ensures !programs[i][k - 1].ShutDown?
  {
    var k', n' :| Inside(s[j], programs[j], k', n') && n' > 0 && programs[j][k' - 1].OpenDevice? && programs[j][k' - 1].configure;
    assert programs[j][k' - 1] in programs[j] && programs[i][k - 1] in programs[i];
    assert Configures(programs[j]);
  }

  /** At any moment all threads keep to one and the same order: devices come early exactly while
      some thread configures one, and then no other thread ever shuts down. */
  lemma OneOrder(programs: seq<seq<Call>>, s: seq<Thread>, i: nat, early: bool)
    requires AllInside(programs, s) && !Conflict(programs) && i < |s|
    requires early <==> exists j: nat :: j < |s| && Configuring(s[j], programs[j])
    ensures Escapes(early, s[i])
  {
    hide Escapes, Conflict, Climbs, After;
    var calls := programs[i];
    if Configuring(s[i], calls) {
      var k: nat, n: nat :| Inside(s[i], calls, k, n) && n > 0 && calls[k - 1].OpenDevice? && calls[k - 1].configure;
      InsideEscapes(early, s[i], calls, k, n);
    } else {
      var k: nat, n: nat :| Inside(s[i], calls, k, n);
      if n > 0 && early {
        var j: nat :| j < |s| && Configuring(s[j], programs[j]);
        NobodyShutsDown(programs, s, j, i, k);
      }
      InsideEscapes(early, s[i], calls, k, n);
    }
  }

  /** Any number of threads making any calls of the link in any interleaving never all wait for
      mutexes of one another, unless one configures a device and a different one shuts down. */
  lemma LinkNeverStuck(programs: seq<seq<Call>>)
    requires !Conflict(programs)
    ensures !CanStick(Starts(programs))
  {
    var start := Starts(programs);
    forall i | 0 <= i < |start|
      ensures Somewhere(start[i], programs[i])
    {
      assert programs[i][0..] == programs[i] && start[i].rest[0..] == start[i].rest;
      assert Inside(start[i], programs[i], 0, 0);
    }
    forall s: seq<Thread> | Reaches(start, s)
      ensures !Stuck(s)
    {
      var run :| IsRun(run) && run[0] == start && run[|run| - 1] == s;
      RunAllInside(programs, run);
      if !Finished(s) {
        var early := exists j: nat :: j < |s| && Configuring(s[j], programs[j]);
        forall j | 0 <= j < |s|
          ensures Escapes(early, s[j])
        {
          OneOrder(programs, s, j, early);
        }
        var i :| 0 <= i < |s| && s[i].rest != [];
        SomebodyMoves(early, s, i);
      }
    }
  }

  // ----- threads going on alone -----

  lemma ReachesThrough(a: seq<Thread>, b: seq<Thread>, c: seq<Thread>)
    requires Reaches(a, b) && Reaches(b, c)
    ensures Reaches(a, c)
  {
    var r :| IsRun(r) && r[0] == a && r[|r| - 1] == b;
    var q :| IsRun(q) && q[0] == b && q[|q| - 1] == c;
    var run := r + q[1..];
    assert forall k :: |r| <= k < |run| ==> run[k] == q[k - |r| + 1];
    forall k | 0 < k < |run|
      ensures CanBecome(run[k - 1], run[k])
    {
      if k >= |r| {
        assert run[k - 1] == q[k - |r|];
      }
    }
  }

  /** A thread goes on alone as long as nobody else holds what it takes. */
  lemma {:induction false} Alone(early: bool, s: seq<Thread>, i: nat, ops: seq<Op>, later: seq<Op>)
    requires i < |s| && s[i].rest == ops + later && Climbs(early, s[i].held, ops)
    requires forall op <- ops :: op.Acquire? ==> forall j :: 0 <= j < |s| && j != i ==> op.m !in s[j].held
    ensures Reaches(s, s[i := Thread(After(s[i].held, ops), later)])
    decreases |ops|
  {
    if |ops| == 0 {
      assert ops + later == later;
      assert s[i := Thread(s[i].held, later)] == s;
      assert IsRun([s]) && [s][0] == s;
    } else {
      var s1 := s[i := Stepped(s[i])];
      assert (ops + later)[0] == ops[0] && (ops + later)[1..] == ops[1..] + later;
      assert Enabled(s, i) by {
        assert ops[0] in ops;
      }
      assert CanBecome(s, s1);
      var run := [s, s1];
      assert IsRun(run) && run[0] == s && run[|run| - 1] == s1;
      Alone(early, s1, i, ops[1..], later);
      ReachesThrough(s, s1, s1[i := Thread(After(s1[i].held, ops[1..]), later)]);
      assert s1[i := Thread(After(s1[i].held, ops[1..]), later)] == s[i := Thread(After(s[i].held, ops), later)];
    }
  }

  lemma {:induction false} ResetPortsTakes(n: nat)
    ensures forall op <- ResetPorts(true, n) :: op.Acquire? ==> (op.m.Slot? || op.m.Device?) && op.m.port < n
  {
    if n != 0 {
      ResetPortsTakes(n - 1);
    }
  }

  /** The loop over the ports passes each of them. */
  lemma {:induction false} ResetPortsPasses(p: nat, n: nat) returns (later: seq<Op>)
    requires p < n
    ensures ResetPorts(true, n) == ResetPorts(true, p) + Guard(Slot(p), []) + ([Acquire(Device(p))] + later)
  {
    if p == n - 1 {
      later := [Release(Device(p))];
      assert Guard(Device(p), []) == [Acquire(Device(p))] + later;
    } else {
      later := ResetPortsPasses(p, n - 1);
      var last := Guard(Slot(n - 1), []) + Guard(Device(n - 1), []);
      assert ResetPorts(true, n) == ResetPorts(true, n - 1) + last;
      later := later + last;
    }
  }

  function OpenerPrefix(p: nat): seq<Op> {
    [Acquire(Device(p))] + [Acquire(Request(p))] + Guard(Sequence, []) + Guard(Slot(p), []) + Guard(Slot(p), [])
  }

  lemma OpenerPrefixClimbs(p: nat)
    ensures Climbs(true, {}, OpenerPrefix(p)) && After({}, OpenerPrefix(p)) == {Device(p), Request(p)}
  {
    var d, r := [Acquire(Device(p))], [Acquire(Request(p))];
    var n, t := Guard(Sequence, []), Guard(Slot(p), []);
    var held := {Device(p), Request(p)};
    TakesOne(true, {}, Device(p));
    TakesOne(true, {Device(p)}, Request(p));
    assert {} + {Device(p)} == {Device(p)} && {Device(p)} + {Request(p)} == held;
    NeutralNothing(true, held + {Sequence});
    NeutralNothing(true, held + {Slot(p)});
    NeutralGuard(true, held, Sequence, []);
    NeutralGuard(true, held, Slot(p), []);
    hide Climbs, After, Guard;
    Concat(true, {}, d, r);
    Concat(true, {}, d + r, n);
    Concat(true, {}, d + r + n, t);
    Concat(true, {}, d + r + n + t, t);
  }

  lemma OpenerUpToSend(p: Port, attempts: seq<Attempt>, timedOut: bool) returns (later: seq<Op>)
    requires |attempts| > 0 && attempts[0].pending
    ensures OpsOf(OpenDevice(p, true, attempts, timedOut)) == OpenerPrefix(p) + later
    ensures later != [] && later[0] == Acquire(Send)
  {
    var m := SendingThenWaiting(p, attempts[0]);
    var t, q := Guard(Slot(p), []), [Acquire(Send)];
    var others, ending := Attempts(p, attempts[1..]), Guard(Slot(p), When(timedOut, Count()));
    assert Attempts(p, attempts) == t + (q + m) + others;
    OpenerIs(p, attempts, timedOut, Attempts(p, attempts));
    hide OpsOf, Guard, Attempts;
    var u, v := [Release(Request(p))], [Release(Device(p))];
    later := q + (m + others + ending + u + v);
    RegroupOpener([Acquire(Device(p))], [Acquire(Request(p))], Guard(Sequence, []), t, q, m, others, ending, u, v);
  }

  lemma SendingThenWaiting(p: Port, s: Attempt) returns (m: seq<Op>)
    requires s.pending
    ensures AttemptOps(p, s) == Guard(Slot(p), []) + ([Acquire(Send)] + m)
  {
    var sending := UseTransport(s.transports) + [Release(Send)] + When(s.sent, Count());
    var waiting := When(s.sent, Guard(Slot(p), Waits(Slot(p), s.waits)) + When(s.retried, Count()));
    m := sending + waiting;
    assert SendFrame(s.transports, s.sent) + waiting == [Acquire(Send)] + m;
  }

  lemma RegroupOpener(d: seq<Op>, r: seq<Op>, n: seq<Op>, t: seq<Op>, q: seq<Op>, m: seq<Op>, o: seq<Op>, e: seq<Op>,
                      u: seq<Op>, v: seq<Op>)
    ensures d + (r + (n + t + (t + (q + m) + o) + e) + u) + v == d + r + n + t + t + (q + (m + o + e + u + v))
  {
    assert n + t + (t + (q + m) + o) + e == n + t + t + (q + (m + o + e));
  }

  lemma RegroupShutdown(a: seq<Op>, e: seq<Op>, f: seq<Op>, q: seq<Op>, r: seq<Op>, w: seq<Op>, g: seq<Op>, h: seq<Op>)
    ensures a + (e + f + (q + r)) + w + g + h == a + e + f + (q + (r + w + g + h))
  {
  }

  lemma OpenerIs(p: Port, attempts: seq<Attempt>, timedOut: bool, middle: seq<Op>)
    requires middle == Attempts(p, attempts)
    ensures OpsOf(OpenDevice(p, true, attempts, timedOut))
         == [Acquire(Device(p))] + ([Acquire(Request(p))] + (Guard(Sequence, []) + Guard(Slot(p), []) + middle
                     + Guard(Slot(p), When(timedOut, Count()))) + [Release(Request(p))]) + [Release(Device(p))]
  {
  }

  function ShutdownPrefix(p: nat, waits: nat): seq<Op> {
    HandOver(waits) + ResetPorts(true, p) + Guard(Slot(p), [])
  }

  lemma ShutdownPrefixClimbs(p: nat, waits: nat)
    ensures Climbs(false, {}, ShutdownPrefix(p, waits)) && After({}, ShutdownPrefix(p, waits)) == {Send}
  {
    hide ResetPorts;
    var s: set<Mutex> := {Send};
    HandOverClimbs(false, waits);
    ResetPortsNeutral(false, s, true, p);
    NeutralNothing(false, s + {Slot(p)});
    NeutralGuard(false, s, Slot(p), []);
    hide Climbs, After, HandOver, ResetPorts, Guard;
    Concat(false, {}, HandOver(waits), ResetPorts(true, p));
    Concat(false, {}, HandOver(waits) + ResetPorts(true, p), Guard(Slot(p), []));
  }

  lemma ShutdownPrefixTakes(p: nat, waits: nat)
    ensures forall op <- ShutdownPrefix(p, waits) :: op.Acquire? ==> op.m != Request(p) && op.m != Device(p)
  {
    hide ResetPorts;
    WaitsTakes(Lifecycle, waits);
    ResetPortsTakes(p);
    assert forall op <- HandOver(waits) :: op.m == Lifecycle || op.m == Send;
    assert forall op <- Guard(Slot(p), []) :: op.m == Slot(p);
    hide HandOver, ResetPorts, Guard;
  }

  lemma ShutdownUpToDevice(p: nat, waits: nat, connected: bool) returns (later: seq<Op>)
    requires p < PORTS
    ensures OpsOf(ShutDown(waits, connected)) == ShutdownPrefix(p, waits) + later
    ensures later != [] && later[0] == Acquire(Device(p))
  {
    hide ResetPorts;
    var rest := ResetPortsPasses(p, PORTS);
    var q, w, g, h := [Acquire(Device(p))], When(connected, Guard(Transport, [])), [Release(Send)], Guard(Status, []);
    assert OpsOf(ShutDown(waits, connected)) == HandOver(waits) + ResetPorts(true, PORTS) + w + g + h;
    RegroupShutdown(HandOver(waits), ResetPorts(true, p), Guard(Slot(p), []), q, rest, w, g, h);
    hide HandOver, ResetPorts, Guard, OpsOf;
    later := q + (rest + w + g + h);
  }

  lemma {:induction false} WaitsTakes(m: Mutex, n: nat)
    ensures forall op <- Waits(m, n) :: op.m == m
  {
    if n != 0 {
      WaitsTakes(m, n - 1);
    }
  }

  // ----- with a conflict two threads can -----

  /** While nobody holds anything, a thread gets through its calls alone. */
  lemma {:induction false} CallsAlone(s: seq<Thread>, i: nat, calls: seq<Call>, later: seq<Op>)
    requires forall k :: 0 <= k < |s| ==> s[k].held == {}
    requires i < |s| && s[i].rest == Program(calls) + later
    ensures Reaches(s, s[i := Thread({}, later)])
    decreases |calls|
  {
    if calls == [] {
      assert s[i].rest == later && s[i := Thread({}, later)] == s;
      assert IsRun([s]) && [s][0] == s;
    } else {
      var c, rest := calls[0], Program(calls[1..]) + later;
      var early := c.OpenDevice?;
      CallNeutral(early, c);
      assert s[i].rest == OpsOf(c) + rest;
      hide Reaches, Climbs, After, OpsOf, Program;
      Alone(early, s, i, OpsOf(c), rest);
      var s' := s[i := Thread({}, rest)];
      CallsAlone(s', i, calls[1..], later);
      assert s'[i := Thread({}, later)] == s[i := Thread({}, later)];
      ReachesThrough(s, s', s'[i := Thread({}, later)]);
    }
  }

  lemma Joined(a: seq<Op>, b: seq<Op>, c: seq<Op>)
    ensures a + b + c == a + (b + c)
  {
  }

  lemma {:induction false} ProgramConcat(a: seq<Call>, b: seq<Call>)
    ensures Program(a + b) == Program(a) + Program(b)
  {
    hide OpsOf;
    if a == [] {
      assert a + b == b;
    } else {
      ProgramConcat(a[1..], b);
      assert (a + b)[0] == a[0] && (a + b)[1..] == a[1..] + b;
      Joined(OpsOf(a[0]), Program(a[1..]), Program(b));
    }
  }

  /** One thread makes its first n calls while the others stay where they are. */
  lemma FirstCalls(programs: seq<seq<Call>>, i: nat, n: nat)
    requires i < |programs| && n <= |programs[i]|
    ensures Reaches(Starts(programs), Starts(programs[i := programs[i][n..]]))
  {
    hide Reaches, Program, Starts;
    var calls := programs[i];
    ProgramConcat(calls[..n], calls[n..]);
    assert calls[..n] + calls[n..] == calls;
    CallsAlone(Starts(programs), i, calls[..n], Program(calls[n..]));
    StartsUpdated(programs, i, calls[n..]);
  }

  lemma StartsUpdated(programs: seq<seq<Call>>, i: nat, calls: seq<Call>)
    requires i < |programs|
    ensures Starts(programs)[i := Thread({}, Program(calls))] == Starts(programs[i := calls])
  {
    hide Program;
  }

  /** All but two threads done, among the first n. */
  function Others(programs: seq<seq<Call>>, i: nat, j: nat, n: nat): (r: seq<seq<Call>>)
    ensures |r| == |programs|
    ensures forall k :: 0 <= k < |r| ==> r[k] == if k < n && k != i && k != j then [] else programs[k]
  {
    seq(|programs|, k requires 0 <= k < |programs| => if k < n && k != i && k != j then [] else programs[k])
  }

  lemma {:induction false} OthersFinish(programs: seq<seq<Call>>, i: nat, j: nat, n: nat)
    requires n <= |programs|
    ensures Reaches(Starts(programs), Starts(Others(programs, i, j, n)))
    decreases n
  {
    if n == 0 {
      assert Others(programs, i, j, 0) == programs;
      var s := Starts(programs);
      assert IsRun([s]) && [s][0] == s;
    } else {
      hide Reaches;
      var before := Others(programs, i, j, n - 1);
      OthersFinish(programs, i, j, n - 1);
      if n - 1 != i && n - 1 != j {
        FirstCalls(before, n - 1, |programs[n - 1]|);
        assert before[n - 1 := before[n - 1][|programs[n - 1]|..]] == Others(programs, i, j, n);
        ReachesThrough(Starts(programs), Starts(before), Starts(Others(programs, i, j, n)));
      } else {
        assert before == Others(programs, i, j, n);
      }
    }
  }

  /** Two threads, each of which comes to want what the other then holds; the rest are done. */
  lemma CircularWait(s: seq<Thread>, i: nat, a: seq<Op>, x: seq<Op>, m: Mutex, others: set<Mutex>,
                     j: nat, b: seq<Op>, y: seq<Op>, n: Mutex)
    requires i < |s| && j < |s| && i != j && s[i] == Thread({}, a + x) && s[j] == Thread({}, b + y)
    requires forall k :: 0 <= k < |s| && k != i && k != j ==> s[k] == Thread({}, [])
    requires Climbs(true, {}, a) && After({}, a) == {n} + others && x != [] && x[0] == Acquire(m)
    requires Climbs(false, {}, b) && After({}, b) == {m} && y != [] && y[0] == Acquire(n)
    requires forall op <- b :: op.Acquire? ==> op.m != n && op.m !in others
    ensures CanStick(s)
  {
    hide Reaches, Climbs, After;
    var s1 := s[i := Thread({n} + others, x)];
    var s2 := s1[j := Thread({m}, y)];
    Alone(true, s, i, a, x);
    Alone(false, s1, j, b, y);
    ReachesThrough(s, s1, s2);
    assert m in s2[j].held && n in s2[i].held;
    assert !Enabled(s2, i) && !Enabled(s2, j);
    assert s2[i].rest != [];
    assert Stuck(s2);
  }

  /** Opening a device on any port while another thread shuts the link down can block both for
      good, whatever else the threads do before or after and whatever other threads there are:
      the opener holds the device mutex and wants to send, the shutdown holds the send mutex and
      wants to clear the device. */
  lemma OpenDuringShutdownCanStick(programs: seq<seq<Call>>, i: nat, a: nat, j: nat, b: nat)
    requires i < |programs| && j < |programs| && i != j && a < |programs[i]| && b < |programs[j]|
    requires programs[i][a].OpenDevice? && programs[i][a].configure && SendsFirst(programs[i][a].attempts)
    requires programs[j][b].ShutDown?
    ensures CanStick(Starts(programs))
  {
    hide Reaches, OpsOf;
    var alone := Others(programs, i, j, |programs|);
    OthersFinish(programs, i, j, |programs|);
    var opening := alone[i := programs[i][a..]];
    FirstCalls(alone, i, a);
    var both := opening[j := programs[j][b..]];
    FirstCalls(opening, j, b);
    ReachesThrough(Starts(programs), Starts(alone), Starts(opening));
    ReachesThrough(Starts(programs), Starts(opening), Starts(both));
    BothAtTheirCalls(both, i, j);
    var s :| Reaches(Starts(both), s) && Stuck(s);
    ReachesThrough(Starts(programs), Starts(both), s);
  }

  predicate SendsFirst(attempts: seq<Attempt>) { |attempts| > 0 && attempts[0].pending }

  lemma ProgramSplits(calls: seq<Call>, ops: seq<Op>, later: seq<Op>) returns (rest: seq<Op>)
    requires calls != [] && OpsOf(calls[0]) == ops + later
    ensures Program(calls) == ops + rest && (later != [] ==> rest != [] && rest[0] == later[0])
  {
    hide OpsOf;
    rest := later + Program(calls[1..]);
  }

  /** One thread about to open a device, one about to shut down, the rest done. */
  lemma BothAtTheirCalls(programs: seq<seq<Call>>, i: nat, j: nat)
    requires i < |programs| && j < |programs| && i != j && programs[i] != [] && programs[j] != []
    requires programs[i][0].OpenDevice? && programs[i][0].configure && SendsFirst(programs[i][0].attempts)
    requires programs[j][0].ShutDown?
    requires forall k :: 0 <= k < |programs| && k != i && k != j ==> programs[k] == []
    ensures CanStick(Starts(programs))
  {
    hide OpsOf, Climbs, After, OpenerPrefix, ShutdownPrefix, CanStick;
    var c, d := programs[i][0], programs[j][0];
    var p := c.port;
    var wantSend := OpenerUpToSend(p, c.attempts, c.timedOut);
    OpenerPrefixClimbs(p);
    var wantDevice := ShutdownUpToDevice(p, d.waits, d.connected);
    ShutdownPrefixClimbs(p, d.waits);
    ShutdownPrefixTakes(p, d.waits);
    var x := ProgramSplits(programs[i], OpenerPrefix(p), wantSend);
    var y := ProgramSplits(programs[j], ShutdownPrefix(p, d.waits), wantDevice);
    assert {Device(p)} + {Request(p)} == {Device(p), Request(p)};
    assert forall op <- ShutdownPrefix(p, d.waits) :: op.Acquire? ==> op.m != Device(p) && op.m !in {Request(p)};
    CircularWait(Starts(programs), i, OpenerPrefix(p), x, Send, {Request(p)}, j, ShutdownPrefix(p, d.waits), y, Device(p));
  }

  // ----- the exact condition -----

  /** The same call, whatever answers, waits and retries it meets. */
  predicate SameCall(c: Call, d: Call) {
    match (c, d)
    case (Ask(p, _, _), Ask(q, _, _)) => p == q
    case (OpenDevice(p, x, _, _), OpenDevice(q, y, _, _)) => p == q && x == y
    case (Tell(_, _), Tell(_, _)) => true
    case (Receive(_, _, _, _), Receive(_, _, _, _)) => true
    case (ShutDown(_, _), ShutDown(_, _)) => true
    case (Initialise(_, _, _), Initialise(_, _, _)) => true
    case (WithStatus(_), WithStatus(_)) => true
    case (UseLink(_), UseLink(_)) => true
    case _ => c == d
  }

  ghost predicate SameCalls(plans: seq<seq<Call>>, programs: seq<seq<Call>>) {
    && |plans| == |programs|
    && (forall i :: 0 <= i < |plans| ==> |plans[i]| == |programs[i]|)
    && forall i, k :: 0 <= i < |plans| && 0 <= k < |plans[i]| ==> SameCall(plans[i][k], programs[i][k])
  }

  lemma SameConflict(plans: seq<seq<Call>>, programs: seq<seq<Call>>)
    requires SameCalls(plans, programs) && Conflict(programs)
    ensures Conflict(plans)
  {
    hide Starts;
    var i: nat, j: nat :| i < |programs| && j < |programs| && i != j && Configures(programs[i]) && ShutsDown(programs[j]);
    var k :| 0 <= k < |programs[i]| && programs[i][k].OpenDevice? && programs[i][k].configure;
    var n :| 0 <= n < |programs[j]| && programs[j][n].ShutDown?;
    assert SameCall(plans[i][k], programs[i][k]) && SameCall(plans[j][n], programs[j][n]);
    assert plans[i][k] in plans[i] && plans[j][n] in plans[j];
  }

  /** The plans with the first attempt of every opening sent. */
  function Sending(calls: seq<Call>): (r: seq<Call>)
    ensures |r| == |calls|
    ensures forall k :: 0 <= k < |r| ==> SameCall(calls[k], r[k])
    ensures forall k :: 0 <= k < |r| && r[k].OpenDevice? ==> SendsFirst(r[k].attempts)
  {
    seq(|calls|, k requires 0 <= k < |calls| =>
      if calls[k].OpenDevice? then calls[k].(attempts := [Attempt(true, 1, true, 0, false)]) else calls[k])
  }

  function AllSending(plans: seq<seq<Call>>): (r: seq<seq<Call>>)
    ensures |r| == |plans| && forall i :: 0 <= i < |r| ==> r[i] == Sending(plans[i])
  {
    seq(|plans|, i requires 0 <= i < |plans| => Sending(plans[i]))
  }

  lemma AllSendingIsSame(plans: seq<seq<Call>>)
    ensures SameCalls(plans, AllSending(plans))
  {
    hide SameCall, Sending, AllSending;
    forall i, k | 0 <= i < |plans| && 0 <= k < |plans[i]|
      ensures SameCall(plans[i][k], AllSending(plans)[i][k])
    {
      assert AllSending(plans)[i] == Sending(plans[i]);
    }
  }

  lemma ConflictSticks(plans: seq<seq<Call>>)
    requires Conflict(plans)
    ensures CanStick(Starts(AllSending(plans)))
  {
    hide CanStick, Starts, SameCall, Sending, AllSending;
    var i: nat, j: nat :| i < |plans| && j < |plans| && i != j && Configures(plans[i]) && ShutsDown(plans[j]);
    var a :| 0 <= a < |plans[i]| && plans[i][a].OpenDevice? && plans[i][a].configure;
    var b :| 0 <= b < |plans[j]| && plans[j][b].ShutDown?;
    SameKind(plans[i][a], Sending(plans[i])[a]);
    SameKind(plans[j][b], Sending(plans[j])[b]);
    OpenDuringShutdownCanStick(AllSending(plans), i, a, j, b);
  }

  lemma SameKind(c: Call, d: Call)
    requires SameCall(c, d)
    ensures c.OpenDevice? ==> d.OpenDevice? && d.configure == c.configure
    ensures c.ShutDown? ==> d.ShutDown?
  {
  }

  /** Threads making given calls can come to block one another for good, by the schedule or by
      what the calls meet, if and only if one configures a device and a different one shuts down. */
  lemma CanStickIffConflict(plans: seq<seq<Call>>)
    ensures (exists programs :: SameCalls(plans, programs) && CanStick(Starts(programs))) <==> Conflict(plans)
  {
    hide CanStick, Starts, Conflict, SameCalls;
    forall programs | SameCalls(plans, programs) && CanStick(Starts(programs))
      ensures Conflict(plans)
    {
      if !Conflict(programs) {
        LinkNeverStuck(programs);
      }
      SameConflict(plans, programs);
    }
    if Conflict(plans) {
      ConflictSticks(plans);
      AllSendingIsSame(plans);
    }
  }
}
