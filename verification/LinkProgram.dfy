/** raspike_request and raspike_prot_shutdown as they are written, run among threads that do as
    they please between two blocks: block by block, they take the steps of the transition system. */
module LinkProgram {
  import opened Bytes
  import opened Errno
  import opened Link
  import opened LinkBlocks
  import opened LinkHistory
  import opened LinkTheorems
  import opened LinkReturns
  import Frame

  /** A step of this thread: the state before it and the state after. */
  datatype Move = Move(before: World, after: World)

  ghost predicate IsMove(t: Tid, m: Move) {
    exists a :: Step(m.before, t, a, m.after)
  }

  /** b starts where a has left thread t in its program. */
  ghost predicate Joined(t: Tid, a: Move, b: Move) {
    t in a.after.pcs && t in b.before.pcs && a.after.pcs[t] == b.before.pcs[t]
  }

  /** Moves of thread t, between which others change anything but its place in the program. */
  ghost predicate IsPath(t: Tid, moves: seq<Move>, from: Pc, to: Pc) {
    && (forall m <- moves :: IsMove(t, m) && t in m.before.pcs && t in m.after.pcs)
    && (moves == [] ==> from == to)
    && (moves != [] ==> moves[0].before.pcs[t] == from && moves[|moves| - 1].after.pcs[t] == to)
    && forall k :: 0 < k < |moves| ==> Joined(t, moves[k - 1], moves[k])
  }

  lemma PathGrows(t: Tid, moves: seq<Move>, from: Pc, m: Move)
    requires IsMove(t, m) && t in m.before.pcs && t in m.after.pcs && IsPath(t, moves, from, m.before.pcs[t])
    ensures IsPath(t, moves + [m], from, m.after.pcs[t])
  {
    hide IsMove, Step;
    var longer := moves + [m];
    assert forall n <- longer :: n in moves || n == m;
    forall k | 0 < k < |longer|
      ensures Joined(t, longer[k - 1], longer[k])
    {
      if k < |moves| {
        assert Joined(t, moves[k - 1], moves[k]);
      }
    }
  }

  predicate NotConnected(w: World) { w.sh.desc.None? || w.sh.stop }

  /** The transport's next answer. */
  function Answer(sends: seq<int>): int { if sends == [] then 0 else sends[0] }

  /** A result of the timed wait that ends it with an error. */
  predicate WaitBreaks(x: int) { x != 0 && x != EINTR && x != ETIMEDOUT }

  /** The error a request gets from a wait that ended so. */
  function ErrorOf(x: int): int { if x == ETIMEDOUT then 0 else if x > 0 then -x else x }

  predicate BrokeWith(waits: seq<int>, e: int) { exists x <- waits :: WaitBreaks(x) && e == ErrorOf(x) }

  /** Woken up for nothing, or by a signal. */
  predicate AllGoOn(waits: seq<int>) { forall x <- waits :: x == 0 || x == EINTR }

  /** The n-th result ended the wait, or the deadline came when all were used up. */
  predicate WaitOverAt(given: seq<int>, n: nat, error: int) {
    || (n == |given| && AllGoOn(given) && error == 0)
    || (0 < n <= |given| && AllGoOn(given[..n - 1]) && given[n - 1] != 0 && given[n - 1] != EINTR && error == ErrorOf(given[n - 1]))
  }

  ghost predicate EndsWait(given: seq<int>, after: seq<int>, over: bool, error: int) {
    exists n: nat :: n <= |given| && after == given[n..]
      && if over then WaitOverAt(given, n, error) else error == 0 && AllGoOn(given[..n])
  }

  lemma WaitBroke(given: seq<int>, after: seq<int>, over: bool, error: int)
    requires EndsWait(given, after, over, error)
    ensures forall x <- after :: x in given
    ensures error < 0 ==> BrokeWith(given, error)
  {
  }

  /** A move that takes the send mutex for a request. */
  predicate AtLock(t: Tid, m: Move) {
    t in m.before.pcs && m.before.pcs[t].Request? && m.before.pcs[t].q.Running? && m.before.pcs[t].q.pc.Lock?
  }

  function Unsent(j: Job, refused: bool, result: int): Job {
    Tried(j, result, if refused then Refused else SendFailed(result))
  }

  function Waited(j: Job, error: int): Job
    requires j.left > 0
  {
    (if error < 0 then Tried(j, error, WaitFailed(error)) else Tried(j, j.result, NoAnswer)).(left := j.left - 1)
  }

  function ReturnOf(t: Tid, j: Job, how: How, v2: bool, result: int, completed: bool): Event {
    RequestReturned(t, j.port, j.cmd, j.number, how, v2, result, completed, j.tries, j.allowed)
  }

  predicate SameRequest(j: Job, k: Job) {
    j.port == k.port && j.cmd == k.cmd && j.number == k.number && j.allowed == k.allowed
  }

  /** What made an attempt end the way it did. */
  ghost predicate Came(t: Tid, a: Try, sends: seq<int>, waits: seq<int>, moves: seq<Move>) {
    match a
    case Refused => exists m <- moves :: AtLock(t, m) && NotConnected(m.before)
    case SendFailed(e) => e < 0 && e in sends
    case WaitFailed(e) => e < 0 && BrokeWith(waits, e)
    case NoAnswer => true
  }

  /** The link connected whenever the call sends, every send accepted, no wait broken. */
  ghost predicate Calm(t: Tid, sends: seq<int>, waits: seq<int>, moves: seq<Move>) {
    && (forall m <- moves :: AtLock(t, m) ==> !NotConnected(m.before))
    && (forall x <- sends :: x >= 0)
    && (forall x <- waits :: !WaitBreaks(x))
  }

  /** One attempt more, and why it ended. */
  ghost predicate Attempted(t: Tid, j: Job, j': Job, concluding: bool, sends: seq<int>, waits: seq<int>, moves: seq<Move>) {
    && j.left > 0
    && if concluding then
         exists refused: bool, e: int :: j' == Unsent(j, refused, e) && e < 0 && (refused ==> e == -ENOTCONN)
           && Came(t, if refused then Refused else SendFailed(e), sends, waits, moves)
       else
         exists e: int :: j' == Waited(j, e) && (e < 0 ==> BrokeWith(waits, e))
  }

  /** What one attempt adds to the story of the ones before it. */
  lemma AttemptTold(t: Tid, allowed: nat, j: Job, j': Job, concluding: bool, sends: seq<int>, waits: seq<int>,
                    sends0: seq<int>, waits0: seq<int>, before: seq<Move>, moves: seq<Move>)
    requires Attempted(t, j, j', concluding, sends, waits, moves) && before <= moves
    requires (forall x <- sends :: x in sends0) && (forall x <- waits :: x in waits0)
    requires j.result == ResultOf(j.tries) && AllWaited(j.tries) && |j.tries| + j.left == allowed
    requires forall a <- j.tries :: Came(t, a, sends0, waits0, before)
    ensures SameRequest(j, j') && j'.result == ResultOf(j'.tries)
    ensures forall a <- j'.tries :: Came(t, a, sends0, waits0, moves)
    ensures if concluding then UsedUp(j'.tries, allowed) else |j'.tries| + j'.left == allowed && AllWaited(j'.tries)
    ensures !concluding ==> j'.left == j.left - 1
  {
    CameLater(t, j.tries, sends0, waits0, before, moves);
    var a := j'.tries[|j.tries|];
    assert j'.tries == j.tries + [a] && j'.tries[..|j'.tries| - 1] == j.tries;
    assert Came(t, a, sends0, waits0, moves);
  }

  lemma CameLater(t: Tid, tries: seq<Try>, sends: seq<int>, waits: seq<int>, before: seq<Move>, moves: seq<Move>)
    requires before <= moves && forall a <- tries :: Came(t, a, sends, waits, before)
    ensures forall a <- tries :: Came(t, a, sends, waits, moves)
  {
    assert forall m <- before :: m in moves;
  }

  /** In calm weather every attempt ends without an answer, and the result is a timeout. */
  lemma {:induction false} CalmTimesOut(t: Tid, tries: seq<Try>, sends: seq<int>, waits: seq<int>, moves: seq<Move>)
    requires Calm(t, sends, waits, moves) && forall a <- tries :: Came(t, a, sends, waits, moves)
    ensures ResultOf(tries) == -ETIMEDOUT
  {
    if tries != [] {
      var last := tries[|tries| - 1];
      assert last in tries && Came(t, last, sends, waits, moves);
      CalmTimesOut(t, tries[..|tries| - 1], sends, waits, moves);
    }
  }

  class Caller {
    const t: Tid
    const devices: seq<PortDevice>
    var w: World             // the shared state
    var script: seq<World>   // what the others will make of it
    var sends: seq<int>      // what the transport will answer
    var waits: seq<int>      // what the timed waits will return
    ghost var moves: seq<Move>

    constructor (t: Tid, devices: seq<PortDevice>, w: World, script: seq<World>, sends: seq<int>, waits: seq<int>)
      requires |devices| == PORTS && WellShaped(w) && t in w.pcs && w.pcs[t] == Idle
      requires forall i, j :: 0 <= i < j < PORTS ==> devices[i] != devices[j]
      requires forall i :: 0 <= i < PORTS ==> devices[i].Value() == w.slots[i]
      ensures Valid() && this.t == t && this.w == w && moves == []
    {
      this.t, this.devices, this.w, this.script, this.sends, this.waits := t, devices, w, script, sends, waits;
      moves := [];
    }

    ghost predicate Valid()
      reads this, devices
    {
      && |devices| == PORTS && WellShaped(w) && t in w.pcs
      && (forall i, j :: 0 <= i < j < PORTS ==> devices[i] != devices[j])
      && (forall i :: 0 <= i < PORTS ==> devices[i].Value() == w.slots[i])
      && IsPath(t, moves, Idle, w.pcs[t])
    }

    /** The others have their turn. */
    method Interfere()
      requires Valid()
      modifies this`w, this`script, devices
      ensures Valid() && w.pcs[t] == old(w.pcs[t])
      ensures |script| <= |old(script)| && (old(script) != [] ==> |script| < |old(script)|)
    {
      hide IsPath, IsMove, Step;
      if script == [] {
        return;
      }
      var next := script[0];
      script := script[1..];
      if t in next.pcs && next.pcs[t] == w.pcs[t] && |next.slots| == |next.locks.request| == PORTS
         && |next.regAt| == |next.doneAt| == PORTS {
        w := next;
        for i := 0 to PORTS
          invariant w == next && script == old(script)[1..]
          invariant forall k :: 0 <= k < i ==> devices[k].Value() == w.slots[k]
        {
          devices[i].Load(w.slots[i]);
        }
      }
    }

    /** The block just executed has made the shared state w'. */
    method Commit(w': World, ghost a: Action)
      requires |devices| == PORTS && WellShaped(w) && t in w.pcs && IsPath(t, moves, Idle, w.pcs[t])
      requires forall i, j :: 0 <= i < j < PORTS ==> devices[i] != devices[j]
      requires Step(w, t, a, w') && WellShaped(w') && t in w'.pcs
      requires forall i :: 0 <= i < PORTS ==> devices[i].Value() == w'.slots[i]
      modifies this`w, this`moves
      ensures Valid() && w == w' && moves == old(moves) + [Move(old(w), w')]
    {
      ghost var m := Move(w, w');
      assert IsMove(t, m);
      hide IsPath, IsMove, Step;
      PathGrows(t, moves, Idle, m);
      w := w';
      moves := moves + [m];
    }

    /** Takes the port's request mutex; false if it is never given up. */
    method LockRequest(p: nat, cmd: byte) returns (locked: bool)
      requires Valid() && p < PORTS && w.pcs[t] == Idle
      modifies this, devices
      ensures Valid() && w.pcs[t] == if locked then Request(Number(p, cmd)) else Idle
      ensures sends == old(sends) && waits == old(waits) && old(moves) <= moves && |moves| == |old(moves)| + (if locked then 1 else 0)
    {
      while w.locks.request[p].Some? && script != []
        invariant Valid() && w.pcs[t] == Idle && moves == old(moves) && sends == old(sends) && waits == old(waits)
        decreases |script|
      {
        Interfere();
      }
      if w.locks.request[p].Some? {
        return false;
      }
      Commit(At(w.(locks := w.locks.(request := w.locks.request[p := Some(t)])), t, Request(Number(p, cmd))), OfRequest(Start(p, cmd)));
      return true;
    }

    /** Draws a number and registers under it. */
    method Announce(p: nat, cmd: byte) returns (number: u32)
      requires Valid() && p < PORTS && w.pcs[t] == Request(Number(p, cmd))
      modifies this, devices
      ensures Valid() && w.pcs[t] == Request(Running(NewJob(p, cmd, number), Attempts))
      ensures sends == old(sends) && waits == old(waits) && old(moves) <= moves && |moves| == |old(moves)| + 2
    {
      hide Step, IsPath, IsMove;
      number := DrawNumber(p, cmd);
      Interfere();
      RegisterIt(p, cmd, number);
    }

    method DrawNumber(p: nat, cmd: byte) returns (number: u32)
      requires Valid() && p < PORTS && w.pcs[t] == Request(Number(p, cmd))
      modifies this, devices
      ensures Valid() && w.pcs[t] == Request(Register(p, cmd, number))
      ensures sends == old(sends) && waits == old(waits) && old(moves) <= moves && |moves| == |old(moves)| + 1
    {
      number := w.sh.nextSeq;
      Commit(At(Numbered(w), t, Request(Register(p, cmd, number))), OfRequest(Proceed));
    }

    method RegisterIt(p: nat, cmd: byte, number: u32)
      requires Valid() && p < PORTS && w.pcs[t] == Request(Register(p, cmd, number))
      modifies this, devices
      ensures Valid() && w.pcs[t] == Request(Running(NewJob(p, cmd, number), Attempts))
      ensures sends == old(sends) && waits == old(waits) && old(moves) <= moves && |moves| == |old(moves)| + 1
    {
      devices[p].Register(number);
      Commit(At(Logged(WithSlot(w, p, devices[p].Value()), RequestRegistered(t, p, cmd, number)).(regAt := w.regAt[p := |w.log|]),
                t, Request(Running(NewJob(p, cmd, number), Attempts))), OfRequest(Proceed));
    }

    /** Takes the send mutex unless there is nothing to send through; false if it is never given up. */
    method LockSend(j: Job) returns (locked: bool, refused: bool)
      requires Valid() && j.port < PORTS && w.pcs[t] == Request(Running(j, Lock))
      modifies this, devices
      ensures Valid()
      ensures locked && refused ==> w.pcs[t] == Request(Running(Tried(j, -ENOTCONN, Refused), Conclude(false)))
      ensures locked ==> |moves| == |old(moves)| + 1 && old(moves) <= moves
      ensures locked ==> AtLock(t, moves[|old(moves)|]) && refused == NotConnected(moves[|old(moves)|].before)
      ensures sends == old(sends) && waits == old(waits)
      ensures locked && !refused ==> w.pcs[t].Request? && w.pcs[t].q.Running? && w.pcs[t].q.job == j && w.pcs[t].q.pc.Sending?
    {
      while w.locks.send.Some? && script != []
        invariant Valid() && w.pcs[t] == Request(Running(j, Lock))
        invariant moves == old(moves) && sends == old(sends) && waits == old(waits)
        decreases |script|
      {
        Interfere();
      }
      if w.locks.send.Some? {
        return false, false;
      }
      if w.sh.desc.None? || w.sh.stop {
        Commit(JobAt(w, t, Tried(j, -ENOTCONN, Refused), Conclude(false)), OfRequest(Proceed));
        return true, true;
      }
      Commit(JobAt(w.(locks := w.locks.(send := Some(t))), t, j, Sending(w.sh.desc.value)), OfRequest(Proceed));
      return true, false;
    }

    /** Hands the frame to the transport and gives the send mutex back. */
    method Transmit(j: Job) returns (sent: int)
      requires Valid() && j.port < PORTS && w.pcs[t].Request? && w.pcs[t].q.Running?
      requires w.pcs[t].q.job == j && w.pcs[t].q.pc.Sending?
      modifies this, devices
      ensures Valid() && old(moves) <= moves && sent == Answer(old(sends))
      ensures waits == old(waits) && forall x <- sends :: x in old(sends)
      ensures w.pcs[t] == Request(if sent < 0 then Running(Tried(j, sent, SendFailed(sent)), Conclude(false)) else Running(j, Wait))
    {
      sent := Answer(sends);
      sends := if sends == [] then [] else sends[1..];
      var out := w.(locks := w.locks.(send := None));
      if sent < 0 {
        Commit(JobAt(out, t, Tried(j, sent, SendFailed(sent)), Conclude(false)), OfRequest(Sent(sent)));
      } else {
        Commit(JobAt(out.(stats := w.stats.(tx := w.stats.tx + 1)), t, j, Wait), OfRequest(Sent(sent)));
      }
    }

    /** send_frame: ENOTCONN when the link is stopped or has no descriptor at the moment the send
        mutex is taken, else what the transport answers. None: the mutex is never given up. */
    method SendFrame(j: Job) returns (sent: Option<int>)
      requires Valid() && j.port < PORTS && w.pcs[t] == Request(Running(j, Lock))
      modifies this, devices
      ensures Valid() && waits == old(waits) && forall x <- sends :: x in old(sends)
      ensures sent.Some? ==> |moves| > |old(moves)| && old(moves) <= moves && AtLock(t, moves[|old(moves)|])
      ensures sent.Some? ==>
        sent.value == if NotConnected(moves[|old(moves)|].before) then -ENOTCONN else Answer(old(sends))
      ensures sent.Some? && sent.value < 0 ==>
        w.pcs[t] == Request(Running(Unsent(j, NotConnected(moves[|old(moves)|].before), sent.value), Conclude(false)))
      ensures sent.Some? && sent.value >= 0 ==> w.pcs[t] == Request(Running(j, Wait))
    {
      var locked, refused := LockSend(j);
      if !locked {
        return None;
      }
      if refused {
        return Some(-ENOTCONN);
      }
      Interfere();
      var result := Transmit(j);
      return Some(result);
    }

    /** Waits until the request is no longer pending, the deadline passes or the wait fails; waking up
        without either, or by a signal, it goes on waiting. */
    method AwaitAnswer(j: Job) returns (over: bool, error: int)
      requires Valid() && j.port < PORTS && w.pcs[t] == Request(Running(j, Wait))
      modifies this, devices
      ensures Valid() && w.pcs[t] == Request(Running(j, Wait)) && error <= 0
      ensures moves == old(moves) && sends == old(sends)
      ensures over || !devices[j.port].pending
      ensures EndsWait(old(waits), waits, over, error)
    {
      hide Step, IsPath, IsMove;
      over, error := false, 0;
      ghost var given, n := waits, 0;
      while devices[j.port].pending && !over
        invariant Valid() && w.pcs[t] == Request(Running(j, Wait)) && error <= 0
        invariant moves == old(moves) && sends == old(sends) && given == old(waits)
        invariant n <= |given| && waits == given[n..]
        invariant if over then WaitOverAt(given, n, error) else error == 0 && AllGoOn(given[..n])
        decreases |waits|, !over
      {
        Interfere();
        var waited := if waits == [] then ETIMEDOUT else waits[0];
        ghost var exhausted := waits == [];
        waits := if waits == [] then [] else waits[1..];
        if waited == ETIMEDOUT {
          over := true;
        } else if waited != 0 && waited != EINTR {
          over, error := true, if waited > 0 then -waited else waited;
        }
        if !exhausted {
          assert given[..n + 1] == given[..n] + [waited];
          n := n + 1;
          assert given[..n - 1] == given[..n][..n - 1];
        } else {
          assert given[..n] == given;
        }
      }
    }

    /** The end of an attempt that was sent: answered, or one attempt fewer left. */
    method EndAttempt(j: Job) returns (j': Job, completed: bool)
      requires Valid() && j.port < PORTS && w.pcs[t] == Request(Running(j, Wait)) && j.left > 0
      modifies this, devices
      ensures Valid() && w.pcs[t] == Request(Running(j', if completed then Conclude(true) else Check))
      ensures old(moves) <= moves && sends == old(sends) && forall x <- waits :: x in old(waits)
      ensures completed ==> j' == j
      ensures !completed ==> exists e: int :: j' == Waited(j, e) && (e < 0 ==> BrokeWith(old(waits), e))
    {
      var over, error := AwaitAnswer(j);
      WaitBroke(old(waits), waits, over, error);
      if !devices[j.port].pending {
        Commit(JobAt(w, t, j, Conclude(true)), OfRequest(Proceed));
        return j, true;
      }
      j' := Waited(j, error);
      var stats := if j'.left > 0 then w.stats.(retries := w.stats.retries + 1) else w.stats;
      Commit(JobAt(w.(stats := stats), t, j', Check), OfRequest(WaitOver(error)));
      return j', false;
    }

    /** The last block: the verdict, and the request mutex back. */
    method Finish(j: Job, completed: bool) returns (result: int, ghost how: How, ghost v2: bool)
      requires Valid() && j.port < PORTS && w.pcs[t] == Request(Running(j, Conclude(completed)))
      modifies this, devices
      ensures Valid() && w.pcs[t] == Idle && old(moves) <= moves
      ensures Returned(moves, ReturnOf(t, j, how, v2, result, completed))
      ensures how.ByItself? ==> result == j.result
    {
      hide VerdictOf, Verdict, Step, IsPath, IsMove, LastEvent;
      how, v2 := VerdictOf(w, j, completed), w.sh.v2;
      result := ConcludeBlock(j, completed);
      Interfere();
      UnlockRequest(j.port);
    }

    method UnlockRequest(p: nat)
      requires Valid() && p < PORTS && w.pcs[t] == Request(Release(p))
      modifies this, devices
      ensures Valid() && w.pcs[t] == Idle && old(moves) <= moves && |moves| == |old(moves)| + 1
    {
      Commit(At(w.(locks := w.locks.(request := w.locks.request[p := None])), t, Idle), OfRequest(Proceed));
    }

    method ConcludeBlock(j: Job, completed: bool) returns (result: int)
      requires Valid() && j.port < PORTS && w.pcs[t] == Request(Running(j, Conclude(completed)))
      modifies this, devices
      ensures Valid() && w.pcs[t] == Request(Release(j.port)) && moves != [] && old(moves) <= moves
      ensures LastEvent(moves[|moves| - 1], ReturnOf(t, j, VerdictOf(old(w), j, completed), old(w).sh.v2, result, completed))
      ensures VerdictOf(old(w), j, completed).ByItself? ==> result == j.result
    {
      var timedOut;
      result, timedOut := devices[j.port].Conclude(completed, j.cmd, j.number, w.sh.v2, w.sh.session, j.result);
      var stats := if timedOut then w.stats.(timeouts := w.stats.timeouts + 1) else w.stats;
      Commit(At(Logged(WithSlot(w.(stats := stats), j.port, devices[j.port].Value()),
                       ReturnOf(t, j, VerdictOf(w, j, completed), w.sh.v2, result, completed)),
                t, Request(Release(j.port))), OfRequest(Proceed));
    }

    /** The check before an attempt. */
    method StillPending(j: Job) returns (pending: bool)
      requires Valid() && j.port < PORTS && w.pcs[t] == Request(Running(j, Check)) && j.left > 0
      modifies this, devices
      ensures Valid() && old(moves) <= moves && sends == old(sends) && waits == old(waits)
      ensures w.pcs[t] == Request(Running(j, if pending then Lock else Conclude(true)))
    {
      pending := devices[j.port].pending;
      if pending {
        Commit(JobAt(w, t, j, Lock), OfRequest(Proceed));
      } else {
        Commit(JobAt(w, t, j, Conclude(true)), OfRequest(Proceed));
      }
    }

    /** No attempt is left. */
    method GiveUp(j: Job)
      requires Valid() && j.port < PORTS && w.pcs[t] == Request(Running(j, Check)) && j.left == 0
      modifies this, devices
      ensures Valid() && old(moves) <= moves && w.pcs[t] == Request(Running(j, Conclude(false)))
    {
      Commit(JobAt(w, t, j, Conclude(false)), OfRequest(Proceed));
    }

    /** Two attempts in the new protocol, one in the old. */
    method PlanAttempts(j: Job) returns (j': Job)
      requires Valid() && j.port < PORTS && w.pcs[t] == Request(Running(j, Attempts))
      modifies this, devices
      ensures Valid() && w.pcs[t] == Request(Running(j', Check)) && sends == old(sends) && waits == old(waits)
      ensures j' == Allowed(j, if old(w).sh.v2 then 2 else 1)
      ensures old(moves) <= moves && |moves| == |old(moves)| + 1 && moves[|old(moves)|].before == old(w)
    {
      j' := Allowed(j, if w.sh.v2 then 2 else 1);
      Commit(JobAt(w, t, j', Check), OfRequest(Proceed));
    }

    /** One attempt. None: blocked on a mutex for good. */
    method OneAttempt(j: Job) returns (r: Option<Job>, concluding: bool, completed: bool)
      requires Valid() && j.port < PORTS && w.pcs[t] == Request(Running(j, Check)) && j.left > 0
      modifies this, devices
      ensures Valid() && (forall x <- sends :: x in old(sends)) && (forall x <- waits :: x in old(waits))
      ensures r.Some? ==> old(moves) <= moves
      ensures r.Some? ==> w.pcs[t] == Request(Running(r.value, if concluding then Conclude(completed) else Check))
      ensures r.Some? && completed ==> concluding && r.value == j
      ensures r.Some? && !completed ==> Attempted(t, j, r.value, concluding, old(sends), old(waits), moves)
    {
      hide Step, IsPath, IsMove;
      var pending := StillPending(j);
      if !pending {
        return Some(j), true, true;
      }
      Interfere();
      ghost var k := |moves|;
      var sent := SendFrame(j);
      if sent.None? {
        return None, false, false;
      }
      ghost var lock := moves[k];
      assert lock in moves;
      if sent.value < 0 {
        return Some(Unsent(j, w.pcs[t].q.job.tries[|j.tries|].Refused?, sent.value)), true, false;
      }
      Interfere();
      var next;
      next, completed := EndAttempt(j);
      return Some(next), completed, completed;
    }

    /** Attempts until answered, failed or used up. None: blocked on a mutex for good. */
    method Retry(j0: Job) returns (r: Option<Job>, completed: bool)
      requires Valid() && j0.port < PORTS && w.pcs[t] == Request(Running(j0, Check)) 
      requires j0.left > 0 && j0 == Allowed(NewJob(j0.port, j0.cmd, j0.number), j0.left)
      modifies this, devices
      ensures Valid()
      ensures r.Some? ==> old(moves) <= moves
      ensures r.Some? ==> w.pcs[t] == Request(Running(r.value, Conclude(completed)))
      ensures r.Some? ==> SameRequest(j0, r.value) && r.value.result == ResultOf(r.value.tries)
      ensures r.Some? ==> forall a <- r.value.tries :: Came(t, a, old(sends), old(waits), moves)
      ensures r.Some? ==> if completed then |r.value.tries| < j0.left else UsedUp(r.value.tries, j0.left)
    {
      hide Step, IsPath, IsMove, Came, Attempted, AllWaited, UsedUp, ResultOf;
      var j, concluding := j0, false;
      completed := false;
      NoTries();
      while j.left > 0 && !concluding
        invariant Valid() && SameRequest(j0, j) && old(moves) <= moves
        invariant w.pcs[t] == Request(Running(j, if concluding then Conclude(completed) else Check))
        invariant (forall x <- sends :: x in old(sends)) && (forall x <- waits :: x in old(waits))
        invariant j.result == ResultOf(j.tries) && forall a <- j.tries :: Came(t, a, old(sends), old(waits), moves)
        invariant completed ==> concluding
        invariant concluding && !completed ==> UsedUp(j.tries, j0.left)
        invariant !concluding || completed ==> |j.tries| + j.left == j0.left && AllWaited(j.tries)
        invariant completed ==> j.left > 0
        decreases !concluding, j.left
      {
        ghost var had, before, sendsNow, waitsNow := j, moves, sends, waits;
        var next;
        next, concluding, completed := OneAttempt(j);
        if next.None? {
          return None, false;
        }
        j := next.value;
        if !completed {
          AttemptTold(t, j0.left, had, j, concluding, sendsNow, waitsNow, old(sends), old(waits), before, moves);
        } else {
          CameLater(t, j.tries, old(sends), old(waits), before, moves);
        }
        Interfere();
      }
      ghost var before := moves;
      if !concluding {
        GiveUp(j);
        completed := false;
        AllUsedUp(j.tries, j0.left);
        CameLater(t, j.tries, old(sends), old(waits), before, moves);
      }
      return Some(j), completed;
    }

    /** The whole call. Whatever the others do in between, the thread takes the steps of a request
        from start to end, and returns what its last block logs. A return by itself has the result
        of its attempts, each of which ended as the link, the transport or the wait made it end; it is
        counted as a timeout exactly when it is one. None: blocked on a mutex for good. */
    method Ask(port: byte, cmd: byte) returns (result: Option<int>)
      requires Valid() && w.pcs[t] == Idle && moves == []
      modifies this, devices
      ensures Valid()
      ensures !Frame.IsValidPort(port) ==> result == Some(-EINVAL) && moves == []
      ensures Frame.IsValidPort(port) && result.Some? ==>
        && w.pcs[t] == Idle && |moves| > 3
        && exists e: Event :: e.RequestReturned? && e.t == t && e.port == PortIndex(port) && e.cmd == cmd
             && e.result == result.value && TrueReturn(t, e, old(sends), old(waits), moves)
    {
      hide Step, IsPath, IsMove, Came, UsedUp, ResultOf, Returned, TrueReturn;
      if !Frame.IsValidPort(port) {
        return Some(-EINVAL);
      }
      var p := PortIndex(port);
      var locked := LockRequest(p, cmd);
      if !locked {
        return None;
      }
      Interfere();
      var number := Announce(p, cmd);
      Interfere();
      var j := PlanAttempts(NewJob(p, cmd, number));
      ghost var plan := moves[3];
      Interfere();
      var last, completed := Retry(j);
      if last.None? {
        return None;
      }
      Interfere();
      ghost var how, v2;
      ghost var before := moves;
      var value;
      value, how, v2 := Finish(last.value, completed);
      assert moves[3] == plan;
      IsTrueReturn(t, last.value, how, v2, value, completed, old(sends), old(waits), before, moves);
      return Some(value);
    }

    // ----- raspike_prot_shutdown -----

    /** Takes the lifecycle mutex and waits until no receive call is left; false if that never happens. */
    method DrainReceivers() returns (drained: bool)
      requires Valid() && w.pcs[t] == Shutdown(WaitReceivers)
      modifies this, devices
      ensures Valid() && old(moves) <= moves && w.pcs[t] == Shutdown(if drained then Detach else WaitReceivers)
    {
      while (w.locks.lifecycle.Some? || w.sh.active > 0) && script != []
        invariant Valid() && moves == old(moves) && w.pcs[t] == Shutdown(WaitReceivers)
        decreases |script|
      {
        Interfere();
      }
      if w.locks.lifecycle.Some? || w.sh.active > 0 {
        return false;
      }
      Commit(At(w.(locks := w.locks.(lifecycle := Some(t))), t, Shutdown(Detach)), OfShutdown);
      return true;
    }

    /** Takes the send mutex, then the descriptor, and gives the lifecycle mutex back. */
    method TakeDescriptor() returns (taken: bool, desc: Option<nat>, since: nat)
      requires Valid() && w.pcs[t] == Shutdown(Detach)
      modifies this, devices
      ensures Valid() && old(moves) <= moves && w.pcs[t] == Shutdown(if taken then CancelPorts(0, desc, since) else Detach)
      ensures taken ==> |moves| == |old(moves)| + 1 && Took(t, moves[|old(moves)|], desc)
    {
      while w.locks.send.Some? && script != []
        invariant Valid() && moves == old(moves) && w.pcs[t] == Shutdown(Detach)
        decreases |script|
      {
        Interfere();
      }
      desc, since := w.sh.desc, |w.log|;
      if w.locks.send.Some? {
        return false, desc, since;
      }
      Commit(At(w.(sh := w.sh.(desc := None), locks := w.locks.(send := Some(t), lifecycle := None)), t,
                Shutdown(CancelPorts(0, desc, since))), OfShutdown);
      return true, desc, since;
    }

    /** reset_port_state(-ENOTCONN), the others having their turn between two ports. */
    method CancelRequests(desc: Option<nat>, since: nat)
      requires Valid() && w.pcs[t] == Shutdown(CancelPorts(0, desc, since))
      modifies this, devices
      ensures Valid() && old(moves) <= moves && w.pcs[t] == Shutdown(Close(desc, since))
    {
      for i := 0 to PORTS
        invariant Valid() && old(moves) <= moves && w.pcs[t] == Shutdown(if i < PORTS then CancelPorts(i, desc, since) else Close(desc, since))
      {
        CancelPort(i, desc, since);
        Interfere();
      }
    }

    method CancelPort(i: nat, desc: Option<nat>, since: nat)
      requires Valid() && i < PORTS && w.pcs[t] == Shutdown(CancelPorts(i, desc, since))
      modifies this, devices
      ensures Valid() && old(moves) <= moves && w.pcs[t] == Shutdown(if i + 1 < PORTS then CancelPorts(i + 1, desc, since) else Close(desc, since))
    {
      hide ResetSlot;
      devices[i].Reset(-ENOTCONN, w.sh.session);
      Commit(At(ResetPort(w, i, -ENOTCONN), t, Shutdown(if i + 1 < PORTS then CancelPorts(i + 1, desc, since) else Close(desc, since))),
             OfShutdown);
    }

    method CloseTaken(desc: Option<nat>, since: nat)
      requires Valid() && w.pcs[t] == Shutdown(Close(desc, since))
      modifies this, devices
      ensures Valid() && old(moves) <= moves && w.pcs[t] == Shutdown(UnlockSend)
      ensures |moves| == |old(moves)| + 1 && Closes(moves[|old(moves)|], desc)
    {
      if desc.Some? {
        Commit(At(Logged(w, DescriptorClosed(desc.value)).(closed := w.closed + {desc.value}), t, Shutdown(UnlockSend)), OfShutdown);
      } else {
        Commit(At(w, t, Shutdown(UnlockSend)), OfShutdown);
      }
    }

    method GiveUpSend()
      requires Valid() && w.pcs[t] == Shutdown(UnlockSend)
      modifies this, devices
      ensures Valid() && old(moves) <= moves && w.pcs[t] == Shutdown(FreeStatus)
    {
      Commit(At(w.(locks := w.locks.(send := None)), t, Shutdown(FreeStatus)), OfShutdown);
    }

    method DropStatusRecord()
      requires Valid() && w.pcs[t] == Shutdown(FreeStatus)
      modifies this, devices
      ensures Valid() && old(moves) <= moves && w.pcs[t] == Shutdown(ClearHandshake)
    {
      Commit(At(w.(sh := w.sh.(status := None)), t, Shutdown(ClearHandshake)), OfShutdown);
    }

    method LeaveHandshake()
      requires Valid() && w.pcs[t] == Shutdown(ClearHandshake)
      modifies this, devices
      ensures Valid() && old(moves) <= moves && w.pcs[t] == Shutdown(ClearV2)
    {
      Commit(At(w.(sh := w.sh.(handshake := false)), t, Shutdown(ClearV2)), OfShutdown);
    }

    method LeaveV2()
      requires Valid() && w.pcs[t] == Shutdown(ClearV2)
      modifies this, devices
      ensures Valid() && old(moves) <= moves && w.pcs[t] == Shutdown(ClearSession)
    {
      Commit(At(w.(sh := w.sh.(v2 := false)), t, Shutdown(ClearSession)), OfShutdown);
    }

    method LeaveSession()
      requires Valid() && w.pcs[t] == Shutdown(ClearSession)
      modifies this, devices
      ensures Valid() && old(moves) <= moves && w.pcs[t] == Idle
    {
      Commit(At(Logged(w.(sh := w.sh.(session := 0)), SessionIs(0)), t, Idle), OfShutdown);
    }

    /** Closes the descriptor, then clears what is left, one shared variable at a time. */
    method CloseAndClear(desc: Option<nat>, since: nat)
      requires Valid() && w.pcs[t] == Shutdown(Close(desc, since))
      modifies this, devices
      ensures Valid() && old(moves) <= moves && w.pcs[t] == Idle
      ensures |moves| > |old(moves)| && Closes(moves[|old(moves)|], desc)
    {
      hide Step, IsPath, WellShaped, Closes;
      CloseTaken(desc, since);
      Interfere();
      ClearRest();
    }

    method ClearRest()
      requires Valid() && w.pcs[t] == Shutdown(UnlockSend)
      modifies this, devices
      ensures Valid() && old(moves) <= moves && w.pcs[t] == Idle
    {
      hide Step, IsPath, WellShaped;
      GiveUpSend();
      Interfere();
      DropStatusRecord();
      Interfere();
      LeaveHandshake();
      Interfere();
      LeaveV2();
      Interfere();
      LeaveSession();
    }

    /** The first step: everybody sees that communication stops. */
    method Stop()
      requires Valid() && w.pcs[t] == Idle && moves == []
      requires forall u :: u in w.pcs ==> !w.pcs[u].Init?
      modifies this, devices
      ensures Valid() && w.pcs[t] == Shutdown(WaitReceivers)
      ensures moves == [Move(old(w), w)] && w.sh.stop
    {
      Commit(At(w.(sh := w.sh.(stop := true)), t, Shutdown(WaitReceivers)), OfShutdown);
    }

    /** The whole call takes the steps of a shutdown from start to end; false: blocked for good. */
    method RunShutdown() returns (done: bool)
      requires Valid() && w.pcs[t] == Idle && moves == []
      requires forall u :: u in w.pcs ==> !w.pcs[u].Init?
      modifies this, devices
      ensures Valid() && (done ==> w.pcs[t] == Idle)
      ensures moves != [] && moves[0].before == old(w) && moves[0].after.sh.stop
      ensures t in moves[0].after.pcs && moves[0].after.pcs[t] == Shutdown(WaitReceivers)
      ensures done ==> exists k: nat, m: nat, desc :: k < m < |moves| && Took(t, moves[k], desc) && Closes(moves[m], desc)
    {
      hide Step, IsPath, Took, Closes;
      Stop();
      Interfere();
      var drained := DrainReceivers();
      if !drained {
        return false;
      }
      Interfere();
      ghost var k := |moves|;
      var taken, desc, since := TakeDescriptor();
      if !taken {
        return false;
      }
      Interfere();
      CancelRequests(desc, since);
      ghost var m := |moves|;
      CloseAndClear(desc, since);
      assert Took(t, moves[k], desc) && Closes(moves[m], desc);
      return true;
    }
  }

  /** The move that takes the descriptor out of the shared state. */
  ghost predicate Took(t: Tid, m: Move, desc: Option<nat>) {
    t in m.before.pcs && m.before.pcs[t] == Shutdown(Detach) && m.before.sh.desc == desc && m.after.sh.desc.None?
  }

  /** The move that closes it, if there was one. */
  ghost predicate Closes(m: Move, desc: Option<nat>) {
    desc.Some? ==>
      && m.after.log == m.before.log + [DescriptorClosed(desc.value)]
      && m.after.closed == m.before.closed + {desc.value}
  }

  /** The move logs the event, and counts a timeout if the event is one. */
  ghost predicate LastEvent(m: Move, e: Event) {
    && |m.after.log| > 0 && m.after.log[|m.after.log| - 1] == e
    && m.after.stats.timeouts == m.before.stats.timeouts + (if IsTimeout(e) then 1 else 0)
  }

  /** The event tells the truth about the call whose moves these are. */
  ghost predicate TrueReturn(t: Tid, e: Event, sends: seq<int>, waits: seq<int>, moves: seq<Move>)
    requires |moves| > 3 && e.RequestReturned?
  {
    && Returned(moves, e)
    && e.allowed == (if moves[3].before.sh.v2 then 2 else 1)
    && (e.how.ByItself? ==> e.result == ResultOf(e.tries))
    && (forall a <- e.tries :: Came(t, a, sends, waits, moves))
    && (if e.completed then |e.tries| < e.allowed else UsedUp(e.tries, e.allowed))
    && (e.how.ByItself? && Calm(t, sends, waits, moves) ==>
          && e.result == -ETIMEDOUT
          && moves[|moves| - 2].after.stats.timeouts == moves[|moves| - 2].before.stats.timeouts + 1)
  }

  lemma IsTrueReturn(t: Tid, j: Job, how: How, v2: bool, result: int, completed: bool, sends: seq<int>, waits: seq<int>,
                     before: seq<Move>, moves: seq<Move>)
    requires |moves| > 3 && before <= moves && Returned(moves, ReturnOf(t, j, how, v2, result, completed))
    requires j.allowed == (if moves[3].before.sh.v2 then 2 else 1)
    requires (how.ByItself? ==> result == j.result) && j.result == ResultOf(j.tries)
    requires forall a <- j.tries :: Came(t, a, sends, waits, before)
    requires if completed then |j.tries| < j.allowed else UsedUp(j.tries, j.allowed)
    ensures TrueReturn(t, ReturnOf(t, j, how, v2, result, completed), sends, waits, moves)
  {
    hide Came, UsedUp, ResultOf;
    CameLater(t, j.tries, sends, waits, before, moves);
    if Calm(t, sends, waits, moves) {
      CalmTimesOut(t, j.tries, sends, waits, moves);
    }
  }

  /** The block before the request mutex is released logs the event. */
  ghost predicate Returned(moves: seq<Move>, e: Event) {
    |moves| >= 2 && LastEvent(moves[|moves| - 2], e)
  }

  function VerdictOf(w: World, j: Job, completed: bool): How
    requires j.port < |w.slots|
  {
    Verdict(w.slots[j.port], w.sh.v2, w.sh.session, j.cmd, j.number, completed)
  }

  // ----- back into runs of the whole system -----

  ghost predicate OtherStep(t: Tid, w: World, w': World) {
    exists u, a :: u != t && Step(w, u, a, w')
  }

  /** Steps of other threads lead from one state to the other. */
  ghost predicate Elapses(t: Tid, w: World, w': World) {
    exists run: seq<World> ::
      |run| > 0 && run[0] == w && run[|run| - 1] == w' && forall k :: 0 < k < |run| ==> OtherStep(t, run[k - 1], run[k])
  }

  /** What happens before the first move and between two moves is what other threads do. */
  ghost predicate Played(t: Tid, start: World, moves: seq<Move>) {
    && (moves != [] ==> Elapses(t, start, moves[0].before))
    && forall k :: 0 < k < |moves| ==> Elapses(t, moves[k - 1].after, moves[k].before)
  }

  lemma {:induction false} OthersReach(t: Tid, run: seq<World>)
    requires |run| > 0 && Reachable(run[0]) && forall k :: 0 < k < |run| ==> OtherStep(t, run[k - 1], run[k])
    ensures Reachable(run[|run| - 1])
    decreases |run|
  {
    hide Reachable, Step;
    if |run| > 1 {
      OthersReach(t, run[..|run| - 1]);
      assert OtherStep(t, run[|run| - 2], run[|run| - 1]);
      var u, a :| u != t && Step(run[|run| - 2], u, a, run[|run| - 1]);
      ExtendReachable(run[|run| - 2], u, a, run[|run| - 1]);
    }
  }

  /** The moves of a thread and the steps of the others between them make up a run: every state a
      move starts from or leads to is reachable. */
  lemma {:induction false} MovesAreReached(t: Tid, start: World, moves: seq<Move>, k: nat)
    requires Reachable(start) && Played(t, start, moves) && k < |moves| && forall m <- moves :: IsMove(t, m)
    ensures Reachable(moves[k].before) && Reachable(moves[k].after)
    decreases k
  {
    hide Reachable, Step;
    var from := start;
    if k > 0 {
      MovesAreReached(t, start, moves, k - 1);
      from := moves[k - 1].after;
    }
    assert Elapses(t, from, moves[k].before);
    var run: seq<World> :| |run| > 0 && run[0] == from && run[|run| - 1] == moves[k].before
      && forall n :: 0 < n < |run| ==> OtherStep(t, run[n - 1], run[n]);
    OthersReach(t, run);
    assert IsMove(t, moves[k]);
    var a :| Step(moves[k].before, t, a, moves[k].after);
    ExtendReachable(moves[k].before, t, a, moves[k].after);
  }

  /** The last entry of the history returns the data of an ACK for this request. */
  ghost predicate WasAnswered(log: seq<Event>, t: Tid, p: nat, cmd: byte, number: u32, result: int) {
    |log| > 0 && exists j: nat, i: nat, k: nat ::
      j == |log| - 1 && Answered(log[..j], i, k, t, p, cmd, number, result) && log[k].ack.session == SessionAfter(log[..k])
  }

  /** So the value a call returns through its ACK branch, among threads that all keep to the steps
      of the link, is the data of an ACK received for this request in the session of that moment. */
  lemma ReturnedValueWasAnswered(t: Tid, start: World, moves: seq<Move>, e: Event)
    requires Reachable(start) && Played(t, start, moves) && forall m <- moves :: IsMove(t, m)
    requires e.RequestReturned? && e.t == t && e.how == ByAck && (e.v2 || e.cmd != 0) && Returned(moves, e)
    ensures WasAnswered(moves[|moves| - 2].after.log, t, e.port, e.cmd, e.number, e.result)
  {
    hide Reachable, Step;
    MovesAreReached(t, start, moves, |moves| - 2);
    var w := moves[|moves| - 2].after;
    var j := |w.log| - 1;
    AckedReturnWasAnswered(w, j);
    var i: nat, k: nat :| Answered(w.log[..j], i, k, t, e.port, e.cmd, e.number, e.result) && w.log[k].ack.session == SessionAfter(w.log[..k]);
  }
}
