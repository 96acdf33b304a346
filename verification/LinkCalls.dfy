/** What a single receive call counts, over runs in which any threads interleave. */
module LinkCalls {
  import opened Link
  import opened LinkCounters

  /** Whose turn it was and what it did. */
  datatype Turn = Turn(t: Tid, a: Action)

  ghost predicate Labelled(run: seq<World>, turns: seq<Turn>) {
    && |run| == |turns| + 1
    && forall k :: 0 < k < |run| ==> Step(run[k - 1], turns[k - 1].t, turns[k - 1].a, run[k])
  }

  /** How far the latest receive call of thread t, finished or not, has raised rx_frames,
      crc_errors and framing_errors together. */
  function CallRaises(run: seq<World>, turns: seq<Turn>, t: Tid): int
    requires |run| == |turns| + 1
    decreases |turns|
  {
    if |turns| == 0 then 0
    else
      var n := |turns| - 1;
      var before := CallRaises(run[..n + 1], turns[..n], t);
      if turns[n].t != t || !turns[n].a.OfReceive? then before
      else (if turns[n].a.c.Enter? then 0 else before) + Raised(run[n], run[n + 1])
  }

  /** Only the receive steps of a thread take it into, through and out of a receive call. */
  lemma OthersLeaveCallsAlone(w: World, turn: Turn, w': World, t: Tid)
    requires Step(w, turn.t, turn.a, w') && t in w.pcs
    requires turn.t != t || !turn.a.OfReceive?
    ensures t in w'.pcs && (w'.pcs[t] == w.pcs[t] || !w'.pcs[t].Receive?)
  {
    StepBalanced(w, turn.t, turn.a, w');
    if turn.t == t {
      OwnTurn(w, t, turn.a, w');
    }
  }

  lemma OwnTurn(w: World, t: Tid, a: Action, w': World)
    requires Step(w, t, a, w') && !a.OfReceive?
    ensures t in w'.pcs && !w'.pcs[t].Receive?
  {
    match a
    case OfRequest(c) => OwnRequest(w, t, c, w');
    case OfNote(_) =>
    case OfShutdown =>
    case OfInit(_) =>
    case OfCount(_) =>
  }

  lemma OwnRequest(w: World, t: Tid, c: RequestChoice, w': World)
    requires WellShaped(w) && t in w.pcs && RequestStep(w, t, c, w')
    ensures t in w'.pcs && !w'.pcs[t].Receive?
  {
  }

  /** In any interleaving, each receive call raises at most one of the three counters, by one;
      once it has, all that is left to it is to leave. */
  lemma {:induction false} OneCountPerCall(run: seq<World>, turns: seq<Turn>, t: Tid)
    requires Labelled(run, turns) && t in run[0].pcs && run[0].pcs[t].Idle?
    ensures t in run[|turns|].pcs && 0 <= CallRaises(run, turns, t) <= 1
    ensures CallRaises(run, turns, t) == 1 && run[|turns|].pcs[t].Receive? ==> run[|turns|].pcs[t] == Receive(Leave)
    decreases |turns|
  {
    if |turns| > 0 {
      hide Step, Raised;
      var n := |turns| - 1;
      OneCountPerCall(run[..n + 1], turns[..n], t);
      assert Step(run[n], turns[n].t, turns[n].a, run[n + 1]);
      if turns[n].t == t && turns[n].a.OfReceive? {
        OwnReceive(run[n], t, turns[n].a.c, run[n + 1]);
      } else {
        OthersLeaveCallsAlone(run[n], turns[n], run[n + 1], t);
      }
    }
  }

  lemma OwnReceive(w: World, t: Tid, c: ReceiveChoice, w': World)
    requires Step(w, t, OfReceive(c), w')
    ensures t in w'.pcs && 0 <= Raised(w, w') <= 1
    ensures Raised(w, w') == 1 ==> w'.pcs[t] == Receive(Leave)
    ensures c.Enter? ==> Raised(w, w') == 0
    ensures !c.Enter? ==> t in w.pcs && w.pcs[t].Receive?
    ensures w.pcs[t] == Receive(Leave) ==> Raised(w, w') == 0 && w'.pcs[t] == Idle
  {
    RaiseThenLeave(w, t, c, w');
  }
}
