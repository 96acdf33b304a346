/** What every entry of the history stands for, and how the shared state replays it. */
module LinkHistory {
  import opened Bytes
  import opened Link

  // ----- what each kind of entry promises about the entries before it -----

  /** Entry i registered this request, and no later entry registered another on its port. */
  predicate LatestRegistration(log: seq<Event>, i: nat, t: Tid, port: nat, cmd: byte, number: u32) {
    && i < |log| && log[i] == RequestRegistered(t, port, cmd, number)
    && forall m :: i < m < |log| ==> !(log[m].RequestRegistered? && log[m].port == port)
  }

  /** Entry k matched an ACK to the request registered at i, and its data is the result. */
  ghost predicate Answered(log: seq<Event>, i: nat, k: nat, t: Tid, port: nat, cmd: byte, number: u32, result: int) {
    && LatestRegistration(log, i, t, port, cmd, number)
    && i < k < |log|
    && log[k].AckMatched? && log[k].port == port
    && log[k].ack.sequence == number && log[k].ack.cmd == cmd && log[k].ack.data == result
  }

  /** Entry k cancelled the request registered at i, with the result as its error. */
  ghost predicate CanceledWith(log: seq<Event>, i: nat, k: nat, t: Tid, port: nat, cmd: byte, number: u32, result: int) {
    && LatestRegistration(log, i, t, port, cmd, number)
    && i < k < |log|
    && log[k] == RequestCanceled(port, number, result)
  }

  ghost predicate Justified(before: seq<Event>, e: Event) {
    match e
    case AckMatched(p, a) =>
      Outstanding(before, p) == Some(a.sequence) && a.cmd >= 0 && a.session == SessionAfter(before)
    case RequestCanceled(p, number, _) => Outstanding(before, p) == Some(number)
    case RequestReturned(t, p, cmd, number, how, v2, result, _, _, _) =>
      && (how == ByAck && (v2 || cmd != 0) ==> exists i: nat, k: nat :: Answered(before, i, k, t, p, cmd, number, result))
      && (how == ByCancel ==> exists i: nat, k: nat :: CanceledWith(before, i, k, t, p, cmd, number, result))
    case StatusReplaced(from, _) => SourceChecked(before, from)
    case StatusOverlaid(from, _) => SourceChecked(before, from)
    case TelemetryReplaced(from, _) => SourceChecked(before, from)
    case DescriptorClosed(fd) => DescriptorClosed(fd) !in before
    case _ => true
  }

  /** The session a v2 frame named was the link's when the check was made. */
  predicate SourceChecked(before: seq<Event>, from: Source) {
    && from.checkedAt <= |before|
    && (from.v2 ==> SessionAfter(before[..from.checkedAt]) == from.session)
  }

  ghost predicate LogOk(log: seq<Event>) {
    forall j :: 0 <= j < |log| ==> Justified(log[..j], log[j])
  }

  lemma LogOkAppend(log: seq<Event>, e: Event)
    requires LogOk(log) && Justified(log, e)
    ensures LogOk(log + [e])
  {
    var log' := log + [e];
    forall j | 0 <= j < |log'|
      ensures Justified(log'[..j], log'[j])
    {
      if j == |log| {
        assert log'[..j] == log;
      } else {
        assert log'[..j] == log[..j];
      }
    }
  }

  // ----- how one more entry changes the summaries -----

  ghost predicate Grows(log: seq<Event>, log': seq<Event>) {
    log' == log || (|log'| == |log| + 1 && log'[..|log|] == log)
  }

  lemma SummariesAppend(log: seq<Event>, e: Event)
    ensures var log' := log + [e];
      && log'[..|log|] == log && log'[|log|] == e
      && SessionAfter(log') == (if e.SessionIs? then e.session else SessionAfter(log))
      && TelemetryAfter(log') == TelemetryStep(TelemetryAfter(log), e)
      && StatusAfter(log') == StatusStep(StatusAfter(log), e)
  {
    assert (log + [e])[..|log|] == log;
  }

  lemma OutstandingAppend(log: seq<Event>, e: Event, p: nat)
    ensures Outstanding(log + [e], p) ==
      if !AboutPort(e, p) then Outstanding(log, p)
      else if e.RequestRegistered? then Some(e.number) else None
  {
    assert (log + [e])[..|log|] == log;
  }
}
