/**
  One iteration of the probe loop of nat_test_run_single assembled from its
  raw observations: the abort check at the top, the result of send_data,
  the reply wait, and the reconnect that follows an error.
 */
module ProbeCycle {
  import opened NatTypes
  import opened TimeoutSearch
  import opened ReplyWait

  /** What became of one send_data call. */
  datatype SendAttempt =
    | ModemInitFailed     // modem_info_params_init failed
    | ParamsUnavailable   // modem_info_params_get failed
    | EncodeFailed        // create_send_buffer failed
    | SocketSendFailed    // send failed
    | Sent

  /**
    send_data's return value. `enotconn` is the C library's ENOTCONN, whose
    value is not part of this model; errno constants are positive.
   */
  function SendData(a: SendAttempt, enotconn: int): (err: int)
    requires enotconn > 0
    ensures err == 0 <==> a == Sent
    ensures a == SocketSendFailed ==> err == -enotconn
    ensures a != Sent && a != SocketSendFailed ==> err == -1
  {
    match a
    case ModemInitFailed => -1
    case ParamsUnavailable => -1
    case EncodeFailed => -1
    case SocketSendFailed => -enotconn
    case Sent => 0
  }

  /** The labels the loop can go to after send_data. */
  datatype SendExit = Proceed | GotoReconnect | GotoAbort

  /** `if (err < 0) { if (err == ENOTCONN) goto reconnect; goto abort; }` */
  function AfterSend(err: int, enotconn: int): (x: SendExit)
    ensures x == Proceed <==> err >= 0
    ensures x == GotoReconnect <==> err < 0 && err == enotconn
  {
    if err < 0 then (if err == enotconn then GotoReconnect else GotoAbort) else Proceed
  }

  /**
    The loop compares the error with +ENOTCONN while send_data returns
    -ENOTCONN, so every send failure takes the `abort` exit and the
    reconnect branch is dead.
   */
  lemma SendFailureAlwaysAborts(a: SendAttempt, enotconn: int)
    requires enotconn > 0
    ensures AfterSend(SendData(a, enotconn), enotconn) == (if a == Sent then Proceed else GotoAbort)
    ensures AfterSend(SendData(a, enotconn), enotconn) != GotoReconnect
  {
  }

  /**
    The outcome of an iteration. `reply` is poll_and_read's result and
    `relinked` the success of the setup_connection after a `reconnect` jump.
   */
  function CycleOutcome(abortAtTop: bool, send: SendAttempt, enotconn: int, reply: int, relinked: bool): (o: Outcome)
    requires enotconn > 0
    ensures abortAtTop ==> o == Aborted
    ensures !abortAtTop && send != Sent ==> o == SendError
    ensures !abortAtTop && send == Sent ==>
              o == (if reply < 0 then ReadError(relinked) else if reply == 0 then NoReply else Reply)
  {
    if abortAtTop then Aborted
    else match AfterSend(SendData(send, enotconn), enotconn)
      case GotoAbort => SendError
      case GotoReconnect => ReadError(relinked)
      case Proceed =>
        if reply < 0 then ReadError(relinked) else if reply == 0 then NoReply else Reply
  }

  /**
    The iteration's effect on the search, or None while the reply wait has
    not decided on the poll events given.
   */
  function Cycle(s: Search, abortAtTop: bool, send: SendAttempt, enotconn: int,
                 events: seq<PollEvent>, relinked: bool): (r: Option<Step>)
    requires enotconn > 0
    ensures abortAtTop || send != Sent ==> r == Some(Abandon(AbortExit))
    ensures !abortAtTop && send == Sent ==> (r.Some? <==> PollAndRead(events, s.timeout).Decided?)
  {
    if abortAtTop || send != Sent then Some(ProbeStep(s, CycleOutcome(abortAtTop, send, enotconn, 0, relinked)))
    else match PollAndRead(events, s.timeout)
      case Pending => None
      case Decided(reply) => Some(ProbeStep(s, CycleOutcome(false, send, enotconn, reply, relinked)))
  }

  /**
    An abort seen during the reply wait is read as an unanswered probe: the
    iteration still moves the upper bound (switching to bisection) before
    the next iteration's abort check.
   */
  lemma AbortWhileWaitingStillBisects(s: Search, enotconn: int, d: nat, rest: seq<PollEvent>, relinked: bool)
    requires enotconn > 0
    ensures Cycle(s, false, Sent, enotconn, [Silence(d, true)] + rest, relinked) == Some(ProbeStep(s, NoReply))
    ensures ProbeStep(s, NoReply).Continue? ==>
              ProbeStep(s, NoReply).next.bisecting && ProbeStep(s, NoReply).next.upper == s.timeout
  {
  }

  /**
    Because the bisection step runs first, a run whose bracket closes on
    that step reports its result although a stop was requested.
   */
  lemma AbortCanStillReport(s: Search, enotconn: int, d: nat, rest: seq<PollEvent>, relinked: bool)
    requires enotconn > 0
    requires s.timeout - s.lower == 1
    ensures Cycle(s, false, Sent, enotconn, [Silence(d, true)] + rest, relinked) == Some(Converged(s.lower))
  {
  }

  /** The step a sent probe leads to once the wait's verdict is `code`. */
  function StepOnReply(s: Search, code: int, relinked: bool): Step {
    ProbeStep(s, if code < 0 then ReadError(relinked) else if code == 0 then NoReply else Reply)
  }

  /**
    The iteration after a successful send acts on the event that decides
    the reply wait: an error reply or poll failure leads to the reconnect,
    a silence (or an abort seen while idle) to an unanswered probe, a plain
    reply to an answered one.
   */
  lemma CycleFollowsDecision(s: Search, enotconn: int, events: seq<PollEvent>, relinked: bool, k: int)
    requires enotconn > 0
    requires DecidesAt(events, s.timeout, 0, k)
    ensures Cycle(s, false, Sent, enotconn, events, relinked) == Some(StepOnReply(s, EventCode(events[k]), relinked))
    ensures events[k].PollError? ==> Cycle(s, false, Sent, enotconn, events, relinked) == Some(ProbeStep(s, ReadError(relinked)))
    ensures events[k].Silence? ==> Cycle(s, false, Sent, enotconn, events, relinked) == Some(ProbeStep(s, NoReply))
    ensures events[k].Data? && !HasErrorMarker(CString(events[k].bytes)) ==>
              Cycle(s, false, Sent, enotconn, events, relinked) == Some(ProbeStep(s, Reply))
  {
    DecidesAtWait(events, s.timeout, 0, k);
  }

  /**
    A reply naming an error is not fatal: the loop reconnects and, if that
    succeeds, resends the same interval with the bracket untouched.
   */
  lemma ErrorReplyResends(s: Search, enotconn: int, bytes: string, rest: seq<PollEvent>)
    requires enotconn > 0
    requires Usable(bytes) && HasErrorMarker(CString(bytes))
    ensures Cycle(s, false, Sent, enotconn, [Data(bytes)] + rest, true) == Some(Continue(s))
    ensures Cycle(s, false, Sent, enotconn, [Data(bytes)] + rest, false) == Some(Abandon(LinkExit))
  {
  }
}
