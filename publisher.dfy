/** The publishing adapter `PubSink`: a `Sink` whose readiness, flush and close
    are driven by the completion cell it shares with the send callback.

    Every method and every callback invocation runs under the cell's mutex, so
    each is one atomic step here. Acquiring the mutex is itself a future: when
    it is not ready (`lockReady` false) the poll method returns `Pending` and
    touches nothing. */
module Publisher {
  import opened Async

  /** The outcome of one send. */
  type Outcome = Result<()>

  /** The contents of the completion cell (`PubSinkState`). */
  datatype SinkState = SinkState(poll: Poll<Outcome>, waker: Option<WakerId>)

  /** A new sink: the previous send (there is none) counts as succeeded and no
      task is waiting. */
  const Fresh := SinkState(Ready(Ok(())), None)

  /** The new cell contents and the answer of a poll method. */
  datatype PollResult = PollResult(state: SinkState, out: Poll<Outcome>)

  /** The new cell contents and the waker the send callback woke, if any. */
  datatype Completion = Completion(state: SinkState, woken: Option<WakerId>)

  /** `poll_ready`: once the lock is held, store the caller's waker; a ready
      outcome is returned and the cell re-armed to `Pending`. */
  function PollReadyStep(s: SinkState, lockReady: bool, w: WakerId): (r: PollResult)
  {
    if !lockReady then PollResult(s, Pending)
    else match s.poll
      case Pending => PollResult(s.(waker := Some(w)), Pending)
      case Ready(o) => PollResult(SinkState(Pending, Some(w)), Ready(o))
  }

  /** `poll_flush` and `poll_close`: once the lock is held, store the caller's
      waker and report the stored outcome without consuming it. */
  function PollFlushStep(s: SinkState, lockReady: bool, w: WakerId): (r: PollResult)
  {
    if !lockReady then PollResult(s, Pending)
    else PollResult(s.(waker := Some(w)), s.poll)
  }

  /** `poll_ready` as the `futures` `Sink` contract requires it: a `Pending`
      answer must be followed by a wake when the task should poll again, so a
      ready outcome is reported but not consumed, and a repeated readiness
      check without a submission reports it again. The corrected readiness
      check therefore behaves as flush does: the same answer and stored waker
      as the code, with the outcome left in place. */
  function PollReadyCorrected(s: SinkState, lockReady: bool, w: WakerId): (r: PollResult)
    ensures r.out == PollReadyStep(s, lockReady, w).out
    ensures r.state.poll == s.poll
    ensures r.state.waker == PollReadyStep(s, lockReady, w).state.waker
  {
    PollFlushStep(s, lockReady, w)
  }

  /** `start_send` to go with `PollReadyCorrected`: the submission, once the
      transport accepts it, consumes the reported outcome and re-arms the cell
      so that flushes wait for the new completion; a rejected submission
      leaves the previous outcome ready, so the sink does not stall. */
  function StartSendCorrected(s: SinkState, submit: Outcome): (t: SinkState)
    ensures t.waker == s.waker
    ensures t.poll.Pending? <==> submit.Ok? || s.poll.Pending?
    ensures submit.Err? ==> t == s
  {
    if submit.Ok? then s.(poll := Pending) else s
  }

  /** The send callback: store the outcome as ready and take the waker out of
      the cell, waking it. */
  function SendCallback(s: SinkState, outcome: Outcome): (c: Completion)
  {
    Completion(SinkState(Ready(outcome), None), s.waker)
  }

  class PubSink {
    var poll: Poll<Outcome>
    var waker: Option<WakerId>

    function State(): (s: SinkState)
      reads this
    {
      SinkState(poll, waker)
    }

    /** The cell as `PubSink::new` creates it. */
    constructor ()
      ensures State() == Fresh
    {
      poll := Ready(Ok(()));
      waker := None;
    }

    method PollReady(lockReady: bool, w: WakerId) returns (r: Poll<Outcome>)
      modifies this
      ensures PollResult(State(), r) == PollReadyStep(old(State()), lockReady, w)
      ensures !lockReady ==> r == Pending && State() == old(State())
      ensures lockReady ==> r == old(poll) && poll == Pending && waker == Some(w)
    {
      if !lockReady {
        return Pending;
      }
      waker := Some(w);
      if poll.Pending? {
        return Pending;
      }
      r := poll;
      poll := Pending;
    }

    /** `start_send` hands the item to the transport; `submit` is the
        transport's immediate answer. The cell is not touched. */
    method StartSend(item: Message, submit: Outcome) returns (r: Outcome)
      ensures r == submit
    {
      r := submit;
    }

    method PollFlush(lockReady: bool, w: WakerId) returns (r: Poll<Outcome>)
      modifies this
      ensures PollResult(State(), r) == PollFlushStep(old(State()), lockReady, w)
      ensures r == (if lockReady then old(poll) else Pending)
      ensures poll == old(poll)
      ensures waker == (if lockReady then Some(w) else old(waker))
    {
      if !lockReady {
        return Pending;
      }
      waker := Some(w);
      r := poll;
    }

    method PollClose(lockReady: bool, w: WakerId) returns (r: Poll<Outcome>)
      modifies this
      ensures PollResult(State(), r) == PollFlushStep(old(State()), lockReady, w)
      ensures r == (if lockReady then old(poll) else Pending)
      ensures poll == old(poll)
      ensures waker == (if lockReady then Some(w) else old(waker))
    {
      if !lockReady {
        return Pending;
      }
      waker := Some(w);
      r := poll;
    }

    /** The send callback registered in `PubSink::new`; returns the waker it
        woke. */
    method OnSendComplete(outcome: Outcome) returns (woken: Option<WakerId>)
      modifies this
      ensures Completion(State(), woken) == SendCallback(old(State()), outcome)
      ensures poll == Ready(outcome) && waker == None && woken == old(waker)
    {
      poll := Ready(outcome);
      woken := waker;
      waker := None;
    }
  }
}
