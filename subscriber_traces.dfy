/** Runs of the subscribing adapter together with the transport it drives:
    polls of the stream and arrivals of receive completions, one atomic step
    at a time. The transport is represented only by how many receives it has
    accepted and not yet completed; it completes nothing else. */
module SubscriberTraces {
  import opened Async
  import opened Subscriber

  /** One atomic step: a `poll_next` call, or the transport completing a
      receive with `res`. */
  datatype StreamEvent =
    | Pull(lockReady: bool, w: WakerId, submit: Result<()>)
    | Arrival(res: Received)

  /** The adapter's cell and the transport's count of outstanding receives. */
  datatype Sys = Sys(cell: Cell, inFlight: nat)

  /** One step: the new system, the stream's answer to a poll, the waker a
      completion woke; or the callback's panic. */
  datatype StepResult =
    | Stepped(sys: Sys, yielded: Option<Poll<Option<Received>>>, woken: Option<WakerId>)
    | Panic

  /** A whole run: the final system, every answer of the stream and every
      waker woken, in order; or a panic somewhere along it. */
  datatype Trace = Running(sys: Sys, answers: seq<Poll<Option<Received>>>, wakes: seq<WakerId>) | Crashed

  /** A step of the code as written, or (`corrected`) of the corrected poll. */
  function Step(s: Sys, e: StreamEvent, corrected: bool): (r: StepResult)
  {
    match e
    case Pull(l, w, submit) =>
      var n := if corrected then PollNextCorrected(s.cell, l, w, submit)
               else PollNextStep(s.cell, l, w, submit);
      Stepped(Sys(n.cell, AfterPoll(s.inFlight, n.submitted, submit)), Some(n.out), None)
    case Arrival(res) =>
      if s.inFlight == 0 then Stepped(s, None, None)  // nothing to complete
      else match RecvCallback(s.cell, res)
        case Panicked => Panic
        case Delivered(c, k) => Stepped(Sys(c, AfterCompletion(s.inFlight)), None, Some(k))
  }

  function RunStream(s: Sys, evs: seq<StreamEvent>, corrected: bool): (t: Trace)
    decreases |evs|
  {
    if evs == [] then Running(s, [], [])
    else match Step(s, evs[0], corrected)
      case Panic => Crashed
      case Stepped(s', y, k) =>
        match RunStream(s', evs[1..], corrected)
        case Crashed => Crashed
        case Running(f, ys, ks) => Running(f, y.ToSeq() + ys, k.ToSeq() + ks)
  }

  /** At most one receive is ever outstanding, the callback never meets an
      absent cell (so never panics), and the stream never ends: from a state
      that keeps the one-receive discipline, every run, of the code as written
      or corrected, keeps it and yields no `None`. */
  lemma {:induction false} AtMostOneReceive(s: Sys, evs: seq<StreamEvent>, corrected: bool)
    requires OneReceive(s.cell, s.inFlight)
    ensures RunStream(s, evs, corrected).Running?
    ensures OneReceive(RunStream(s, evs, corrected).sys.cell, RunStream(s, evs, corrected).sys.inFlight)
    ensures forall i :: 0 <= i < |RunStream(s, evs, corrected).answers| ==>
              RunStream(s, evs, corrected).answers[i] != Ready(None)
    decreases |evs|
  {
    if evs != [] {
      var st := Step(s, evs[0], corrected);
      assert st.Stepped? && OneReceive(st.sys.cell, st.sys.inFlight);
      AtMostOneReceive(st.sys, evs[1..], corrected);
    }
  }

  /** A fresh stream keeps the discipline from the start. */
  lemma FreshStreamNeverPanics(evs: seq<StreamEvent>, corrected: bool)
    ensures RunStream(Sys(None, 0), evs, corrected).Running?
  {
    AtMostOneReceive(Sys(None, 0), evs, corrected);
  }

  /** The waker stored by the last poll that got the lock, `w0` if none did. */
  function LastWaker(w0: WakerId, evs: seq<StreamEvent>): (w: WakerId)
    decreases |evs|
  {
    if evs == [] then w0
    else LastWaker(if evs[0].Pull? && evs[0].lockReady then evs[0].w else w0, evs[1..])
  }

  /** A poll while a receive is outstanding answers `Pending` and at most
      replaces the waker. */
  lemma PullWhilePending(w0: WakerId, e: StreamEvent, corrected: bool)
    requires e.Pull?
    ensures Step(Sys(Some(SubState(Pending, w0)), 1), e, corrected)
            == Stepped(Sys(Some(SubState(Pending, if e.lockReady then e.w else w0)), 1), Some(Pending), None)
  {
  }

  /** The arrival wakes the stored waker, and the next poll takes the message. */
  lemma ArrivalThenPull(w0: WakerId, res: Received, w: WakerId, submit: Result<()>, corrected: bool)
    ensures RunStream(Sys(Some(SubState(Pending, w0)), 1), [Arrival(res), Pull(true, w, submit)], corrected)
            == Running(Sys(None, 0), [Ready(Some(res))], [w0])
  {
    var tail := [Arrival(res), Pull(true, w, submit)];
    var s1 := Sys(Some(SubState(Ready(res), w0)), 0);
    assert tail[1..][1..] == [];
    assert RunStream(s1, tail[1..], corrected) == Running(Sys(None, 0), [Ready(Some(res))], []);
  }

  /** While a receive is outstanding, polls only replace the waker and answer
      `Pending`; when the message arrives only the latest waker is woken, once;
      the next poll takes the message and leaves the cell absent with nothing
      in flight. */
  lemma {:induction false} LatestWakerResumed(w0: WakerId, pulls: seq<StreamEvent>, res: Received,
                                              w: WakerId, submit: Result<()>, corrected: bool)
    requires forall i :: 0 <= i < |pulls| ==> pulls[i].Pull?
    ensures RunStream(Sys(Some(SubState(Pending, w0)), 1), pulls + [Arrival(res), Pull(true, w, submit)], corrected)
            == Running(Sys(None, 0), seq(|pulls|, _ => Pending) + [Ready(Some(res))], [LastWaker(w0, pulls)])
    decreases |pulls|
  {
    var tail := [Arrival(res), Pull(true, w, submit)];
    if pulls == [] {
      ArrivalThenPull(w0, res, w, submit, corrected);
      assert pulls + tail == tail;
    } else {
      assert pulls[0].Pull?;
      var w1 := if pulls[0].lockReady then pulls[0].w else w0;
      var evs := pulls + tail;
      var rest: seq<Poll<Option<Received>>> := seq(|pulls| - 1, _ => Pending) + [Ready(Some(res))];
      assert RunStream(Sys(Some(SubState(Pending, w0)), 1), evs, corrected)
             == Running(Sys(None, 0), [Pending] + rest, [LastWaker(w1, pulls[1..])]) by {
        assert evs[0] == pulls[0] && evs[1..] == pulls[1..] + tail;
        PullWhilePending(w0, pulls[0], corrected);
        LatestWakerResumed(w1, pulls[1..], res, w, submit, corrected);
      }
      var waiting: seq<Poll<Option<Received>>> := seq(|pulls|, _ => Pending);
      assert [Pending] + seq(|pulls| - 1, _ => Pending) == waiting;
      assert [Pending] + rest == waiting + [Ready(Some(res))];
    }
  }

  /** The code as written: a `recv_async` that fails at once yields the error
      but leaves the cell present and pending with no receive outstanding. */
  lemma FailedSubmitLeavesCellPending(w: WakerId, e: Error)
    ensures RunStream(Sys(None, 0), [Pull(true, w, Err(e))], false)
            == Running(Sys(Some(SubState(Pending, w)), 0), [Ready(Some(Err(e)))], [])
  {
  }

  /** ... and from that state the stream is stuck: whatever happens next, no
      receive is ever issued again, nothing is ever woken and every poll answers
      `Pending`. */
  lemma {:induction false} FailedSubmitStallsStream(s: Sys, evs: seq<StreamEvent>)
    requires s.inFlight == 0 && s.cell.Some? && s.cell.value.poll.Pending?
    ensures RunStream(s, evs, false).Running?
    ensures RunStream(s, evs, false).sys.inFlight == 0
    ensures RunStream(s, evs, false).wakes == []
    ensures forall i :: 0 <= i < |RunStream(s, evs, false).answers| ==>
              RunStream(s, evs, false).answers[i] == Pending
    decreases |evs|
  {
    if evs != [] {
      var st := Step(s, evs[0], false);
      assert st.Stepped? && st.sys.inFlight == 0 && st.woken == None;
      assert st.sys.cell.Some? && st.sys.cell.value.poll.Pending?;
      FailedSubmitStallsStream(st.sys, evs[1..]);
    }
  }

  /** Liveness of a waiting poll: whenever the cell is pending, a receive is
      outstanding, so a completion will come and wake the waiting task. */
  ghost predicate Live(s: Sys)
  {
    OneReceive(s.cell, s.inFlight) && (s.cell.Some? && s.cell.value.poll.Pending? ==> s.inFlight == 1)
  }

  /** The corrected poll keeps a receive outstanding whenever the cell is
      pending, over every run; the code as written does not
      (`FailedSubmitLeavesCellPending`). */
  lemma {:induction false} CorrectedKeepsReceiveInFlight(s: Sys, evs: seq<StreamEvent>)
    requires Live(s)
    ensures RunStream(s, evs, true).Running? && Live(RunStream(s, evs, true).sys)
    decreases |evs|
  {
    if evs != [] {
      var st := Step(s, evs[0], true);
      assert st.Stepped? && Live(st.sys);
      CorrectedKeepsReceiveInFlight(st.sys, evs[1..]);
    }
  }

  /** The state the code as written reaches is not live. */
  lemma AsWrittenIsNotLive(w: WakerId, e: Error)
    ensures RunStream(Sys(None, 0), [Pull(true, w, Err(e))], false).Running?
    ensures !Live(RunStream(Sys(None, 0), [Pull(true, w, Err(e))], false).sys)
  {
  }

  /** A new stream: the first poll issues the receive and waits; later polls
      only replace the waker; the arrival wakes the latest waker, once; and
      the next poll yields the message and leaves the stream as new. */
  lemma FreshStreamResumed(w0: WakerId, pulls: seq<StreamEvent>, res: Received,
                           w: WakerId, submit: Result<()>, corrected: bool)
    requires forall i :: 0 <= i < |pulls| ==> pulls[i].Pull?
    ensures RunStream(Sys(None, 0), [Pull(true, w0, Ok(()))] + pulls + [Arrival(res), Pull(true, w, submit)], corrected)
            == Running(Sys(None, 0), [Pending] + seq(|pulls|, _ => Pending) + [Ready(Some(res))], [LastWaker(w0, pulls)])
  {
    var first := Pull(true, w0, Ok(()));
    var rest := pulls + [Arrival(res), Pull(true, w, submit)];
    var evs := [first] + pulls + [Arrival(res), Pull(true, w, submit)];
    assert evs[0] == first && evs[1..] == rest;
    var s1 := Sys(Some(SubState(Pending, w0)), 1);
    assert Step(Sys(None, 0), first, corrected) == Stepped(s1, Some(Pending), None);
    LatestWakerResumed(w0, pulls, res, w, submit, corrected);
    var answers: seq<Poll<Option<Received>>> := seq(|pulls|, _ => Pending) + [Ready(Some(res))];
    assert [Pending] + answers == [Pending] + seq(|pulls|, _ => Pending) + [Ready(Some(res))];
  }
}
