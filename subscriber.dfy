/** The subscribing adapter `SubStream`: a `Stream` of received messages whose
    completion cell is absent while nobody waits, `Pending` while a receive is
    outstanding and `Ready` once the receive callback has filled it in.

    As for the publisher, every poll and every callback invocation is one
    atomic step under the mutex, and `lockReady` says whether the lock future
    was ready. */
module Subscriber {
  import opened Async

  /** What one receive delivers. */
  type Received = Result<Message>

  /** The contents of a present cell (`SubStreamState`). */
  datatype SubState = SubState(poll: Poll<Received>, waker: WakerId)

  /** The whole cell: absent, or present with a pending or ready outcome. */
  type Cell = Option<SubState>

  /** The new cell, the answer of `poll_next`, and whether it called
      `recv_async`. */
  datatype NextResult = NextResult(cell: Cell, out: Poll<Option<Received>>, submitted: bool)

  /** What the receive callback does: fill in the cell and wake its waker, or
      panic because nobody is waiting. */
  datatype Delivery = Delivered(cell: Cell, woken: WakerId) | Panicked

  /** The transport's bookkeeping that the adapter relies on: at most one
      accepted receive is outstanding, and while one is, the cell is present
      and pending. `inFlight` counts receives the transport has accepted and
      not yet completed. */
  ghost predicate OneReceive(c: Cell, inFlight: nat)
  {
    inFlight <= 1 && (inFlight == 1 ==> c.Some? && c.value.poll.Pending?)
  }

  /** The transport's count after a poll: one more when the poll issued a
      receive and the transport accepted it. */
  function AfterPoll(inFlight: nat, submitted: bool, submit: Result<()>): (n: nat)
  {
    inFlight + (if submitted && submit.Ok? then 1 else 0)
  }

  /** The transport's count after it completes a receive. */
  function AfterCompletion(inFlight: nat): (n: nat)
  {
    if inFlight == 0 then 0 else inFlight - 1
  }

  /** `poll_next`, as written: `submit` is the transport's immediate answer to
      `recv_async`, consulted only when the receive is issued. */
  function PollNextStep(c: Cell, lockReady: bool, w: WakerId, submit: Result<()>): (r: NextResult)
    ensures !lockReady ==> r == NextResult(c, Pending, false)
    ensures r.out != Ready(None)
    ensures r.submitted <==> lockReady && c.None?
    ensures r.out.Ready? <==> lockReady && (c.None? ==> submit.Err?) && (c.Some? ==> c.value.poll.Ready?)
    ensures lockReady ==> (r.cell.None? <==> r.out.Ready? && c.Some?)
    ensures lockReady && r.cell.Some? ==> r.cell.value == SubState(Pending, w)
    ensures lockReady && c.Some? && c.value.poll.Ready? ==> r.out == Ready(Some(c.value.poll.value))
    ensures lockReady && c.None? && submit.Err? ==> r.out == Ready(Some(Err(submit.error)))
  {
    if !lockReady then NextResult(c, Pending, false)
    else match c
      case None =>
        NextResult(Some(SubState(Pending, w)),
                   if submit.Err? then Ready(Some(Err(submit.error))) else Pending,
                   true)
      case Some(SubState(Pending, _)) => NextResult(Some(SubState(Pending, w)), Pending, false)
      case Some(SubState(Ready(res), _)) => NextResult(None, Ready(Some(res)), false)
  }

  /** `poll_next` as evidently intended: when `recv_async` fails at once the
      error is returned and the cell is left absent, so that the next poll
      issues a fresh receive. Only the cell left behind differs from the code. */
  function PollNextCorrected(c: Cell, lockReady: bool, w: WakerId, submit: Result<()>): (r: NextResult)
    ensures r.out == PollNextStep(c, lockReady, w, submit).out
    ensures r.submitted == PollNextStep(c, lockReady, w, submit).submitted
    ensures r.submitted && submit.Err? ==> r.cell.None?
    ensures !(r.submitted && submit.Err?) ==> r == PollNextStep(c, lockReady, w, submit)
  {
    var n := PollNextStep(c, lockReady, w, submit);
    if n.submitted && submit.Err? then n.(cell := None) else n
  }

  /** The receive callback registered in `SubStream::new`. It does not remove
      the waker from the cell. */
  function RecvCallback(c: Cell, res: Received): (d: Delivery)
  {
    match c
    case None => Panicked
    case Some(st) => Delivered(Some(st.(poll := Ready(res))), st.waker)
  }

  class SubStream {
    var state: Cell
    /** Receives the transport has accepted and not yet completed. */
    ghost var inFlight: nat

    ghost predicate Valid()
      reads this
    {
      OneReceive(state, inFlight)
    }

    /** The cell as `SubStream::new` creates it: absent. */
    constructor ()
      ensures Valid() && state == None && inFlight == 0
    {
      state := None;
      inFlight := 0;
    }

    method PollNext(lockReady: bool, w: WakerId, submit: Result<()>)
      returns (r: Poll<Option<Received>>, submitted: bool)
      requires Valid()
      modifies this
      ensures Valid()
      ensures NextResult(state, r, submitted) == PollNextStep(old(state), lockReady, w, submit)
      ensures !lockReady ==> r == Pending && state == old(state)
      ensures inFlight == AfterPoll(old(inFlight), submitted, submit)
      ensures submitted ==> old(inFlight) == 0
    {
      if !lockReady {
        return Pending, false;
      }
      match state
      case None =>
        state := Some(SubState(Pending, w));
        submitted := true;
        if submit.Err? {
          // The cell stays present and pending.
          return Ready(Some(Err(submit.error))), true;
        }
        inFlight := inFlight + 1;
        r := Pending;
      case Some(SubState(Pending, _)) =>
        state := Some(SubState(Pending, w));
        r, submitted := Pending, false;
      case Some(SubState(Ready(res), _)) =>
        state := None;
        r, submitted := Ready(Some(res)), false;
    }

    /** The receive callback. The transport calls it only for a receive it
        accepted; when it does, nobody-waiting cannot occur. */
    method OnRecv(res: Received) returns (d: Delivery)
      requires Valid()
      modifies this
      ensures Valid()
      ensures d == RecvCallback(old(state), res)
      ensures d.Panicked? <==> old(state).None?
      ensures d.Panicked? ==> state == old(state) && inFlight == old(inFlight)
      ensures d.Delivered? ==> inFlight == AfterCompletion(old(inFlight))
      ensures d.Delivered? ==> state == d.cell && d.woken == old(state).value.waker
      ensures old(inFlight) == 1 ==> d.Delivered? && inFlight == 0
    {
      match state
      case None =>
        d := Panicked;
      case Some(st) =>
        state := Some(st.(poll := Ready(res)));
        d := Delivered(state, st.waker);
        inFlight := AfterCompletion(inFlight);
    }
  }
}
