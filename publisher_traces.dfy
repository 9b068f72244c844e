/** Runs of the publishing adapter: any sequence of poll calls, submissions and
    send completions, applied one atomic step at a time, and what holds of all
    of them. */
module PublisherTraces {
  import opened Async
  import opened Publisher

  /** One atomic step: a call into the sink, or the transport's send callback. */
  datatype SinkEvent =
    | ReadyCheck(lockReady: bool, w: WakerId)
    | Submit(item: Message, submit: Outcome)
    | Flush(lockReady: bool, w: WakerId)
    | Close(lockReady: bool, w: WakerId)
    | SendDone(outcome: Outcome)

  /** What one step does: the new cell, the answer of a poll call, the waker
      woken by a callback. */
  datatype Effect = Effect(state: SinkState, reported: Option<Poll<Outcome>>, woken: Option<WakerId>)

  /** A whole run: the final cell, the answers of all poll calls in order, and
      every waker woken, in order. */
  datatype Trace = Trace(final: SinkState, reports: seq<Poll<Outcome>>, wakes: seq<WakerId>)

  /** One step of the code as written, or (`corrected`) of the sink with
      `PollReadyCorrected` and `StartSendCorrected`. */
  function Apply(s: SinkState, e: SinkEvent, corrected: bool): (f: Effect)
  {
    match e
    case ReadyCheck(l, w) =>
      var p := if corrected then PollReadyCorrected(s, l, w) else PollReadyStep(s, l, w);
      Effect(p.state, Some(p.out), None)
    case Submit(_, submit) => Effect(if corrected then StartSendCorrected(s, submit) else s, None, None)
    case Flush(l, w) =>
      var p := PollFlushStep(s, l, w); Effect(p.state, Some(p.out), None)
    case Close(l, w) =>
      var p := PollFlushStep(s, l, w); Effect(p.state, Some(p.out), None)
    case SendDone(o) =>
      var c := SendCallback(s, o); Effect(c.state, None, c.woken)
  }

  function Run(s: SinkState, evs: seq<SinkEvent>, corrected: bool): (t: Trace)
    decreases |evs|
  {
    if evs == [] then Trace(s, [], [])
    else
      var f := Apply(s, evs[0], corrected);
      var t := Run(f.state, evs[1..], corrected);
      Trace(t.final, f.reported.ToSeq() + t.reports, f.woken.ToSeq() + t.wakes)
  }

  /** Whether a step stores a waker in the cell. */
  predicate Registers(e: SinkEvent)
  {
    (e.ReadyCheck? || e.Flush? || e.Close?) && e.lockReady
  }

  function Registrations(evs: seq<SinkEvent>): (n: nat)
    decreases |evs|
  {
    if evs == [] then 0
    else (if Registers(evs[0]) then 1 else 0) + Registrations(evs[1..])
  }

  /** 1 when the cell holds a waker. */
  function Held(s: SinkState): (n: nat)
  {
    if s.waker.Some? then 1 else 0
  }

  /** A run splits at any point into two runs. */
  lemma {:induction false} RunAppend(s: SinkState, a: seq<SinkEvent>, b: seq<SinkEvent>, corrected: bool)
    ensures Run(s, a + b, corrected).final == Run(Run(s, a, corrected).final, b, corrected).final
    ensures Run(s, a + b, corrected).reports
            == Run(s, a, corrected).reports + Run(Run(s, a, corrected).final, b, corrected).reports
    ensures Run(s, a + b, corrected).wakes
            == Run(s, a, corrected).wakes + Run(Run(s, a, corrected).final, b, corrected).wakes
    decreases |a|
  {
    if a != [] {
      assert (a + b)[0] == a[0];
      assert (a + b)[1..] == a[1..] + b;
      RunAppend(Apply(s, a[0], corrected).state, a[1..], b, corrected);
    } else {
      assert a + b == b;
    }
  }

  /** The callback takes the waker out of the cell, so every wake uses up one
      registration: over any run, the wakes plus the waker still held never
      exceed the registrations plus the waker held at the start. A waker is
      never woken twice without being stored again. This holds of the code as
      written and of the corrected sink. */
  lemma {:induction false} WakesBoundedByRegistrations(s: SinkState, evs: seq<SinkEvent>, corrected: bool)
    ensures |Run(s, evs, corrected).wakes| + Held(Run(s, evs, corrected).final) <= Registrations(evs) + Held(s)
    decreases |evs|
  {
    if evs != [] {
      WakesBoundedByRegistrations(Apply(s, evs[0], corrected).state, evs[1..], corrected);
    }
  }

  /** Steps that leave the stored outcome alone: submissions, flushes, closes
      and readiness checks that did not get the lock. */
  predicate Keeps(e: SinkEvent)
  {
    e.Submit? || e.Flush? || e.Close? || (e.ReadyCheck? && !e.lockReady)
  }

  /** Flush and close never consume the stored outcome: until a completion
      arrives or a readiness check that gets the lock consumes it, the outcome
      stays, every report is that outcome or `Pending`, and nothing is woken. */
  lemma {:induction false} FlushIsIdempotent(s: SinkState, evs: seq<SinkEvent>)
    requires forall i :: 0 <= i < |evs| ==> Keeps(evs[i])
    ensures Run(s, evs, false).final.poll == s.poll
    ensures forall i :: 0 <= i < |Run(s, evs, false).reports| ==>
              Run(s, evs, false).reports[i] == s.poll || Run(s, evs, false).reports[i] == Pending
    ensures Run(s, evs, false).wakes == []
    decreases |evs|
  {
    if evs != [] {
      assert Keeps(evs[0]);
      FlushIsIdempotent(Apply(s, evs[0], false).state, evs[1..]);
    }
  }

  /** Whether a step is a submission, or a flush or close that gets the lock. */
  predicate LockedFlushOrSubmit(e: SinkEvent)
  {
    e.Submit? || ((e.Flush? || e.Close?) && e.lockReady)
  }

  /** Repeated flushes and closes that get the lock all report exactly the
      stored outcome, whatever submissions come between them, and leave it in
      place. */
  lemma {:induction false} RepeatedFlushesAgree(s: SinkState, evs: seq<SinkEvent>)
    requires forall i :: 0 <= i < |evs| ==> LockedFlushOrSubmit(evs[i])
    ensures Run(s, evs, false).final.poll == s.poll
    ensures forall i :: 0 <= i < |Run(s, evs, false).reports| ==> Run(s, evs, false).reports[i] == s.poll
    decreases |evs|
  {
    if evs != [] {
      assert LockedFlushOrSubmit(evs[0]);
      RepeatedFlushesAgree(Apply(s, evs[0], false).state, evs[1..]);
    }
  }

  /** One item handed to the sink; `waits` gives, for each flush the task
      polls before the send completes, whether that poll got the lock; and the
      outcome the send callback reports. */
  datatype Send = Send(item: Message, waits: seq<bool>, outcome: Outcome)

  /** Flushes by the task with waker `w`, one per entry of `locks`. */
  function Flushes(w: WakerId, locks: seq<bool>): (evs: seq<SinkEvent>)
    decreases |locks|
  {
    if locks == [] then [] else [Flush(locks[0], w)] + Flushes(w, locks[1..])
  }

  /** The producer protocol for one item, run by the task with waker `w`:
      readiness check, submission accepted by the transport, flushes polled
      while the send is in flight, the transport's completion, and the flush
      that sees it. */
  function Cycle(w: WakerId, x: Send): (evs: seq<SinkEvent>)
  {
    [ReadyCheck(true, w), Submit(x.item, Ok(()))] + Flushes(w, x.waits)
      + [SendDone(x.outcome), Flush(true, w)]
  }

  function Cycles(w: WakerId, xs: seq<Send>): (evs: seq<SinkEvent>)
    decreases |xs|
  {
    if xs == [] then [] else Cycle(w, xs[0]) + Cycles(w, xs[1..])
  }

  /** What the producer should see: each readiness check reports the outcome of
      the previous send (`prev` for the first), each flush that of its own. */
  function Expected(prev: Outcome, xs: seq<Send>): (reports: seq<Poll<Outcome>>)
    decreases |xs|
  {
    if xs == [] then []
    else [Ready(prev)] + seq(|xs[0].waits|, _ => Pending) + [Ready(xs[0].outcome)]
         + Expected(xs[0].outcome, xs[1..])
  }

  function LastOutcome(prev: Outcome, xs: seq<Send>): (o: Outcome)
  {
    if xs == [] then prev else xs[|xs| - 1].outcome
  }

  /** While the send is in flight, every flush answers `Pending`; one that
      gets the lock stores `w` again, one that misses it changes nothing. */
  lemma {:induction false} FlushesWhileInFlight(w: WakerId, locks: seq<bool>, corrected: bool)
    ensures Run(SinkState(Pending, Some(w)), Flushes(w, locks), corrected)
            == Trace(SinkState(Pending, Some(w)), seq(|locks|, _ => Pending), [])
    decreases |locks|
  {
    if locks != [] {
      var evs := Flushes(w, locks);
      assert evs[0] == Flush(locks[0], w) && evs[1..] == Flushes(w, locks[1..]);
      FlushesWhileInFlight(w, locks[1..], corrected);
      var waiting: seq<Poll<Outcome>> := seq(|locks|, _ => Pending);
      assert [Pending] + seq(|locks| - 1, _ => Pending) == waiting;
    }
  }

  /** The start of a cycle: the readiness check reports the stored outcome and
      the accepted submission leaves the cell armed. */
  lemma CycleHead(s: SinkState, w: WakerId, item: Message, corrected: bool)
    requires s.poll.Ready?
    ensures Run(s, [ReadyCheck(true, w), Submit(item, Ok(()))], corrected)
            == Trace(SinkState(Pending, Some(w)), [s.poll], [])
  {
    var head := [ReadyCheck(true, w), Submit(item, Ok(()))];
    var armed := SinkState(Pending, Some(w));
    var checked := if corrected then s.(waker := Some(w)) else armed;
    assert Apply(s, head[0], corrected) == Effect(checked, Some(s.poll), None);
    assert Apply(checked, head[1], corrected) == Effect(armed, None, None);
    assert head[1..][1..] == [];
    assert Run(checked, head[1..], corrected) == Trace(armed, [], []);
  }

  /** The end of a cycle: the completion wakes the task, whose flush then
      reports the outcome. */
  lemma CycleTail(w: WakerId, o: Outcome, corrected: bool)
    ensures Run(SinkState(Pending, Some(w)), [SendDone(o), Flush(true, w)], corrected)
            == Trace(SinkState(Ready(o), Some(w)), [Ready(o)], [w])
  {
    var tail := [SendDone(o), Flush(true, w)];
    assert tail[1..][1..] == [];
    assert Run(SinkState(Ready(o), None), tail[1..], corrected)
           == Trace(SinkState(Ready(o), Some(w)), [Ready(o)], []);
  }

  /** Two runs one after the other are one run. */
  lemma Compose(s: SinkState, a: seq<SinkEvent>, b: seq<SinkEvent>, corrected: bool, ta: Trace, tb: Trace)
    requires Run(s, a, corrected) == ta && Run(ta.final, b, corrected) == tb
    ensures Run(s, a + b, corrected) == Trace(tb.final, ta.reports + tb.reports, ta.wakes + tb.wakes)
  {
    RunAppend(s, a, b, corrected);
  }

  lemma {:induction false} OneCycle(s: SinkState, w: WakerId, x: Send, corrected: bool)
    requires s.poll.Ready?
    ensures Run(s, Cycle(w, x), corrected) ==
            Trace(SinkState(Ready(x.outcome), Some(w)),
                  [s.poll] + seq(|x.waits|, _ => Pending) + [Ready(x.outcome)], [w])
  {
    var head := [ReadyCheck(true, w), Submit(x.item, Ok(()))];
    var waits := Flushes(w, x.waits);
    var tail := [SendDone(x.outcome), Flush(true, w)];
    var armed := SinkState(Pending, Some(w));
    var done := SinkState(Ready(x.outcome), Some(w));
    var pending: seq<Poll<Outcome>> := seq(|x.waits|, _ => Pending);
    var tw := Trace(armed, pending, []);
    var tt := Trace(done, [Ready(x.outcome)], [w]);
    var th := Trace(armed, [s.poll], []);
    var rest := Trace(done, pending + [Ready(x.outcome)], [] + [w]);
    assert Run(armed, waits + tail, corrected) == rest by {
      FlushesWhileInFlight(w, x.waits, corrected);
      CycleTail(w, x.outcome, corrected);
      Compose(armed, waits, tail, corrected, tw, tt);
    }
    assert Run(s, head + (waits + tail), corrected)
           == Trace(done, th.reports + rest.reports, th.wakes + rest.wakes) by {
      CycleHead(s, w, x.item, corrected);
      Compose(s, head, waits + tail, corrected, th, rest);
    }
    assert Cycle(w, x) == head + (waits + tail);
    assert th.reports + rest.reports == [s.poll] + pending + [Ready(x.outcome)];
    assert th.wakes + rest.wakes == [w];
  }

  /** For any number of items pushed through the producer protocol, each
      readiness check reports the outcome of the previous send, the flushes
      polled while a send is in flight answer `Pending`, the flush after its
      completion reports exactly its outcome, in submission order, and each
      completion wakes the waiting task once. This holds of the code as
      written and of the corrected sink. */
  lemma {:induction false} SendsReportedInOrder(s: SinkState, w: WakerId, xs: seq<Send>, corrected: bool)
    requires s.poll.Ready?
    ensures Run(s, Cycles(w, xs), corrected).reports == Expected(s.poll.value, xs)
    ensures Run(s, Cycles(w, xs), corrected).wakes == seq(|xs|, _ => w)
    ensures Run(s, Cycles(w, xs), corrected).final.poll == Ready(LastOutcome(s.poll.value, xs))
    decreases |xs|
  {
    if xs != [] {
      RunAppend(s, Cycle(w, xs[0]), Cycles(w, xs[1..]), corrected);
      OneCycle(s, w, xs[0], corrected);
      var s' := SinkState(Ready(xs[0].outcome), Some(w));
      SendsReportedInOrder(s', w, xs[1..], corrected);
      assert LastOutcome(xs[0].outcome, xs[1..]) == LastOutcome(s.poll.value, xs);
      assert [w] + seq(|xs| - 1, _ => w) == seq(|xs|, _ => w);
    }
  }

  /** A new sink's first readiness check succeeds at once and re-arms it. */
  lemma FirstReadyCheckSucceeds(w: WakerId)
    ensures PollReadyStep(Fresh, true, w) == PollResult(SinkState(Pending, Some(w)), Ready(Ok(())))
  {
  }

  /** A send that fails in transit: flush reports the error, the next readiness
      check reports it once more and consumes it, after which flush reports
      `Pending` until the next completion. */
  lemma {:induction false} ErrorSurfacesUntilConsumed(s: SinkState, e: Error, w: WakerId)
    ensures Run(s, [SendDone(Err(e)), Flush(true, w), ReadyCheck(true, w), Flush(true, w)], false).reports
            == [Ready(Err(e)), Ready(Err(e)), Pending]
  {
    var evs := [SendDone(Err(e)), Flush(true, w), ReadyCheck(true, w), Flush(true, w)];
    var s1 := SinkState(Ready(Err(e)), None);
    var s2 := SinkState(Ready(Err(e)), Some(w));
    var s3 := SinkState(Pending, Some(w));
    assert Run(s3, evs[3..], false).reports == [Pending] by {
      assert evs[3..][0] == Flush(true, w) && evs[3..][1..] == [];
      assert Apply(s3, Flush(true, w), false) == Effect(s3, Some(Pending), None);
    }
    assert Run(s2, evs[2..], false).reports == [Ready(Err(e)), Pending] by {
      assert evs[2..][0] == ReadyCheck(true, w) && evs[2..][1..] == evs[3..];
      assert Apply(s2, ReadyCheck(true, w), false) == Effect(s3, Some(Ready(Err(e))), None);
    }
    assert Run(s1, evs[1..], false).reports == [Ready(Err(e)), Ready(Err(e)), Pending] by {
      assert evs[1..][0] == Flush(true, w) && evs[1..][1..] == evs[2..];
      assert Apply(s1, Flush(true, w), false) == Effect(s2, Some(Ready(Err(e))), None);
    }
    assert Apply(s, SendDone(Err(e)), false).state == s1;
  }

  /** The code as written consumes the outcome on the first readiness check
      that gets the lock. From then on, until a send completes, nothing can
      wake the task: whatever it polls answers `Pending`, the outcome stays
      `Pending` and no waker is woken. A second readiness check without a
      submission between them therefore stalls. */
  lemma {:induction false} SecondReadyCheckStalls(s: SinkState, evs: seq<SinkEvent>)
    requires s.poll.Pending?
    requires forall i :: 0 <= i < |evs| ==> !evs[i].SendDone?
    ensures Run(s, evs, false).final.poll == Pending
    ensures forall i :: 0 <= i < |Run(s, evs, false).reports| ==> Run(s, evs, false).reports[i] == Pending
    ensures Run(s, evs, false).wakes == []
    decreases |evs|
  {
    if evs != [] {
      assert !evs[0].SendDone?;
      SecondReadyCheckStalls(Apply(s, evs[0], false).state, evs[1..]);
    }
  }

  /** Two readiness checks on a new sink: the code as written answers the
      second with `Pending`, the corrected sink reports the same outcome
      twice. */
  lemma RepeatedReadyCheck(w: WakerId, w': WakerId)
    ensures Run(Fresh, [ReadyCheck(true, w), ReadyCheck(true, w')], false).reports == [Ready(Ok(())), Pending]
    ensures Run(Fresh, [ReadyCheck(true, w), ReadyCheck(true, w')], true).reports == [Ready(Ok(())), Ready(Ok(()))]
  {
    var evs := [ReadyCheck(true, w), ReadyCheck(true, w')];
    assert evs[0] == ReadyCheck(true, w) && evs[1..] == [ReadyCheck(true, w')];
    assert Run(Fresh, evs, false).reports == [Ready(Ok(())), Pending] by {
      var consumed := SinkState(Pending, Some(w));
      assert Apply(Fresh, ReadyCheck(true, w), false) == Effect(consumed, Some(Ready(Ok(()))), None);
      assert Run(consumed, evs[1..], false).reports == [Pending] by {
        assert evs[1..][0] == ReadyCheck(true, w') && evs[1..][1..] == [];
      }
    }
    assert Run(Fresh, evs, true).reports == [Ready(Ok(())), Ready(Ok(()))] by {
      var kept := SinkState(Ready(Ok(())), Some(w));
      assert Apply(Fresh, ReadyCheck(true, w), true) == Effect(kept, Some(Ready(Ok(()))), None);
      assert Run(kept, evs[1..], true).reports == [Ready(Ok(()))] by {
        assert evs[1..][0] == ReadyCheck(true, w') && evs[1..][1..] == [];
      }
    }
  }

  /** Whether a step is a readiness check, flush or close that gets the lock. */
  predicate LockedCheck(e: SinkEvent)
  {
    (e.ReadyCheck? || e.Flush? || e.Close?) && e.lockReady
  }

  /** With the corrected sink, readiness checks are idempotent: any number of
      readiness checks, flushes and closes that get the lock all report the
      stored outcome and leave it in place until a submission consumes it. */
  lemma {:induction false} CorrectedReadyCheckIdempotent(s: SinkState, evs: seq<SinkEvent>)
    requires forall i :: 0 <= i < |evs| ==> LockedCheck(evs[i])
    ensures Run(s, evs, true).final.poll == s.poll
    ensures forall i :: 0 <= i < |Run(s, evs, true).reports| ==> Run(s, evs, true).reports[i] == s.poll
    ensures Run(s, evs, true).wakes == []
    decreases |evs|
  {
    if evs != [] {
      assert LockedCheck(evs[0]);
      CorrectedReadyCheckIdempotent(Apply(s, evs[0], true).state, evs[1..]);
    }
  }
}
