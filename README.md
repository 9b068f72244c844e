# nng-futures: the completion cells of `PubSink` and `SubStream`

The crate bridges nng's callback-driven asynchronous I/O (an `Aio` whose
callback fires on a transport thread when a send or receive finishes) to the
`futures` crate's poll-based `Sink` and `Stream`. Each adapter shares one
mutex-guarded completion cell with its callback:

- `PubSink` keeps `PubSinkState { poll, waker }`. The cell starts
  `Ready(Ok(()))`. `poll_ready` takes a ready outcome and re-arms the cell to
  `Pending`. `start_send` hands the item to the transport. The send callback
  stores `Ready(outcome)` and takes and wakes the stored waker. `poll_flush`
  and `poll_close` report the stored outcome without consuming it.
- `SubStream` keeps `Option<SubStreamState { poll, waker }>`. `poll_next`
  creates the cell and issues one `recv_async` when the cell is absent. It
  only refreshes the waker while the cell is pending. It takes the outcome and
  resets the cell to absent once it is ready. The receive callback fills in
  the outcome and wakes the waker, and it panics when no cell exists.

The model treats every method call and every callback invocation as one
atomic step, as the mutex makes them:

- `async.dfy` (module `Async`) holds `Poll`, `Option`, `Result`, the
  transport's opaque `Error`, wakers as opaque tokens (`WakerId`) and
  messages as opaque byte strings.
- `publisher.dfy` (module `Publisher`) holds the cell contents `SinkState`,
  a pure step function for each poll method and for the callback, and the
  class `PubSink`. Its fields are the cell's `poll` and `waker`, and its
  methods are proved against those step functions.
- `subscriber.dfy` (module `Subscriber`) does the same for `SubStream`. Its
  ghost field `inFlight` counts the receives the transport has accepted and
  not yet completed, and its invariant `OneReceive` is kept by every method.
  The functions `AfterPoll` and `AfterCompletion` update that count. The
  class methods and the trace model both use them, so the two stay in step.
- `publisher_traces.dfy` and `subscriber_traces.dfy` run arbitrary sequences
  of calls and callback invocations through the step functions. Their
  lemmas, proved by induction over those sequences, cover wake accounting,
  in-order reporting of send outcomes (with any number of flushes polled
  while a send is in flight, whether or not they get the lock), flushes that
  get the lock always reporting the stored outcome, at most one
  outstanding receive, no panic, resumption of the latest waker, and the
  two stalls described under "## Findings".

Two things are parameters here:
- `lockReady` says whether the mutex's lock future was ready. When it is
  not, every poll method answers `Pending` and changes nothing.
- `submit` is the transport's immediate answer to `send_async` or
  `recv_async`.

A waker that is woken is returned to the caller of the step.

The natural reading of `poll_next` is that a `recv_async` that fails at
once leaves the cell absent. The code (src/lib.rs:151-154) stores
`Some(Pending)` before the call and keeps it when the call fails. The model
follows the code. The consequence is recorded under "## Findings".

The `futures` `Sink` contract requires that a `Pending` answer from
`poll_ready` is followed by a wake once the task should poll again, so
repeated readiness checks without a submission should return the same
`Ready` outcome until a submission consumes it. The code breaks this. `poll_ready` consumes the outcome on its first success
(src/lib.rs:59-61). A second readiness check before any `start_send` then
answers `Pending` while nothing is in flight, so no callback will ever wake
the caller. In the code the idempotent operation is flush, not the
readiness check. The classes model the code as written. The trace model of
the sink also runs a corrected sink, whose readiness check does not consume
the outcome and whose accepted submission does. This is the second row
under "## Findings".

## Model

| member | source | states |
|---|---|---|
| `Publisher.PubSink.constructor` | src/lib.rs:23 | A new sink's cell is `Ready(Ok(()))` with no waker |
| `Publisher.PubSink.PollReady` | src/lib.rs:52-64 | Without the lock: answers `Pending` and leaves the cell alone. With it: stores the caller's waker, answers the stored poll (a ready outcome is returned whether it is `Ok` or `Err`) and leaves the cell `Pending` |
| `Publisher.PubSink.StartSend` | src/lib.rs:66-68 | Returns the transport's answer to the send and changes no part of the cell (no `modifies`) |
| `Publisher.PubSink.PollFlush` | src/lib.rs:70-78 | Without the lock: `Pending`, nothing changes. With it: reports the stored outcome without changing it and stores the caller's waker |
| `Publisher.PubSink.PollClose` | src/lib.rs:80-88 | Same as flush: reports the stored outcome unchanged and stores the caller's waker |
| `Publisher.PubSink.OnSendComplete` | src/lib.rs:28-36 | The callback leaves the cell `Ready(outcome)` with the waker slot empty, and wakes exactly the waker that was stored |
| `PublisherTraces.FirstReadyCheckSucceeds` | src/lib.rs:23 | The first readiness check on a new sink gets the lock, answers `Ready(Ok(()))` and re-arms the cell |
| `Publisher.PollReadyCorrected` | src/lib.rs:52-64 | The intended `poll_ready`: the same answer and the same stored waker as the code, but the stored outcome is left in place, as flush does |
| `Publisher.StartSendCorrected` | src/lib.rs:66-68 | The intended `start_send` to go with it: the waker is kept; the cell is left pending exactly when the transport accepted the item or a send was already pending; a rejected item changes nothing |
| `PublisherTraces.WakesBoundedByRegistrations` | src/lib.rs:28-36 | Over any run, of the code as written or corrected, wakes plus the waker still held never exceed the wakers registered plus the one held at the start: a stored waker is woken at most once until it is stored again |
| `PublisherTraces.FlushIsIdempotent` | src/lib.rs:66-88 | Over any run of flushes, closes, submissions and readiness checks that miss the lock, the stored outcome never changes, every report is that outcome or `Pending` (a lock miss), and nothing is woken |
| `PublisherTraces.RepeatedFlushesAgree` | src/lib.rs:66-88 | Over any run of submissions and of flushes and closes that get the lock, every report is exactly the stored outcome and the outcome stays in place |
| `PublisherTraces.SendsReportedInOrder` | src/lib.rs:28-88 | For any number of items, each pushed through a readiness check, a submission, any number of flushes polled while the send is in flight (with or without the lock), the completion and a flush: each readiness check reports the previous send's outcome, the in-flight flushes answer `Pending`, and the flush after the completion reports that send's own outcome, in submission order. Each completion wakes the waiting task once. The cell ends ready with the last outcome. This holds of the code as written and of the corrected sink |
| `PublisherTraces.ErrorSurfacesUntilConsumed` | src/lib.rs:32-63 | A send that fails in transit: flush reports the error, the next readiness check reports it once more and clears it, and the following flush reports `Pending` |
| `PublisherTraces.SecondReadyCheckStalls` | src/lib.rs:59-61 | As written: once a readiness check has consumed the outcome, every run without a send completion answers only `Pending`, keeps the cell `Pending` and wakes nobody, so a second readiness check without a submission stalls |
| `PublisherTraces.RepeatedReadyCheck` | src/lib.rs:52-64 | Two readiness checks on a new sink: the code answers `Ready(Ok(()))` then `Pending`, and the corrected sink answers `Ready(Ok(()))` twice |
| `PublisherTraces.CorrectedReadyCheckIdempotent` | src/lib.rs:52-64 | With the corrected sink, any run of readiness checks, flushes and closes that get the lock reports exactly the stored outcome every time, leaves it in place and wakes nobody |
| `Subscriber.PollNextStep` | src/lib.rs:144-171 | Without the lock: answers `Pending`, issues nothing and leaves the cell alone. The stream never yields `None`. A receive is issued exactly when the lock is held and the cell is absent. The answer is ready exactly when a failed submission or a ready cell is met. A failed submission yields its error, and a ready cell yields its outcome. With the lock, the cell is reset to absent exactly when a ready outcome is taken; otherwise it is left pending with the caller's waker |
| `Subscriber.PollNextCorrected` | src/lib.rs:150-157 | The intended `poll_next`: the same answers and submissions as the code; a failed submission leaves the cell absent, and in every other case the result is exactly the code's |
| `Subscriber.SubStream.constructor` | src/lib.rs:109 | A new stream's cell is absent and nothing is in flight |
| `Subscriber.SubStream.PollNext` | src/lib.rs:144-171 | Follows `PollNextStep` for the answer, the new cell and the receive issued. Without the lock it answers `Pending` and leaves the cell alone. It issues a receive only when none is in flight, and it keeps `OneReceive` |
| `Subscriber.SubStream.OnRecv` | src/lib.rs:114-125 | Panics exactly when the cell is absent, leaving it absent. Otherwise it stores `Ready(res)`, keeps the waker in the cell and wakes it. A completion of an accepted receive never panics. Keeps `OneReceive` |
| `SubscriberTraces.AtMostOneReceive` | src/lib.rs:114-171 | From any state with at most one outstanding receive, every run keeps at most one outstanding receive, whether the code is as written or corrected. No run panics and no run yields `None` |
| `SubscriberTraces.FreshStreamNeverPanics` | src/lib.rs:118-124 | No run of a new stream reaches the callback's panic |
| `SubscriberTraces.LatestWakerResumed` | src/lib.rs:159-168 | While a receive is outstanding, any number of polls answer `Pending` and only replace the waker. The arrival wakes only the latest waker, once. The next poll yields the message, resets the cell to absent and leaves nothing in flight |
| `SubscriberTraces.FreshStreamResumed` | src/lib.rs:144-171 | On a new stream, the first poll issues the receive and answers `Pending`, later polls answer `Pending`, the arrival wakes the latest waker once, and the next poll yields the message and leaves the stream as new |
| `SubscriberTraces.FailedSubmitLeavesCellPending` | src/lib.rs:150-155 | As written: a `recv_async` that fails at once yields the error and leaves the cell `Some(Pending)` with no receive in flight |
| `SubscriberTraces.FailedSubmitStallsStream` | src/lib.rs:150-164 | As written: from a pending cell with nothing in flight, every later run issues no receive, wakes nobody and answers only `Pending` |
| `SubscriberTraces.AsWrittenIsNotLive` | src/lib.rs:151-154 | The state the code as written reaches after a failed submission breaks the liveness invariant `Live` (a pending cell implies a receive in flight) |
| `SubscriberTraces.CorrectedKeepsReceiveInFlight` | src/lib.rs:150-157 | With the corrected `poll_next`, every run keeps `Live`: whenever the cell is pending, a receive is in flight, so a completion will wake the waiting task |

## Findings

| source | as written | input that shows it | evidently intended | confidence | as-written member | corrected member |
|---|---|---|---|---|---|---|
| src/lib.rs:151-154 | `poll_next` stores `Some(Pending)` before calling `recv_async` and returns the error without resetting the cell when that call fails | On an absent cell, `recv_async` fails at once with `Err(e)`. The poll yields `Err(e)`. Every later poll sees a pending cell, answers `Pending` and never issues a receive, and no callback can come to wake the task | A failed submission leaves the cell absent, so the next poll issues a fresh receive, as the comment at line 166 does for the ready case | medium, not executed | `SubscriberTraces.FailedSubmitStallsStream` | `Subscriber.PollNextCorrected` |
| src/lib.rs:59-61 | `poll_ready` consumes the ready outcome (re-arms the cell to `Pending`) on its first success, before any item is submitted | On a new sink, two readiness checks with no `start_send` between them: the first answers `Ready(Ok(()))`, the second `Pending`. Nothing is in flight, so no callback wakes the task | Repeated readiness checks report the same ready outcome until a submission consumes it, since under the `futures` `Sink` contract a `Pending` readiness must be followed by a wake | medium, not executed | `PublisherTraces.SecondReadyCheckStalls` | `Publisher.PollReadyCorrected` |

The class `Subscriber.SubStream` models the code as written. The corrected
step is what `SubscriberTraces.CorrectedKeepsReceiveInFlight` proves live.
Likewise the class `Publisher.PubSink` models the code as written.
`Publisher.PollReadyCorrected` goes together with
`Publisher.StartSendCorrected`. `PublisherTraces.CorrectedReadyCheckIdempotent`
proves the corrected readiness check idempotent, and
`PublisherTraces.SendsReportedInOrder` proves that the corrected sink still
reports sends in order.

## Left out

- Socket creation, `listen`, `dial_async` and `SubStream::subscribe` (`set_opt`) are left out. They are thin calls into nng with no logic of their own.
- `Aio::new` failing inside the constructors is left out for the same reason.
- The internals of `send_async` and `recv_async` are not modelled. Each is the parameter `submit`, the transport's immediate success or error.
- Transport guarantees, such as completing only receives it has accepted, are represented by the ghost counter `inFlight` and by the trace step that ignores an arrival when nothing is in flight.
- The `futures::lock::Mutex`, the `block_on` in the callbacks, `Arc` reference counting and real cross-thread execution are not modelled. Each call and each callback is one atomic step. The lock future's own readiness is the parameter `lockReady`. The waker the lock future registers for itself is not modelled.
- Waker behaviour beyond which token is stored and which token is woken is not modelled, and neither is the scheduler.
- The `Into<Message>` conversion and message contents are left out. Payloads are opaque byte strings.
- The `unreachable!` branches for an `AioResult` of the wrong kind cannot arise with a send-only or receive-only `Aio`, and are left out.
- A `start_send` whose submission fails leaves the sink's cell `Pending`, because the preceding `poll_ready` re-armed it. The model keeps that behaviour. That state (cell `Pending`, nothing in flight) meets the requirement of `PublisherTraces.SecondReadyCheckStalls`, so every later run without a completion answers only `Pending` and wakes nobody.
- `PublisherTraces.SendsReportedInOrder` covers one task driving the sink with a single waker. Readiness checks that miss the lock, and interleavings with other tasks' wakers, are covered only by the per-step contracts and `WakesBoundedByRegistrations`.
