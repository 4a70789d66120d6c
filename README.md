# phosphord forwarder: the batching worker, in Dafny

phosphord receives trace frames over UDP and hands each one to a pool of
forwarder workers. Each worker keeps a private buffer of frames and publishes
the buffer to NSQ in one `MultiPublish` call. It flushes on every timeout
tick, and after every arrival whose frame is buffered and that leaves the
buffer holding at least `bufferSize` frames. That includes every such arrival
after a failed publish left the buffer at or past the threshold, and every
such arrival when `bufferSize <= 0`. A frame that fails to decode in verbose
mode is not buffered and never triggers a flush. A failed publish leaves the
buffer as it was. The frames are then retried on the next flush, together with
any that arrived in the meantime. This project models that
worker and the `Start` function that builds the pool.

- `batching.dfy`, module `Batching`: the worker's state as a value (`State`:
  pending frames, frames received, log of `MultiPublish` calls). It defines the
  event handlers as functions: `Flush` is `send`, `Receive` is a frame
  arrival, `Step` is one wake-up of the `select`, and `Run` folds `Step` over a
  finite sequence of events. It also holds the lemmas about runs: order
  preservation, the bound when publishing succeeds, growth while publishing
  fails, and implicit retry.
- `forwarder.dfy`, module `Workers`: the class `Forwarder`. It has the Go
  struct's `id`, `bufferSize` and `traceBuffer`, plus the verbose flag and the
  decoder. The received counter `received` is the local `i` of `work`
  (forwarder/forwarder.go:48), kept as a field so the handlers can update it.
  The log `calls` is ghost: it exists only for the proofs. Its methods
  `Send`, `OnFrame` and `OnTimeout` update `traceBuffer` and the counter in
  place, and `OnMetrics` reports the counter. `Work` is the worker loop over a
  finite event sequence. `Start` builds the workers in a counting loop. `Send`,
  `OnFrame`, `OnTimeout` and `Work` state their new state directly and also
  tie it to the functions of `Batching`.
- `scenarios.dfy`, module `Scenarios`: worked runs. With threshold 3 and five
  frames, the model publishes `[f1,f2,f3]` and keeps `[f4,f5]` pending. With
  threshold 2 and one failed publish, all three frames are then published
  together. Two more runs cover the empty-buffer timeout and the undecodable
  frame in verbose mode.

The environment becomes parameters:
- **Transport.** `MultiPublish` is an outcome (`Status`: `Nil` or `Err`) carried
  by each event. It is used only if that event publishes.
- **Decoder.** The protobuf decoder is a predicate `decodes: Frame -> bool`
  fixed when the worker is built.
- **Verbose flag.** The global `Verbose` flag is a constant per worker.

A ghost field `calls` records every `MultiPublish` call with its batch and
result. `Delivered(calls)` is the list of batches that were published
successfully.

The comment at forwarder/forwarder.go:60 presents decoding as logging. Yet a
frame that fails to decode in verbose mode is counted and never buffered
(`continue` at forwarder/forwarder.go:65). The model does the same.

## Model

| member | source | states |
|---|---|---|
| `Batching.Flush` | forwarder/forwarder.go:86-106 | Reference definition of `send`. Its ensures: the counter is unchanged; the buffer is either untouched or emptied, and emptied exactly when a call was made and it succeeded. A non-empty buffer always leads to exactly one call, with the whole buffer; an empty one to none. With no call the result is nil, otherwise it is the call's result. `Send` and `OnTimeout` are proved equal to it; `FlushConserves` is about it |
| `Batching.Receive` | forwarder/forwarder.go:57-77 | Reference definition of a frame arrival. Its ensures: the counter goes up by one. A call is made iff the frame is buffered and the new length is `>= bufferSize`, and that call carries old buffer + frame. Without a call the buffer is old buffer + admitted frame. `OnFrame` is proved equal to it |
| `Batching.Step` | forwarder/forwarder.go:56-82 | Reference definition of one wake-up of the `select`. Its ensures: the counter grows only on an arrival; the call log only grows, by at most one call; a metrics tick changes nothing. `StepConserves`, `StepBounded` and `StepExtends` are about it |
| `Batching.Run` | forwarder/forwarder.go:55-83 | Reference definition of the worker loop over a finite list of events. Its ensures: the call log is append-only and gains at most one call per event. `Work` is proved equal to it; `RunConserves`, `RunCounts`, `RunPublishesOnlyNonEmpty`, `BoundedWhenPublishSucceeds`, `GrowsWhilePublishFails` and `PendingFramesLeadNextDelivery` are about it |
| `Workers.Forwarder.constructor` | forwarder/forwarder.go:21-27 | For a non-negative `bufferSize` (the only kind `make` accepts), a new worker has the given id, `bufferSize` and verbose flag, an empty buffer, a zero counter and no publish calls |
| `Workers.Forwarder.Send` | forwarder/forwarder.go:86-106 | Empty buffer: returns nil, makes no `MultiPublish` call, leaves everything unchanged. Non-empty buffer: exactly one call with the whole buffer in order; it returns that call's error; the buffer is emptied on success and left untouched on failure; the counter never changes |
| `Workers.Forwarder.OnFrame` | forwarder/forwarder.go:57-77 | Every arrival increments the counter. A frame that fails to decode in verbose mode changes nothing else. Any other frame is appended at the end. A flush (one call with old buffer + frame) happens iff the new length is `>= bufferSize`; without one the buffer is old buffer + frame |
| `Workers.Forwarder.OnTimeout` | forwarder/forwarder.go:78-79 | A timeout tick flushes unconditionally, with `Send`'s effect: no call when empty, otherwise one call with the buffer, cleared only on success |
| `Workers.Forwarder.OnMetrics` | forwarder/forwarder.go:80-81 | A metrics tick reports the number of frames received and changes nothing |
| `Workers.Forwarder.Work` | forwarder/forwarder.go:55-83 | Handling a sequence of events in order yields `Run` of them. Delivered frames followed by pending ones equal the old delivered and pending frames followed by every accepted frame. The counter grows by the number of arrivals |
| `Workers.Start` | forwarder/forwarder.go:16-33 | Exactly `numWorkers` (none if negative) distinct fresh workers, with ids `0..numWorkers-1`, each with an empty buffer and the given `bufferSize`. A negative `bufferSize` with at least one worker panics in `make` before any worker exists |
| `Batching.FlushConserves` | forwarder/forwarder.go:88-105 | A flush neither loses nor duplicates a frame: delivered-then-pending frames are the same sequence before and after, whatever the transport returns |
| `Batching.StepConserves` | forwarder/forwarder.go:57-81 | One event adds exactly the frame it buffers (if any) to the end of delivered-then-pending and changes nothing else in it |
| `Batching.RunConserves` | forwarder/forwarder.go:55-83 | Over any run, delivered batches flattened, then the pending buffer, equal the starting frames followed by every accepted frame in arrival order: order is preserved and nothing is lost |
| `Batching.RunCounts` | forwarder/forwarder.go:57-58 | The counter grows by exactly the number of frame arrivals, undecodable ones included |
| `Batching.RunPublishesOnlyNonEmpty` | forwarder/forwarder.go:88-95 | The call log only grows, and `MultiPublish` is never called with an empty batch |
| `Batching.StepBounded` | forwarder/forwarder.go:72-79 | With a succeeding transport and `bufferSize >= 1`, one event keeps the buffer shorter than `bufferSize` |
| `Batching.BoundedWhenPublishSucceeds` | forwarder/forwarder.go:72-105 | With an always-succeeding transport and `bufferSize >= 1`, the buffer stays shorter than `bufferSize` after every event of any run |
| `Batching.StepFails` | forwarder/forwarder.go:95-100 | One event whose publish, if any, fails delivers nothing and only appends the frame it admits |
| `Batching.GrowsWhilePublishFails` | forwarder/forwarder.go:95-100 | While every publish fails, nothing is delivered and the buffer is its old contents plus every accepted frame. `bufferSize` is a trigger, not a cap |
| `Batching.StepExtends` | forwarder/forwarder.go:71-105 | One event either delivers nothing and only appends to the buffer, or delivers one batch that begins with the frames pending before it |
| `Batching.PendingFramesLeadNextDelivery` | forwarder/forwarder.go:95-100 | Implicit retry: earlier deliveries are kept; frames pending at any point stay at the head of the buffer until the next successful publish, which begins with them |
| `Scenarios.SizeTriggeredBatches` | forwarder/forwarder.go:71-79 | `bufferSize` 3, frames f1..f5, transport succeeds: one call `[f1,f2,f3]`, `[f4,f5]` pending, five received; a following timeout publishes `[f4,f5]` and empties the buffer |
| `Scenarios.RetryAfterFailedPublish` | forwarder/forwarder.go:95-105 | `bufferSize` 2, first publish fails: `[f1,f2]` stays buffered; f3 grows it past the threshold; the retry publishes `[f1,f2,f3]` and empties the buffer |
| `Scenarios.EmptyTimeoutPublishesNothing` | forwarder/forwarder.go:88-91 | A timeout tick on a fresh worker makes no call and changes no state |
| `Scenarios.UndecodableFrameIsCountedOnly` | forwarder/forwarder.go:58-66 | In verbose mode an undecodable frame is counted and neither buffered nor published, even with `bufferSize` 1 |

## Left out

- main.go is not part of this model. It covers flag registration, logger configuration, transport construction and the UDP `listen` loop with its non-blocking, drop-on-full channel send. These are configuration and concurrent I/O.
- Goroutines (`go f.work()`), the shared channel `ch` and the two `time.Ticker`s are left out. Events are explicit values, and `Work` handles a finite sequence of them instead of looping forever.
- The NSQ transport is left out, and so is the shared `tr` field. Each `MultiPublish` result is an input, and each worker keeps its own log of calls. Interleaving between workers that share one transport is not modelled.
- `MultiPublish` is handed `f.traceBuffer` itself (forwarder/forwarder.go:95), so the transport shares the buffer's memory. The model treats the batch as a value, and "unchanged on failure" assumes the transport does not change the elements of the slice it is handed.
- Protobuf decoding and the JSON trace and debug log lines are not modelled. Decoding is the `decodes` predicate, and the logs have no effect on state.
- `Workers.Forwarder.OnFrame`: the counter is a `nat` and does not wrap, as Go's `int` would past its maximum (2^63 - 1 on 64-bit platforms).
- `Workers.Forwarder.OnFrame`: `Verbose` is a package variable read on every frame. The model fixes it per worker at construction, because it is set once before `Start` and not changed afterwards.
- The capacity passed to `make` (forwarder/forwarder.go:25) is not modelled beyond its panics. Only the panic on a negative value is kept, in `Start`.
- `Workers.Start`: Go's `makeslice` also panics ("cap out of range") or fails to allocate when `bufferSize` is so large that the slice cannot be allocated. The model does not capture this: for every non-negative `bufferSize` it promises the workers are built.
- `Workers.Forwarder.constructor`: requires a non-negative `bufferSize`, because Go cannot build a forwarder with a negative one (the `make` panics first).
