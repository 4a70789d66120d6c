/**
  The forwarder workers: each owns a private trace buffer that its event
  handlers update in place, and `Start` builds the pool of them.
 */
module Workers {
  import opened Batching

  class Forwarder {
    /** Diagnostic id, 0 .. numWorkers - 1. */
    const id: int
    /** Flush threshold: an arrival flushes once the buffer holds this many frames. */
    const bufferSize: int
    /** Verbose mode: decode every arriving frame and drop those that do not decode. */
    const verbose: bool
    /** Whether the protobuf decoder accepts a frame. */
    const decodes: Frame -> bool

    /** Frames waiting to be published, oldest first. */
    var traceBuffer: seq<Frame>
    /** Frames taken off the channel since the worker started. */
    var received: nat
    /** Every MultiPublish call this worker made, with its result. */
    ghost var calls: seq<Publish>

    function Cfg(): Config
    {
      Config(bufferSize, verbose, decodes)
    }

    ghost function Current(): State
      reads this
    {
      State(traceBuffer, received, calls)
    }

    /** A new worker with an empty buffer. */
    constructor (id: int, bufferSize: int, verbose: bool, decodes: Frame -> bool)
      requires bufferSize >= 0
      ensures this.id == id && this.bufferSize == bufferSize
      ensures this.verbose == verbose && this.decodes == decodes
      ensures traceBuffer == [] && received == 0 && calls == []
      ensures Current() == Initial
    {
      this.id := id;
      this.bufferSize := bufferSize;
      this.verbose := verbose;
      this.decodes := decodes;
      traceBuffer := [];
      received := 0;
      calls := [];
    }

    /**
      Flush: publish the whole buffer in one call, unless it is empty.
      `outcome` is what MultiPublish returns if it is called.
     */
    method Send(outcome: Status) returns (err: Status)
      modifies this
      ensures old(traceBuffer) == [] ==> err == Nil && calls == old(calls)
      ensures old(traceBuffer) != [] ==> err == outcome && calls == old(calls) + [Publish(old(traceBuffer), outcome)]
      ensures traceBuffer == if old(traceBuffer) != [] && outcome.Nil? then [] else old(traceBuffer)
      ensures received == old(received)
      ensures Current() == Flush(old(Current()), outcome).state
      ensures err == Flush(old(Current()), outcome).result
    {
      if |traceBuffer| == 0 {
        return Nil;
      }
      calls := calls + [Publish(traceBuffer, outcome)];
      if outcome.Err? {
        return outcome;
      }
      traceBuffer := [];
      return Nil;
    }

    /** A frame arrives on the channel. */
    method OnFrame(b: Frame, outcome: Status)
      modifies this
      ensures received == old(received) + 1
      ensures !Buffers(Cfg(), b) ==> traceBuffer == old(traceBuffer) && calls == old(calls)
      ensures Buffers(Cfg(), b) && |old(traceBuffer)| + 1 < bufferSize ==>
                traceBuffer == old(traceBuffer) + [b] && calls == old(calls)
      ensures Buffers(Cfg(), b) && |old(traceBuffer)| + 1 >= bufferSize ==>
                calls == old(calls) + [Publish(old(traceBuffer) + [b], outcome)] &&
                traceBuffer == if outcome.Nil? then [] else old(traceBuffer) + [b]
      ensures Current() == Step(Cfg(), old(Current()), Arrival(b, outcome))
    {
      received := received + 1;
      if verbose && !decodes(b) {
        return;
      }
      traceBuffer := traceBuffer + [b];
      if |traceBuffer| >= bufferSize {
        var ignored := Send(outcome);
      }
    }

    /** The flush timeout ticks: flush whatever is pending. */
    method OnTimeout(outcome: Status)
      modifies this
      ensures old(traceBuffer) == [] ==> calls == old(calls)
      ensures old(traceBuffer) != [] ==> calls == old(calls) + [Publish(old(traceBuffer), outcome)]
      ensures traceBuffer == if old(traceBuffer) != [] && outcome.Nil? then [] else old(traceBuffer)
      ensures received == old(received)
      ensures Current() == Step(Cfg(), old(Current()), TimeoutTick(outcome))
    {
      var ignored := Send(outcome);
    }

    /** The metrics ticker ticks: report the frames processed so far; nothing changes. */
    method OnMetrics() returns (processed: nat)
      ensures processed == received
    {
      processed := received;
    }

    /**
      The worker loop over a finite sequence of wake-ups, each handled in turn.
      Every accepted frame ends up delivered or pending, in arrival order, and
      every arrival is counted.
     */
    method Work(events: seq<Event>)
      modifies this
      ensures Current() == Run(Cfg(), old(Current()), events)
      ensures Flatten(Delivered(calls)) + traceBuffer
              == Flatten(Delivered(old(calls))) + old(traceBuffer) + Accepted(Cfg(), events)
      ensures received == old(received) + Arrivals(events)
    {
      var i := 0;
      while i < |events|
        invariant 0 <= i <= |events|
        invariant Current() == Run(Cfg(), old(Current()), events[..i])
      {
        assert events[..i + 1][..i] == events[..i];
        match events[i] {
          case Arrival(b, outcome) =>
            OnFrame(b, outcome);
          case TimeoutTick(outcome) =>
            OnTimeout(outcome);
          case MetricsTick =>
            var processed := OnMetrics();
        }
        i := i + 1;
      }
      assert events[..i] == events;
      RunConserves(Cfg(), old(Current()), events);
      RunCounts(Cfg(), old(Current()), events);
    }
  }

  /**
    Build `numWorkers` workers with ids 0 .. numWorkers - 1, each with an empty
    buffer and the given threshold. A negative `bufferSize` makes the buffer
    allocation of the first worker panic, before any worker exists.
   */
  method Start(numWorkers: int, bufferSize: int, verbose: bool, decodes: Frame -> bool)
    returns (workers: seq<Forwarder>, panicked: bool)
    ensures panicked <==> numWorkers > 0 && bufferSize < 0
    ensures |workers| == if panicked || numWorkers < 0 then 0 else numWorkers
    ensures forall k :: 0 <= k < |workers| ==>
              fresh(workers[k]) && workers[k].id == k &&
              workers[k].bufferSize == bufferSize && workers[k].verbose == verbose &&
              workers[k].decodes == decodes && workers[k].Current() == Initial
    ensures forall j, k :: 0 <= j < k < |workers| ==> workers[j] != workers[k]
  {
    workers, panicked := [], false;
    var i := 0;
    while i < numWorkers
      invariant 0 <= i == |workers|
      invariant if numWorkers >= 0 then i <= numWorkers else i == 0
      invariant i > 0 ==> bufferSize >= 0
      invariant forall k :: 0 <= k < |workers| ==>
                  fresh(workers[k]) && workers[k].id == k &&
                  workers[k].bufferSize == bufferSize && workers[k].verbose == verbose &&
                  workers[k].decodes == decodes && workers[k].Current() == Initial
      invariant forall j, k :: 0 <= j < k < |workers| ==> workers[j] != workers[k]
    {
      if bufferSize < 0 {
        return [], true;
      }
      var f := new Forwarder(i, bufferSize, verbose, decodes);
      workers := workers + [f];
      i := i + 1;
    }
  }
}
