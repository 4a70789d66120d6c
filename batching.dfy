/**
  The batching state machine of one forwarder worker, as values.

  A forwarder holds a buffer of opaque trace frames. Three events drive it:
  a frame arriving on the shared channel, the flush timeout ticking, and the
  metrics ticker ticking. Flushing hands the whole buffer to the transport's
  MultiPublish in one call and empties the buffer only when that call
  succeeds. The class in forwarder.dfy is proved against the functions here.
 */
module Batching {

  type Byte = bv8

  /** One trace frame: bytes the forwarder never interprets. */
  type Frame = seq<Byte>

  /** A Go `error` value: nil, or a non-nil error. */
  datatype Status = Nil | Err(reason: string)

  /** One call of MultiPublish: the batch handed over and what the call returned. */
  datatype Publish = Publish(batch: seq<Frame>, outcome: Status)

  /**
    What a forwarder is built with and never changes: the flush threshold,
    whether verbose logging is on, and whether the protobuf decoder accepts
    a frame (it is consulted only in verbose mode).
   */
  datatype Config = Config(bufferSize: int, verbose: bool, decodes: Frame -> bool)

  /**
    What a forwarder changes: its pending frames, the number of frames taken
    off the channel, and the log of every MultiPublish call it has made.
   */
  datatype State = State(buffer: seq<Frame>, received: nat, calls: seq<Publish>)

  /** A freshly started forwarder. */
  const Initial := State([], 0, [])

  /**
    One wake-up of the worker loop. `outcome` is what MultiPublish returns
    should the event lead to a publish; it is ignored otherwise.
   */
  datatype Event =
    | Arrival(frame: Frame, outcome: Status)
    | TimeoutTick(outcome: Status)
    | MetricsTick

  /** The state after a flush attempt, with the error the flush returns. */
  datatype Sent = Sent(state: State, result: Status)

  /** A flush attempt: nothing for an empty buffer, otherwise one publish of all of it. */
  function Flush(s: State, outcome: Status): (r: Sent)
    ensures r.state.received == s.received
    ensures r.state.buffer == s.buffer || r.state.buffer == []
    ensures r.state.buffer == [] && s.buffer != [] <==> r.state.calls != s.calls && outcome.Nil?
    ensures r.state.calls == s.calls || (s.buffer != [] && r.state.calls == s.calls + [Publish(s.buffer, outcome)])
    ensures s.buffer != [] ==> r.state.calls == s.calls + [Publish(s.buffer, outcome)]
    ensures r.state.calls == s.calls ==> r.result == Nil
    ensures r.state.calls != s.calls ==> r.result == outcome
  {
    if |s.buffer| == 0 then Sent(s, Nil)
    else
      var attempted := s.(calls := s.calls + [Publish(s.buffer, outcome)]);
      if outcome.Err? then Sent(attempted, outcome)
      else Sent(attempted.(buffer := []), Nil)
  }

  /** Whether an arriving frame is buffered: always, except a frame verbose mode cannot decode. */
  predicate Buffers(c: Config, b: Frame)
  {
    !c.verbose || c.decodes(b)
  }

  /** A frame arrives: count it, buffer it unless it fails to decode, flush at the threshold. */
  function Receive(c: Config, s: State, b: Frame, outcome: Status): (r: State)
    ensures r.received == s.received + 1
    ensures r.calls != s.calls <==> Buffers(c, b) && |s.buffer| + 1 >= c.bufferSize
    ensures r.calls != s.calls ==> r.calls == s.calls + [Publish(s.buffer + [b], outcome)]
    ensures r.calls == s.calls ==> r.buffer == s.buffer + Admitted(c, Arrival(b, outcome))
  {
    var counted := s.(received := s.received + 1);
    if !Buffers(c, b) then counted
    else
      var appended := counted.(buffer := counted.buffer + [b]);
      if |appended.buffer| >= c.bufferSize then Flush(appended, outcome).state else appended
  }

  /** One event handled by the worker loop. */
  function Step(c: Config, s: State, e: Event): (r: State)
    ensures r.received == s.received + (if e.Arrival? then 1 else 0)
    ensures s.calls <= r.calls && |r.calls| <= |s.calls| + 1
    ensures e.MetricsTick? ==> r == s
  {
    match e
    case Arrival(b, outcome) => Receive(c, s, b, outcome)
    case TimeoutTick(outcome) => Flush(s, outcome).state
    case MetricsTick => s
  }

  /** The events handled in order, starting from `s`. */
  function Run(c: Config, s: State, es: seq<Event>): (r: State)
    ensures s.calls <= r.calls && |r.calls| <= |s.calls| + |es|
    decreases |es|
  {
    if es == [] then s else Step(c, Run(c, s, es[..|es| - 1]), es[|es| - 1])
  }

  /** The frame an event adds to the buffer, if any. */
  function Admitted(c: Config, e: Event): seq<Frame>
  {
    if e.Arrival? && Buffers(c, e.frame) then [e.frame] else []
  }

  /** Every frame the events add to the buffer, in arrival order. */
  function Accepted(c: Config, es: seq<Event>): seq<Frame>
    decreases |es|
  {
    if es == [] then [] else Accepted(c, es[..|es| - 1]) + Admitted(c, es[|es| - 1])
  }

  /** How many of the events are frame arrivals. */
  function Arrivals(es: seq<Event>): nat
    decreases |es|
  {
    if es == [] then 0 else Arrivals(es[..|es| - 1]) + (if es[|es| - 1].Arrival? then 1 else 0)
  }

  /** The batches of the calls that succeeded, in call order. */
  function Delivered(calls: seq<Publish>): seq<seq<Frame>>
    decreases |calls|
  {
    if calls == [] then []
    else
      var last := calls[|calls| - 1];
      Delivered(calls[..|calls| - 1]) + (if last.outcome.Nil? then [last.batch] else [])
  }

  /** The batches one after another. */
  function Flatten(bs: seq<seq<Frame>>): seq<Frame>
    decreases |bs|
  {
    if bs == [] then [] else Flatten(bs[..|bs| - 1]) + bs[|bs| - 1]
  }

  /** Every call in the log handed over at least one frame. */
  ghost predicate NonEmptyBatches(calls: seq<Publish>)
  {
    forall k :: 0 <= k < |calls| ==> calls[k].batch != []
  }

  /** An event that publishes, if it does, successfully. */
  predicate Succeeds(e: Event)
  {
    e.MetricsTick? || e.outcome.Nil?
  }

  /** An event that publishes, if it does, unsuccessfully. */
  predicate Fails(e: Event)
  {
    e.MetricsTick? || e.outcome.Err?
  }

  ghost predicate AllSucceed(es: seq<Event>)
  {
    forall k :: 0 <= k < |es| ==> Succeeds(es[k])
  }

  ghost predicate AllFail(es: seq<Event>)
  {
    forall k :: 0 <= k < |es| ==> Fails(es[k])
  }

  // ---------------------------------------------------------------------
  // The log only grows, by the batches published.

  lemma DeliveredSnoc(calls: seq<Publish>, p: Publish)
    ensures Delivered(calls + [p]) == Delivered(calls) + (if p.outcome.Nil? then [p.batch] else [])
  {
    assert (calls + [p])[..|calls|] == calls;
  }

  lemma FlattenSnoc(bs: seq<seq<Frame>>, b: seq<Frame>)
    ensures Flatten(bs + [b]) == Flatten(bs) + b
  {
    assert (bs + [b])[..|bs|] == bs;
  }

  /** A flush loses no frame and duplicates none: delivered frames then pending ones stay the same sequence. */
  lemma FlushConserves(s: State, outcome: Status)
    ensures var t := Flush(s, outcome).state;
            Flatten(Delivered(t.calls)) + t.buffer == Flatten(Delivered(s.calls)) + s.buffer
  {
    if |s.buffer| != 0 {
      var p := Publish(s.buffer, outcome);
      DeliveredSnoc(s.calls, p);
      if outcome.Nil? {
        var t := Flush(s, outcome).state;
        assert t.calls == s.calls + [p] && t.buffer == [];
        FlattenSnoc(Delivered(s.calls), s.buffer);
        assert Flatten(Delivered(t.calls)) == Flatten(Delivered(s.calls)) + s.buffer;
      } else {
        var t := Flush(s, outcome).state;
        assert t.calls == s.calls + [p] && t.buffer == s.buffer;
        assert Delivered(t.calls) == Delivered(s.calls);
      }
    }
  }

  /** One event adds exactly its admitted frame to delivered-then-pending. */
  lemma StepConserves(c: Config, s: State, e: Event)
    ensures var t := Step(c, s, e);
            Flatten(Delivered(t.calls)) + t.buffer
            == Flatten(Delivered(s.calls)) + s.buffer + Admitted(c, e)
  {
    match e
    case Arrival(b, outcome) =>
      if Buffers(c, b) {
        var appended := s.(received := s.received + 1, buffer := s.buffer + [b]);
        if |appended.buffer| >= c.bufferSize {
          FlushConserves(appended, outcome);
        }
      }
    case TimeoutTick(outcome) =>
      FlushConserves(s, outcome);
    case MetricsTick =>
  }

  /**
    Order preservation over any run: the frames delivered by successful
    publishes, followed by the frames still pending, are exactly the frames
    that were pending at the start followed by every accepted frame in
    arrival order. No frame is lost, duplicated or reordered, whatever the
    transport returns.
   */
  lemma {:induction false} RunConserves(c: Config, s: State, es: seq<Event>)
    ensures var t := Run(c, s, es);
            Flatten(Delivered(t.calls)) + t.buffer
            == Flatten(Delivered(s.calls)) + s.buffer + Accepted(c, es)
    decreases |es|
  {
    if es != [] {
      var init := es[..|es| - 1];
      RunConserves(c, s, init);
      StepConserves(c, Run(c, s, init), es[|es| - 1]);
    }
  }

  /** Every arrival is counted, whether or not its frame is buffered. */
  lemma {:induction false} RunCounts(c: Config, s: State, es: seq<Event>)
    ensures Run(c, s, es).received == s.received + Arrivals(es)
    decreases |es|
  {
    if es != [] {
      RunCounts(c, s, es[..|es| - 1]);
    }
  }

  /** MultiPublish is never handed an empty batch, and the call log is append-only. */
  lemma {:induction false} RunPublishesOnlyNonEmpty(c: Config, s: State, es: seq<Event>)
    requires NonEmptyBatches(s.calls)
    ensures s.calls <= Run(c, s, es).calls
    ensures NonEmptyBatches(Run(c, s, es).calls)
    decreases |es|
  {
    if es != [] {
      RunPublishesOnlyNonEmpty(c, s, es[..|es| - 1]);
    }
  }

  /** With a transport that always succeeds, one event keeps the buffer under the threshold. */
  lemma StepBounded(c: Config, s: State, e: Event)
    requires c.bufferSize >= 1 && |s.buffer| < c.bufferSize
    requires Succeeds(e)
    ensures |Step(c, s, e).buffer| < c.bufferSize
  {
  }

  /**
    With a transport that always succeeds and a threshold of at least one,
    the buffer stays below the threshold after every handled event.
   */
  lemma {:induction false} BoundedWhenPublishSucceeds(c: Config, s: State, es: seq<Event>)
    requires c.bufferSize >= 1 && |s.buffer| < c.bufferSize
    requires AllSucceed(es)
    ensures |Run(c, s, es).buffer| < c.bufferSize
    decreases |es|
  {
    if es != [] {
      var init := es[..|es| - 1];
      assert AllSucceed(init) by {
        forall k | 0 <= k < |init| ensures Succeeds(init[k]) {
          assert init[k] == es[k];
        }
      }
      BoundedWhenPublishSucceeds(c, s, init);
      StepBounded(c, Run(c, s, init), es[|es| - 1]);
    }
  }

  /** One event whose publish, if any, fails delivers nothing and only appends its admitted frame. */
  lemma StepFails(c: Config, s: State, e: Event)
    requires Fails(e)
    ensures Delivered(Step(c, s, e).calls) == Delivered(s.calls)
    ensures Step(c, s, e).buffer == s.buffer + Admitted(c, e)
  {
    var t := Step(c, s, e);
    if t.calls != s.calls {
      DeliveredSnoc(s.calls, t.calls[|s.calls|]);
    }
  }

  /**
    While every publish fails, nothing is delivered and the buffer keeps
    every frame it had plus every accepted one: the threshold does not cap it.
   */
  lemma {:induction false} GrowsWhilePublishFails(c: Config, s: State, es: seq<Event>)
    requires AllFail(es)
    ensures Delivered(Run(c, s, es).calls) == Delivered(s.calls)
    ensures Run(c, s, es).buffer == s.buffer + Accepted(c, es)
    decreases |es|
  {
    if es != [] {
      var init := es[..|es| - 1];
      assert AllFail(init) by {
        forall k | 0 <= k < |init| ensures Fails(init[k]) {
          assert init[k] == es[k];
        }
      }
      GrowsWhilePublishFails(c, s, init);
      StepFails(c, Run(c, s, init), es[|es| - 1]);
    }
  }

  /**
    One event either delivers nothing and only appends to the buffer, or
    delivers one batch that starts with the frames pending before it.
   */
  lemma StepExtends(c: Config, s: State, e: Event)
    ensures var t := Step(c, s, e);
            var d, d' := Delivered(s.calls), Delivered(t.calls);
            (d' == d && s.buffer <= t.buffer)
            || (|d'| == |d| + 1 && d'[..|d|] == d && s.buffer <= d'[|d|])
  {
    match e
    case Arrival(b, outcome) =>
      if Buffers(c, b) {
        var appended := s.(received := s.received + 1, buffer := s.buffer + [b]);
        if |appended.buffer| >= c.bufferSize {
          DeliveredSnoc(s.calls, Publish(appended.buffer, outcome));
        }
      }
    case TimeoutTick(outcome) =>
      if |s.buffer| != 0 {
        DeliveredSnoc(s.calls, Publish(s.buffer, outcome));
      }
    case MetricsTick =>
  }

  /**
    Implicit retry: frames left pending (for instance after a failed publish)
    are never dropped and never overtaken. Earlier deliveries are kept, and the
    next successful publish, if any, hands over a batch that starts with those
    frames; until then they remain at the head of the buffer.
   */
  lemma {:induction false} PendingFramesLeadNextDelivery(c: Config, s: State, es: seq<Event>)
    ensures var t := Run(c, s, es);
            var d0, d := Delivered(s.calls), Delivered(t.calls);
            |d0| <= |d| && d[..|d0|] == d0
            && (if |d| == |d0| then s.buffer <= t.buffer else s.buffer <= d[|d0|])
    decreases |es|
  {
    if es != [] {
      var init := es[..|es| - 1];
      PendingFramesLeadNextDelivery(c, s, init);
      var m := Run(c, s, init);
      StepExtends(c, m, es[|es| - 1]);
      var t := Run(c, s, es);
      var d0, dm, d := Delivered(s.calls), Delivered(m.calls), Delivered(t.calls);
      if d == dm {
        assert s.buffer <= m.buffer ==> s.buffer <= t.buffer by {
          if |d| == |d0| {
            assert s.buffer == m.buffer[..|s.buffer|];
            assert m.buffer == t.buffer[..|m.buffer|];
          }
        }
      } else {
        assert d[..|dm|] == dm;
        assert d[..|d0|] == dm[..|d0|];
        if |dm| == |d0| {
          assert s.buffer == m.buffer[..|s.buffer|];
        } else {
          assert d[|d0|] == dm[|d0|];
        }
      }
    }
  }
}
