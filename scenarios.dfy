/**
  Worked runs of one forwarder, each stated over the event model.
 */
module Scenarios {
  import opened Batching

  /**
    Threshold 3, five frames, a transport that always succeeds: the third
    arrival publishes the first three frames and the last two stay pending
    until the next timeout tick publishes them.
   */
  lemma SizeTriggeredBatches(f1: Frame, f2: Frame, f3: Frame, f4: Frame, f5: Frame, decodes: Frame -> bool)
    ensures var c := Config(3, false, decodes);
            var five := [Arrival(f1, Nil), Arrival(f2, Nil), Arrival(f3, Nil), Arrival(f4, Nil), Arrival(f5, Nil)];
            var s := Run(c, Initial, five);
            var t := Run(c, Initial, five + [TimeoutTick(Nil)]);
            s.calls == [Publish([f1, f2, f3], Nil)] && s.buffer == [f4, f5] && s.received == 5 &&
            t.calls == [Publish([f1, f2, f3], Nil), Publish([f4, f5], Nil)] && t.buffer == []
  {
    var c := Config(3, false, decodes);
    var five := [Arrival(f1, Nil), Arrival(f2, Nil), Arrival(f3, Nil), Arrival(f4, Nil), Arrival(f5, Nil)];
    assert five[..1][..0] == [];
    assert Run(c, Initial, five[..1]) == State([f1], 1, []);
    assert five[..2][..1] == five[..1];
    assert Run(c, Initial, five[..2]) == State([f1, f2], 2, []);
    assert five[..3][..2] == five[..2] && five[..3][2] == Arrival(f3, Nil);
    assert [f1, f2] + [f3] == [f1, f2, f3];
    assert Receive(c, State([f1, f2], 2, []), f3, Nil) == Flush(State([f1, f2, f3], 3, []), Nil).state;
    assert Run(c, Initial, five[..3]) == State([], 3, [Publish([f1, f2, f3], Nil)]);
    assert five[..4][..3] == five[..3];
    assert Run(c, Initial, five[..4]) == State([f4], 4, [Publish([f1, f2, f3], Nil)]);
    assert five[..5][..4] == five[..4] && five[..5] == five;
    assert Run(c, Initial, five) == State([f4, f5], 5, [Publish([f1, f2, f3], Nil)]);
    assert (five + [TimeoutTick(Nil)])[..5] == five;
  }

  /**
    Threshold 2, a publish that fails once and then succeeds: the failed
    attempt keeps [f1, f2], the next arrival grows the buffer past the
    threshold, and the retry publishes all three frames in order.
   */
  lemma RetryAfterFailedPublish(f1: Frame, f2: Frame, f3: Frame, reason: string, decodes: Frame -> bool)
    ensures var c := Config(2, false, decodes);
            var two := [Arrival(f1, Nil), Arrival(f2, Err(reason))];
            var s := Run(c, Initial, two);
            var t := Run(c, Initial, two + [Arrival(f3, Nil)]);
            s.calls == [Publish([f1, f2], Err(reason))] && s.buffer == [f1, f2] &&
            t.calls == [Publish([f1, f2], Err(reason)), Publish([f1, f2, f3], Nil)] && t.buffer == []
  {
    var c := Config(2, false, decodes);
    var two := [Arrival(f1, Nil), Arrival(f2, Err(reason))];
    assert two[..1][..0] == [];
    assert Run(c, Initial, two[..1]) == State([f1], 1, []);
    assert [f1] + [f2] == [f1, f2];
    assert Receive(c, State([f1], 1, []), f2, Err(reason)) == Flush(State([f1, f2], 2, []), Err(reason)).state;
    assert Run(c, Initial, two) == State([f1, f2], 2, [Publish([f1, f2], Err(reason))]);
    assert (two + [Arrival(f3, Nil)])[..2] == two;
    assert [f1, f2] + [f3] == [f1, f2, f3];
  }

  /** A timeout tick on an empty buffer makes no MultiPublish call, whatever the transport would say. */
  lemma EmptyTimeoutPublishesNothing(c: Config, outcome: Status)
    ensures Run(c, Initial, [TimeoutTick(outcome)]) == Initial
  {
  }

  /**
    Verbose mode with a frame that does not decode: it is counted and
    nothing else happens, even with a threshold of one.
   */
  lemma UndecodableFrameIsCountedOnly(f: Frame, outcome: Status)
    ensures var c := Config(1, true, (b: Frame) => b != f);
            Run(c, Initial, [Arrival(f, outcome)]) == State([], 1, [])
  {
  }
}
