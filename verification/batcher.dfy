/** The batching loop of `publish_task` in `relay/relay.py`. The loop never
    ends and waits on a queue with a timeout; here it is driven by a finite
    sequence of events, each either an item taken off the queue or the
    expiry of the flush timeout. A flush hands the whole batch, in arrival
    order, to the shipper and empties the batch. */
module Batcher {
  import opened Results
  import Text

  datatype Event<T> = Item(item: T) | Timeout

  /** The items an event contributes to the batch. */
  function Arrived<T>(ev: Event<T>): seq<T> {
    match ev
    case Item(x) => [x]
    case Timeout => []
  }

  /** The items of a run of events, in arrival order: every `Item` event
      contributes its item, and every item comes from an `Item` event. */
  function Items<T>(events: seq<Event<T>>): (r: seq<T>)
    ensures |r| <= |events|
    ensures forall i :: 0 <= i < |events| && events[i].Item? ==> events[i].item in r
    ensures forall j :: 0 <= j < |r| ==> Item(r[j]) in events
  {
    if |events| == 0 then []
    else
      var rest := Items(events[1..]);
      assert forall i :: 1 <= i < |events| ==> events[i] == events[1..][i - 1];
      Arrived(events[0]) + rest
  }

  /** Every item of a run of events arrives as its own event. */
  function Arrivals<T>(xs: seq<T>): (r: seq<Event<T>>)
    ensures |r| == |xs|
    ensures forall i :: 0 <= i < |r| ==> r[i] == Item(xs[i])
  {
    if |xs| == 0 then [] else [Item(xs[0])] + Arrivals(xs[1..])
  }

  function Concat<T>(flushes: seq<seq<T>>): seq<T> {
    if |flushes| == 0 then [] else flushes[0] + Concat(flushes[1..])
  }

  /** Between events a batch holds fewer items than the flush interval;
      when the interval is not positive it is always empty. */
  predicate Bounded<T>(batch: seq<T>, flushInterval: int) {
    |batch| < flushInterval || batch == []
  }

  /** The largest flush a bounded batch can produce. */
  function MaxFlush(flushInterval: int): (m: nat)
    ensures m >= 1 && m >= flushInterval
  {
    if flushInterval < 1 then 1 else flushInterval
  }

  /** The batch after one event, and the items flushed by it, if any. */
  datatype Step<T> = Step(batch: seq<T>, flushed: Option<seq<T>>)

  /** One turn of the loop. An item is appended, and the batch is flushed
      once it holds at least `flushInterval` items; a timeout flushes the
      batch only when it is non-empty. */
  function Next<T>(batch: seq<T>, ev: Event<T>, flushInterval: int): (s: Step<T>)
    ensures s.flushed.Some? ==> s.flushed.value + s.batch == batch + Arrived(ev)
    ensures s.flushed.None? ==> s.batch == batch + Arrived(ev)
    ensures s.flushed.Some? ==> s.batch == [] && s.flushed.value != []
    ensures ev.Item? ==> (s.flushed.Some? <==> |batch| + 1 >= flushInterval)
    ensures ev.Timeout? ==> (s.flushed.Some? <==> batch != [])
    ensures Bounded(s.batch, flushInterval)
    ensures Bounded(batch, flushInterval) && s.flushed.Some? ==> |s.flushed.value| <= MaxFlush(flushInterval)
  {
    match ev
    case Item(x) =>
      var b := batch + [x];
      if |b| >= flushInterval then Step([], Some(b)) else Step(b, None)
    case Timeout =>
      if batch != [] then Step([], Some(batch)) else Step([], None)
  }

  /** The flushes one step contributes: none, or the one it made. */
  function Emitted<T>(s: Step<T>): seq<seq<T>> {
    if s.flushed.Some? then [s.flushed.value] else []
  }

  /** The state after a run of events: the pending batch and every flush,
      in order. */
  datatype Run<T> = Run(batch: seq<T>, flushes: seq<seq<T>>)

  function RunEvents<T>(batch: seq<T>, events: seq<Event<T>>, flushInterval: int): (r: Run<T>)
    ensures forall i :: 0 <= i < |r.flushes| ==> r.flushes[i] != []
    ensures Bounded(batch, flushInterval) || |events| > 0 ==> Bounded(r.batch, flushInterval)
    ensures Bounded(batch, flushInterval) ==>
              forall i :: 0 <= i < |r.flushes| ==> |r.flushes[i]| <= MaxFlush(flushInterval)
    decreases |events|
  {
    if |events| == 0 then Run(batch, [])
    else
      var s := Next(batch, events[0], flushInterval);
      var rest := RunEvents(s.batch, events[1..], flushInterval);
      Run(rest.batch, Emitted(s) + rest.flushes)
  }

  /** One unfolding of `RunEvents`. */
  lemma RunEventsCons<T>(batch: seq<T>, events: seq<Event<T>>, flushInterval: int)
    requires |events| > 0
    ensures var s := Next(batch, events[0], flushInterval);
            var rest := RunEvents(s.batch, events[1..], flushInterval);
            RunEvents(batch, events, flushInterval) == Run(rest.batch, Emitted(s) + rest.flushes)
  {
  }

  lemma ItemsCons<T>(events: seq<Event<T>>)
    requires |events| > 0
    ensures Items(events) == Arrived(events[0]) + Items(events[1..])
  {
  }

  /** Nothing is lost, duplicated or reordered: the flushes followed by the
      pending batch are the starting batch followed by every arrival. */
  lemma {:induction false} RunEventsConserves<T>(batch: seq<T>, events: seq<Event<T>>, flushInterval: int)
    ensures var r := RunEvents(batch, events, flushInterval);
            Concat(r.flushes) + r.batch == batch + Items(events)
    decreases |events|
  {
    if |events| > 0 {
      var s := Next(batch, events[0], flushInterval);
      var rest := RunEvents(s.batch, events[1..], flushInterval);
      RunEventsConserves(s.batch, events[1..], flushInterval);
      RunEventsCons(batch, events, flushInterval);
      ItemsCons(events);
      StepConserves(s, batch, Arrived(events[0]), rest.flushes, rest.batch, Items(events[1..]));
    }
  }

  lemma StepConserves<T>(s: Step<T>, b: seq<T>, arr: seq<T>, rf: seq<seq<T>>, rb: seq<T>, tail: seq<T>)
    requires s.flushed.Some? ==> s.flushed.value + s.batch == b + arr
    requires s.flushed.None? ==> s.batch == b + arr
    requires Concat(rf) + rb == s.batch + tail
    ensures Concat(Emitted(s) + rf) + rb == b + (arr + tail)
  {
    if s.flushed.Some? {
      ConcatStep(s.flushed.value, s.batch, rf, rb, b, arr, tail);
    } else {
      assert Emitted(s) + rf == rf;
      assert (b + arr) + tail == b + (arr + tail);
    }
  }

  lemma ConcatStep<T>(f: seq<T>, sb: seq<T>, rf: seq<seq<T>>, rb: seq<T>, b: seq<T>, arr: seq<T>, tail: seq<T>)
    requires f + sb == b + arr
    requires Concat(rf) + rb == sb + tail
    ensures Concat([f] + rf) + rb == b + (arr + tail)
  {
    assert ([f] + rf)[1..] == rf;
    assert Concat([f] + rf) == f + Concat(rf);
    assert Concat([f] + rf) + rb == f + (Concat(rf) + rb);
    assert f + (sb + tail) == (f + sb) + tail;
    assert (b + arr) + tail == b + (arr + tail);
  }

  /** A timeout leaves nothing pending: after a run ending in one the batch
      is empty. */
  lemma {:induction false} TimeoutEmptiesBatch<T>(batch: seq<T>, events: seq<Event<T>>, flushInterval: int)
    requires |events| > 0 && events[|events| - 1].Timeout?
    ensures RunEvents(batch, events, flushInterval).batch == []
    decreases |events|
  {
    if |events| > 1 {
      var s := Next(batch, events[0], flushInterval);
      TimeoutEmptiesBatch(s.batch, events[1..], flushInterval);
    }
  }

  /** Running two stretches of events one after the other is running their
      concatenation. */
  lemma {:induction false} RunEventsAppend<T>(batch: seq<T>, a: seq<Event<T>>, b: seq<Event<T>>, flushInterval: int)
    ensures var ra := RunEvents(batch, a, flushInterval);
            var rb := RunEvents(ra.batch, b, flushInterval);
            RunEvents(batch, a + b, flushInterval) == Run(rb.batch, ra.flushes + rb.flushes)
    decreases |a|
  {
    if |a| == 0 {
      assert a + b == b;
    } else {
      var s := Next(batch, a[0], flushInterval);
      assert (a + b)[0] == a[0];
      assert (a + b)[1..] == a[1..] + b;
      RunEventsAppend(s.batch, a[1..], b, flushInterval);
      var ra := RunEvents(s.batch, a[1..], flushInterval);
      var rb := RunEvents(ra.batch, b, flushInterval);
      assert Emitted(s) + (ra.flushes + rb.flushes) == (Emitted(s) + ra.flushes) + rb.flushes;
    }
  }

  lemma {:induction false} ConcatAppend<T>(a: seq<seq<T>>, b: seq<seq<T>>)
    ensures Concat(a + b) == Concat(a) + Concat(b)
  {
    if |a| == 0 {
      assert a + b == b;
    } else {
      assert (a + b)[0] == a[0];
      assert (a + b)[1..] == a[1..] + b;
      ConcatAppend(a[1..], b);
    }
  }

  /** `publish_task` over a finite run of events, starting from an empty
      batch: `dispatched` is every item handed to the shipper, in order. */
  method PublishTask<T>(events: seq<Event<T>>, flushInterval: int) returns (batch: seq<T>, dispatched: seq<T>)
    ensures dispatched + batch == Items(events)
    ensures Bounded(batch, flushInterval)
    ensures batch == RunEvents([], events, flushInterval).batch
    ensures dispatched == Concat(RunEvents([], events, flushInterval).flushes)
  {
    batch := [];
    dispatched := [];
    var i := 0;
    while i < |events|
      invariant 0 <= i <= |events|
      invariant batch == RunEvents([], events[..i], flushInterval).batch
      invariant dispatched == Concat(RunEvents([], events[..i], flushInterval).flushes)
      decreases |events| - i
    {
      var s := Next(batch, events[i], flushInterval);
      RunEventsSnoc(events, i, flushInterval);
      dispatched := dispatched + s.flushed.GetOr([]);
      batch := s.batch;
      i := i + 1;
    }
    assert events[..i] == events;
    RunEventsConserves([], events, flushInterval);
    assert [] + Items(events) == Items(events);
  }

  /** One more turn of the loop extends the run by one event. */
  lemma RunEventsSnoc<T>(events: seq<Event<T>>, i: nat, flushInterval: int)
    requires i < |events|
    ensures var r := RunEvents([], events[..i], flushInterval);
            var s := Next(r.batch, events[i], flushInterval);
            && RunEvents([], events[..i + 1], flushInterval).batch == s.batch
            && Concat(RunEvents([], events[..i + 1], flushInterval).flushes) == Concat(r.flushes) + s.flushed.GetOr([])
  {
    var r := RunEvents([], events[..i], flushInterval);
    var s := Next(r.batch, events[i], flushInterval);
    assert events[..i + 1] == events[..i] + [events[i]];
    RunEventsAppend([], events[..i], [events[i]], flushInterval);
    RunEventsSingle(r.batch, events[i], flushInterval);
    ConcatAppend(r.flushes, Emitted(s));
    ConcatEmitted(s);
  }

  /** A run of one event is one step. */
  lemma RunEventsSingle<T>(batch: seq<T>, ev: Event<T>, flushInterval: int)
    ensures var s := Next(batch, ev, flushInterval);
            RunEvents(batch, [ev], flushInterval) == Run(s.batch, Emitted(s))
  {
    var one := [ev];
    assert one[0] == ev && one[1..] == [];
  }

  lemma ConcatEmitted<T>(s: Step<T>)
    ensures Concat(Emitted(s)) == s.flushed.GetOr([])
  {
    if s.flushed.Some? {
      assert [s.flushed.value][1..] == [];
    }
  }

  lemma ArrivalsCons<T>(xs: seq<T>)
    requires |xs| > 0
    ensures var events := Arrivals(xs);
            |events| > 0 && events[0] == Item(xs[0]) && events[1..] == Arrivals(xs[1..])
  {
  }

  /** An item that leaves the batch short of the interval is only
      appended. */
  lemma NextBelow<T>(batch: seq<T>, x: T, flushInterval: int)
    requires |batch| + 1 < flushInterval
    ensures Next(batch, Item(x), flushInterval) == Step(batch + [x], None)
  {
  }

  /** Items arriving without reaching the interval stay pending. */
  lemma {:induction false} ArrivalsBelowInterval<T>(batch: seq<T>, xs: seq<T>, flushInterval: int)
    requires |batch| + |xs| < flushInterval
    ensures RunEvents(batch, Arrivals(xs), flushInterval) == Run(batch + xs, [])
    decreases |xs|
  {
    if |xs| > 0 {
      var b1 := batch + [xs[0]];
      ArrivalsCons(xs);
      RunEventsCons(batch, Arrivals(xs), flushInterval);
      NextBelow(batch, xs[0], flushInterval);
      ArrivalsBelowInterval(b1, xs[1..], flushInterval);
      assert xs == [xs[0]] + xs[1..];
      Text.ConcatAssoc(batch, [xs[0]], xs[1..]);
    }
  }

  /** The item that brings the batch to the interval flushes all of it, in
      arrival order, and leaves the batch empty. */
  lemma FullBatchFlushes<T>(xs: seq<T>, flushInterval: int)
    requires |xs| == flushInterval >= 1
    ensures RunEvents([], Arrivals(xs), flushInterval) == Run([], [xs])
  {
    var n := |xs|;
    assert xs == xs[..n - 1] + [xs[n - 1]];
    assert Arrivals(xs) == Arrivals(xs[..n - 1]) + [Item(xs[n - 1])];
    RunEventsAppend([], Arrivals(xs[..n - 1]), [Item(xs[n - 1])], flushInterval);
    ArrivalsBelowInterval([], xs[..n - 1], flushInterval);
    assert [] + xs[..n - 1] == xs[..n - 1];
    var last: seq<Event<T>> := [Item(xs[n - 1])];
    assert Next(xs[..n - 1], last[0], flushInterval) == Step([], Some(xs));
    assert last[1..] == [];
    assert RunEvents(xs[..n - 1], last, flushInterval) == Run([], [xs]);
  }

  /** A timeout flushes a pending batch and is a no-op on an empty one; a
      second timeout therefore never flushes. */
  lemma TimeoutFlushes<T>(batch: seq<T>, flushInterval: int)
    ensures RunEvents(batch, [Timeout], flushInterval)
            == if batch == [] then Run([], []) else Run([], [batch])
    ensures RunEvents(batch, [Timeout, Timeout], flushInterval)
            == RunEvents(batch, [Timeout], flushInterval)
  {
    var twice: seq<Event<T>> := [Timeout, Timeout];
    assert twice[1..] == [Timeout];
  }
}
