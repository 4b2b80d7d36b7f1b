/** The standalone `relay.py`, the relay's earlier single-file form. Its
    samples are plain `(metric, value, timestamp)` tuples whose metric is
    the whole Graphite key, its sentinel is the tuple `("", -1, -1)`, and
    its publisher only reports how many samples a flush held before
    dropping them. */
module LegacyRelay {
  import opened Results
  import opened Text
  import opened Numbers
  import Graphite = Metric
  import Relay
  import Batcher

  /** A parsed sample: the whole key, the value and the timestamp. */
  datatype Sample = Sample(metric: string, value: Number, ts: Number)

  /** The value of `BAD_DATA`. */
  const BadDataValue := Sample("", Int(-1), Int(-1))

  /** One line of `parse`: the three-field split and number conversion of
      a Graphite sample, the key kept whole. A yielded sample's metric is
      never empty, because a stripped line never begins with the
      separator. */
  function ParseLine(line: string): (r: Result<Sample, Graphite.ParseError>)
    ensures r.Ok? <==> Graphite.ParseGraphite(line).Ok?
    ensures r.Ok? ==> var g := Graphite.ParseGraphite(line).value;
                      r.value == Sample(g.key, g.value, g.seenAt)
    ensures r.Ok? ==> r.value.metric != [] && r.value != BadDataValue
  {
    match Graphite.ParseGraphite(line)
    case Err(e) => Err(e)
    case Ok(g) =>
      var stripped := Strip(line);
      assert Find(stripped, ' ') != 0;
      Ok(Sample(g.key, g.value, g.seenAt))
  }

  /** The samples of the well-formed lines, in line order; never the
      sentinel's value. */
  function ParseLines(lines: seq<string>): (r: seq<Sample>)
    ensures |r| <= |lines|
    ensures BadDataValue !in r
  {
    Relay.ParseAllAvoids(ParseLine, lines, BadDataValue);
    Relay.ParseAll(ParseLine, lines)
  }

  /** `parse`: the sentinel alone for an undecodable chunk, one sample per
      well-formed line otherwise. */
  function Parse(chunk: Relay.Chunk): (r: seq<Relay.Parsed<Sample>>)
    ensures chunk.Undecodable? ==> r == [Relay.BadData]
    ensures chunk.Decoded? ==> Relay.BadData !in r && |r| <= |Lines(chunk.text)|
    ensures chunk.Decoded? ==>
              var ss := ParseLines(Lines(chunk.text));
              |r| == |ss| && forall i :: 0 <= i < |r| ==> r[i] == Relay.Yield(ss[i])
  {
    match chunk
    case Undecodable => [Relay.BadData]
    case Decoded(text) => Relay.Yields(ParseLines(Lines(text)))
  }

  /** `convert_task` on one chunk: the identity filter drops the sentinel
      and keeps every sample. */
  function ConvertChunk(chunk: Relay.Chunk): (r: seq<Sample>)
    ensures chunk.Undecodable? ==> r == []
    ensures chunk.Decoded? ==> r == ParseLines(Lines(chunk.text))
  {
    match chunk
    case Undecodable => Relay.Forward(Parse(chunk))
    case Decoded(text) =>
      Relay.ForwardYields(ParseLines(Lines(text)));
      Relay.Forward(Parse(chunk))
  }

  /** A filter comparing by value with `BAD_DATA` instead of by identity. */
  function ForwardByValue(ps: seq<Relay.Parsed<Sample>>): (r: seq<Sample>)
    ensures forall i :: 0 <= i < |r| ==> Relay.Yield(r[i]) in ps && r[i] != BadDataValue
    ensures forall i :: 0 <= i < |ps| && ps[i].Yield? && ps[i].metric != BadDataValue ==> ps[i].metric in r
  {
    if |ps| == 0 then []
    else
      var rest := ForwardByValue(ps[1..]);
      assert forall i :: 1 <= i < |ps| ==> ps[i] == ps[1..][i - 1];
      match ps[0]
      case Yield(m) => if m == BadDataValue then rest else [m] + rest
      case BadData => rest
  }

  /** Unlike in the packaged relay, where a line can parse to a metric equal
      to the sentinel, here no parsed sample equals `BAD_DATA`, so filtering
      by identity and by value agree on every chunk. */
  lemma {:induction false} IdentityFilterIsValueFilter(chunk: Relay.Chunk)
    ensures ForwardByValue(Parse(chunk)) == ConvertChunk(chunk)
  {
    match chunk
    case Undecodable =>
    case Decoded(text) =>
      ValueFilterKeepsParsed(ParseLines(Lines(text)));
      Relay.ForwardYields(ParseLines(Lines(text)));
  }

  lemma {:induction false} ValueFilterKeepsParsed(ms: seq<Sample>)
    requires BadDataValue !in ms
    ensures ForwardByValue(Relay.Yields(ms)) == ms
  {
    if |ms| > 0 {
      var ps := Relay.Yields(ms);
      assert ps[0] == Relay.Yield(ms[0]) && ps[1..] == Relay.Yields(ms[1..]);
      assert ms[0] != BadDataValue by { assert ms[0] in ms; }
      assert ms == [ms[0]] + ms[1..];
      ValueFilterKeepsParsed(ms[1..]);
    }
  }

  /** The packaged relay's metric for a sample of this one: the whole key
      split at its first dot into host label and key. */
  function Labelled(s: Sample): Relay.Metric {
    var (hostLabel, key) := Relay.SplitLabel(s.metric);
    Relay.Metric(hostLabel, key, s.value, s.ts)
  }

  /** The packaged relay reads the same lines as this one and splits the
      key at its first dot into the host label and the rest. */
  lemma SameLinesAsRelay(line: string)
    ensures Relay.ParseLine(line).Ok? <==> ParseLine(line).Ok?
    ensures ParseLine(line).Ok? ==>
              var s := ParseLine(line).value;
              var m := Relay.ParseLine(line).value;
              && m == Labelled(s)
              && m.value == s.value && m.seen == s.ts
              && ('.' in s.metric ==> m.hostLabel + "." + m.key == s.metric)
              && ('.' !in s.metric ==> m.key == s.metric)
  {
  }

  /** Chunk for chunk, the packaged relay yields one metric per sample of
      this one, in the same order, each the sample with its key split. */
  lemma SameSamplesAsRelay(lines: seq<string>)
    ensures var ss := ParseLines(lines);
            var ms := Relay.ParseLines(lines);
            |ms| == |ss| && forall i :: 0 <= i < |ms| ==> ms[i] == Labelled(ss[i])
  {
    forall l | true
      ensures Relay.ParseLine(l).Ok? == ParseLine(l).Ok?
      ensures ParseLine(l).Ok? ==> Relay.ParseLine(l).value == Labelled(ParseLine(l).value)
    {
      SameLinesAsRelay(l);
    }
    Relay.ParseAllMap(ParseLine, Relay.ParseLine, Labelled, lines);
  }

  /** The state of this relay's publisher: the pending batch and the size
      each flush reported before clearing the batch. */
  datatype Published<T> = Published(batch: seq<T>, logged: seq<nat>)

  /** `publish_task` of this relay over a run of events: the same trigger
      as the packaged relay, but `publish` only reports the batch size and
      clears it. */
  function PublishEvents<T>(batch: seq<T>, events: seq<Batcher.Event<T>>, flushInterval: int): (p: Published<T>)
    ensures |p.logged| <= |events|
    ensures forall i :: 0 <= i < |p.logged| ==> p.logged[i] > 0
    decreases |events|
  {
    if |events| == 0 then Published(batch, [])
    else
      match events[0]
      case Item(x) =>
        var b := batch + [x];
        if |b| >= flushInterval then
          var rest := PublishEvents([], events[1..], flushInterval);
          Published(rest.batch, [|b|] + rest.logged)
        else PublishEvents(b, events[1..], flushInterval)
      case Timeout =>
        if batch != [] then
          var rest := PublishEvents([], events[1..], flushInterval);
          Published(rest.batch, [|batch|] + rest.logged)
        else PublishEvents(batch, events[1..], flushInterval)
  }

  /** Between events the batch stays below the flush interval, as in the
      packaged relay. */
  lemma PublishEventsBounded<T>(batch: seq<T>, events: seq<Batcher.Event<T>>, flushInterval: int)
    requires Batcher.Bounded(batch, flushInterval)
    ensures Batcher.Bounded(PublishEvents(batch, events, flushInterval).batch, flushInterval)
  {
    PublishEventsAgrees(batch, events, flushInterval);
  }

  function Sizes<T>(flushes: seq<seq<T>>): (r: seq<nat>)
    ensures |r| == |flushes|
    ensures forall i :: 0 <= i < |r| ==> r[i] == |flushes[i]|
  {
    if |flushes| == 0 then [] else [|flushes[0]|] + Sizes(flushes[1..])
  }

  /** This relay batches exactly as the packaged one does: the same batch
      is pending and each report is the size of the flush the packaged
      relay would have shipped. */
  lemma {:induction false} PublishEventsAgrees<T>(batch: seq<T>, events: seq<Batcher.Event<T>>, flushInterval: int)
    ensures var r := Batcher.RunEvents(batch, events, flushInterval);
            PublishEvents(batch, events, flushInterval) == Published(r.batch, Sizes(r.flushes))
    decreases |events|
  {
    if |events| > 0 {
      var s := Batcher.Next(batch, events[0], flushInterval);
      PublishEventsAgrees(s.batch, events[1..], flushInterval);
      var rest := Batcher.RunEvents(s.batch, events[1..], flushInterval);
      if s.flushed.Some? {
        var fs := [s.flushed.value] + rest.flushes;
        assert fs[1..] == rest.flushes;
        assert Sizes(fs) == [|s.flushed.value|] + Sizes(rest.flushes);
      }
    }
  }

  function Sum(xs: seq<nat>): nat {
    if |xs| == 0 then 0 else xs[0] + Sum(xs[1..])
  }

  lemma {:induction false} SumSizes<T>(flushes: seq<seq<T>>)
    ensures Sum(Sizes(flushes)) == |Batcher.Concat(flushes)|
  {
    if |flushes| > 0 {
      SumSizes(flushes[1..]);
      assert Sizes(flushes)[1..] == Sizes(flushes[1..]);
    }
  }

  /** Every sample is counted once: the reported sizes plus the pending
      batch account for the starting batch and every arrival. */
  lemma PublishEventsCounts<T>(batch: seq<T>, events: seq<Batcher.Event<T>>, flushInterval: int)
    ensures var p := PublishEvents(batch, events, flushInterval);
            Sum(p.logged) + |p.batch| == |batch| + |Batcher.Items(events)|
  {
    var r := Batcher.RunEvents(batch, events, flushInterval);
    PublishEventsAgrees(batch, events, flushInterval);
    Batcher.RunEventsConserves(batch, events, flushInterval);
    SumSizes(r.flushes);
    assert |Batcher.Concat(r.flushes) + r.batch| == |batch + Batcher.Items(events)|;
  }
}
