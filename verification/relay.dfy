/** The sequential logic of `relay/relay.py`: parsing a received chunk into
    metrics, dropping the decode sentinel, guessing a metric's kind and
    value type, and the descriptor cache `shipit` consults. */
module Relay {
  import opened Results
  import opened Text
  import opened Numbers
  import Graphite = Metric

  /** A parsed sample; `hostLabel` is the text before the key's first dot
      (the source's `label`) and `key` the rest. */
  datatype Metric = Metric(hostLabel: string, key: string, value: Number, seen: Number)

  /** The monitoring backend's metric kinds. */
  datatype MetricKind = Counter | Delta | Gauge | KindUndefined

  /** The monitoring backend's value types. */
  datatype MetricType = BoolType | Distribution | IntType | FloatType | StringType | TypeUndefined

  lemma SuffixesExclusive(s: string)
    ensures !(EndsWith(s, "_rate") && EndsWith(s, "count"))
  {
    if EndsWith(s, "_rate") {
      assert s[|s| - 1] == "_rate"[4];
    }
  }

  /** `Metric.guessMetricKind`: a `_rate` suffix means DELTA, a `count`
      suffix COUNTER, anything else GAUGE. The two suffixes never both
      apply, so the order of the tests is immaterial. */
  function GuessMetricKind(m: Metric): (k: MetricKind)
    ensures k == Delta <==> EndsWith(m.key, "_rate")
    ensures k == Counter <==> EndsWith(m.key, "count")
    ensures k == Gauge <==> !EndsWith(m.key, "_rate") && !EndsWith(m.key, "count")
    ensures k != KindUndefined
  {
    SuffixesExclusive(m.key);
    if EndsWith(m.key, "_rate") then Delta
    else if EndsWith(m.key, "count") then Counter
    else Gauge
  }

  /** `Metric.guessValueType`: INT for an int and FLOAT for a float. The
      source's UNDEFINED fallback is unreachable, as every parsed value is
      one or the other. */
  function GuessValueType(m: Metric): (t: MetricType)
    ensures t == IntType <==> m.value.Int?
    ensures t == FloatType <==> m.value.Float?
    ensures t != TypeUndefined
  {
    match m.value
    case Int(_) => IntType
    case Float(_) => FloatType
  }

  /** The label is the text before the position `find` reports for the
      first dot, and the key the text after it. With a dot, they are the
      two sides of the first dot; without one, `find` gives -1, so the key
      is the whole text and the label is the text without its last
      character. */
  function SplitLabel(raw: string): (r: (string, string))
    ensures '.' in raw ==> r.0 + "." + r.1 == raw && '.' !in r.0
    ensures '.' !in raw ==> r.1 == raw && r.0 == (if raw == [] then [] else raw[..|raw| - 1])
  {
    var pos := Find(raw, '.');
    assert pos != -1 ==> raw == raw[..pos] + "." + raw[pos + 1..];
    (SliceTo(raw, pos), SliceFrom(raw, pos + 1))
  }

  /** One line of `parse`: the same three-field split and number conversion
      as a Graphite sample, then the label split of the first field. */
  function ParseLine(line: string): (r: Result<Metric, Graphite.ParseError>)
    ensures r.Ok? <==> Graphite.ParseGraphite(line).Ok?
    ensures r.Ok? ==> var g := Graphite.ParseGraphite(line).value;
                      && r.value.value == g.value && r.value.seen == g.seenAt
                      && ('.' in g.key ==> r.value.hostLabel + "." + r.value.key == g.key)
                      && ('.' !in g.key ==> r.value.key == g.key)
                      && (r.value.hostLabel, r.value.key) == SplitLabel(g.key)
                      && ('.' in g.key ==> '.' !in r.value.hostLabel)
  {
    match Graphite.ParseGraphite(line)
    case Err(e) => Err(e)
    case Ok(g) =>
      var (hostLabel, key) := SplitLabel(g.key);
      Ok(Metric(hostLabel, key, g.value, g.seenAt))
  }

  /** The line loop of `parse`: each line is parsed on its own, kept when
      it parses and dropped when parsing raises, in line order. */
  function ParseAll<M, E>(parse: string -> Result<M, E>, lines: seq<string>): (r: seq<M>)
    ensures |r| <= |lines|
    decreases |lines|
  {
    if |lines| == 0 then [] else ParseOne(parse, lines[0]) + ParseAll(parse, lines[1..])
  }

  /** What one line contributes: its value, or nothing. */
  function ParseOne<M, E>(parse: string -> Result<M, E>, line: string): seq<M> {
    if parse(line).Ok? then [parse(line).value] else []
  }

  /** Lines parse independently: the values of a concatenation are the
      values of each part, so a malformed line never disturbs later ones. */
  lemma {:induction false} ParseAllAppend<M, E>(parse: string -> Result<M, E>, a: seq<string>, b: seq<string>)
    ensures ParseAll(parse, a + b) == ParseAll(parse, a) + ParseAll(parse, b)
    decreases |a|
  {
    if |a| == 0 {
      assert a + b == b;
    } else {
      assert (a + b)[0] == a[0];
      assert (a + b)[1..] == a[1..] + b;
      ParseAllAppend(parse, a[1..], b);
      ConcatAssoc(ParseOne(parse, a[0]), ParseAll(parse, a[1..]), ParseAll(parse, b));
    }
  }

  /** A malformed line contributes nothing; a well-formed one exactly its
      value. */
  lemma ParseAllSingle<M, E>(parse: string -> Result<M, E>, line: string)
    ensures parse(line).Err? ==> ParseAll(parse, [line]) == []
    ensures parse(line).Ok? ==> ParseAll(parse, [line]) == [parse(line).value]
  {
    assert [line][1..] == [];
  }

  /** A value that no line parses to is never among the values. */
  lemma {:induction false} ParseAllAvoids<M, E>(parse: string -> Result<M, E>, lines: seq<string>, x: M)
    requires forall l :: parse(l).Ok? ==> parse(l).value != x
    ensures x !in ParseAll(parse, lines)
    decreases |lines|
  {
    if |lines| > 0 {
      ParseAllAvoids(parse, lines[1..], x);
    }
  }

  /** Two line parsers that accept the same lines, one's value being a
      function of the other's, produce values related the same way, one
      for one and in order. */
  lemma {:induction false} ParseAllMap<A, B, E, F>(p: string -> Result<A, E>, q: string -> Result<B, F>, f: A -> B, lines: seq<string>)
    requires forall l :: q(l).Ok? == p(l).Ok?
    requires forall l :: p(l).Ok? ==> q(l).value == f(p(l).value)
    ensures var xs := ParseAll(p, lines);
            var ys := ParseAll(q, lines);
            |ys| == |xs| && forall i :: 0 <= i < |ys| ==> ys[i] == f(xs[i])
    decreases |lines|
  {
    if |lines| > 0 {
      ParseAllMap(p, q, f, lines[1..]);
      var xs1 := ParseAll(p, lines[1..]);
      var ys1 := ParseAll(q, lines[1..]);
      var xs := ParseAll(p, lines);
      var ys := ParseAll(q, lines);
      if p(lines[0]).Ok? {
        assert xs == [p(lines[0]).value] + xs1;
        assert ys == [q(lines[0]).value] + ys1;
        forall i | 1 <= i < |ys|
          ensures ys[i] == f(xs[i])
        {
          assert ys[i] == ys1[i - 1] && xs[i] == xs1[i - 1];
        }
      }
    }
  }

  /** The metrics of the well-formed lines of the packaged relay. */
  function ParseLines(lines: seq<string>): seq<Metric> {
    ParseAll(ParseLine, lines)
  }

  /** A received chunk: decoded text, or bytes that are not UTF-8. */
  datatype Chunk = Decoded(text: string) | Undecodable

  /** What a `parse` generator yields: a metric, or the sentinel object
      that stands for a chunk that could not be decoded. */
  datatype Parsed<M> = Yield(metric: M) | BadData

  function Yields<M>(ms: seq<M>): (r: seq<Parsed<M>>)
    ensures |r| == |ms|
    ensures forall i :: 0 <= i < |r| ==> r[i] == Yield(ms[i])
  {
    if |ms| == 0 then [] else [Yield(ms[0])] + Yields(ms[1..])
  }

  /** `parse`: a chunk that fails to decode yields the sentinel alone;
      otherwise one metric per well-formed line and never the sentinel. */
  function Parse(chunk: Chunk): (r: seq<Parsed<Metric>>)
    ensures chunk.Undecodable? ==> r == [BadData]
    ensures chunk.Decoded? ==> BadData !in r && |r| <= |Lines(chunk.text)|
    ensures chunk.Decoded? ==>
              var ms := ParseLines(Lines(chunk.text));
              |r| == |ms| && forall i :: 0 <= i < |r| ==> r[i] == Yield(ms[i])
  {
    match chunk
    case Undecodable => [BadData]
    case Decoded(text) => Yields(ParseLines(Lines(text)))
  }

  /** The filter of `convert_task`: every yielded metric is forwarded, the
      sentinel never is. */
  function Forward<M(==)>(ps: seq<Parsed<M>>): (r: seq<M>)
    ensures |r| <= |ps|
    ensures forall i :: 0 <= i < |r| ==> Yield(r[i]) in ps
    ensures forall i :: 0 <= i < |ps| && ps[i].Yield? ==> ps[i].metric in r
  {
    if |ps| == 0 then []
    else
      var rest := Forward(ps[1..]);
      assert forall i :: 1 <= i < |ps| ==> ps[i] == ps[1..][i - 1];
      match ps[0]
      case Yield(m) => [m] + rest
      case BadData => rest
  }

  /** The filter keeps order and multiplicity: filtering a concatenation
      filters each part, a yielded metric passes once, the sentinel never. */
  lemma {:induction false} ForwardAppend<M>(ps: seq<Parsed<M>>, qs: seq<Parsed<M>>)
    ensures Forward(ps + qs) == Forward(ps) + Forward(qs)
    decreases |ps|
  {
    if |ps| > 0 {
      assert (ps + qs)[0] == ps[0];
      assert (ps + qs)[1..] == ps[1..] + qs;
      ForwardAppend(ps[1..], qs);
      if ps[0].Yield? {
        ConcatAssoc([ps[0].metric], Forward(ps[1..]), Forward(qs));
      }
    } else {
      assert ps + qs == qs;
    }
  }

  lemma ForwardOne<M>(m: M)
    ensures Forward([Yield(m)]) == [m]
    ensures Forward<M>([BadData]) == []
  {
    var one: seq<Parsed<M>> := [Yield(m)];
    var bad: seq<Parsed<M>> := [BadData];
    assert one[1..] == [] && bad[1..] == [];
  }

  /** `convert_task` on one chunk: an undecodable chunk forwards nothing,
      a decoded one forwards every well-formed line's metric in order. */
  function ConvertChunk(chunk: Chunk): (r: seq<Metric>)
    ensures chunk.Undecodable? ==> r == []
    ensures chunk.Decoded? ==> r == ParseLines(Lines(chunk.text))
  {
    match chunk
    case Undecodable => Forward(Parse(chunk))
    case Decoded(text) =>
      ForwardYields(ParseLines(Lines(text)));
      Forward(Parse(chunk))
  }

  lemma {:induction false} ForwardYields<M>(ms: seq<M>)
    ensures Forward(Yields(ms)) == ms
  {
    if |ms| > 0 {
      ForwardYields(ms[1..]);
      assert Yields(ms)[1..] == Yields(ms[1..]);
    }
  }

  /** A chunk of one unterminated line forwards that line's metric, if any. */
  lemma ConvertSingleLine(line: string)
    requires line != [] && '\n' !in line
    ensures ConvertChunk(Decoded(line)) == ParseLines([line])
  {
    SplitNoSeparator(line, '\n');
  }

  /** The value of `_BAD_DATA`. */
  const BadDataValue := Metric("", "", Int(-1), Int(-1))

  /** A key that is a lone dot splits into an empty label and an empty
      key. */
  lemma {:induction false} DotKeyParses(value: int, seenAt: int)
    ensures ParseLine(Graphite.FormatGraphite(".", value, seenAt)) == Ok(Metric("", "", ReadBack(value), ReadBack(seenAt)))
  {
    Graphite.ParseFormatGraphite(".", value, seenAt);
    assert SplitLabel(".") == ("", "");
  }

  /** Such a line is forwarded like any other. */
  lemma {:induction false} DotKeyForwarded(value: int, seenAt: int)
    ensures ConvertChunk(Decoded(Graphite.FormatGraphite(".", value, seenAt))) == [Metric("", "", ReadBack(value), ReadBack(seenAt))]
  {
    var line := Graphite.FormatGraphite(".", value, seenAt);
    DotKeyParses(value, seenAt);
    Graphite.FormatGraphiteOneLine(".", value, seenAt);
    ConvertSingleLine(line);
    ParseAllSingle(ParseLine, line);
  }

  /** The sentinel is filtered by identity, not by value: the line
      `". -1 -1"` parses to a metric equal to `_BAD_DATA`, and it is
      forwarded all the same. */
  lemma SentinelLookalikeForwarded()
    ensures ParseLine(Graphite.FormatGraphite(".", -1, -1)) == Ok(BadDataValue)
    ensures ConvertChunk(Decoded(Graphite.FormatGraphite(".", -1, -1))) == [BadDataValue]
  {
    DotKeyParses(-1, -1);
    DotKeyForwarded(-1, -1);
  }

  /** `METRICS`: per host label, the keys already seen and when. */
  type Cache = map<string, map<string, Number>>

  predicate Cached(cache: Cache, hostLabel: string, key: string) {
    hostLabel in cache && key in cache[hostLabel]
  }

  /** The cache after shipping one metric, and whether a descriptor
      registration was requested. */
  datatype Shipment = Shipment(cache: Cache, register: bool)

  /** The cache decision of `shipit`, as written: registration is requested
      iff the (label, key) pair is not cached, and then the label's entry
      is REPLACED by the single key just seen. */
  function Ship(cache: Cache, m: Metric): (s: Shipment)
    ensures s.cache.Keys == cache.Keys + {m.hostLabel}
    ensures s.register <==> !Cached(cache, m.hostLabel, m.key)
    ensures s.register ==> s.cache[m.hostLabel] == map[m.key := m.seen]
    ensures !s.register ==> s.cache == cache
    ensures forall l :: l in cache && l != m.hostLabel ==> s.cache[l] == cache[l]
    ensures Cached(s.cache, m.hostLabel, m.key)
  {
    if !Cached(cache, m.hostLabel, m.key) then
      Shipment(cache[m.hostLabel := map[m.key := m.seen]], true)
    else
      Shipment(cache, false)
  }

  /** Shipping the same metric twice in a row registers it once. */
  lemma ShipTwiceRegistersOnce(cache: Cache, m: Metric)
    ensures !Ship(Ship(cache, m).cache, m).register
    ensures Ship(Ship(cache, m).cache, m).cache == Ship(cache, m).cache
  {
  }

  /** A run of shipments: the final cache and the (label, key) pairs whose
      registration was requested, in order. */
  datatype Shipments = Shipments(cache: Cache, registered: seq<(string, string)>)

  function ShipAll(cache: Cache, ms: seq<Metric>): (r: Shipments)
    ensures |r.registered| <= |ms|
    decreases |ms|
  {
    if |ms| == 0 then Shipments(cache, [])
    else
      var s := Ship(cache, ms[0]);
      var rest := ShipAll(s.cache, ms[1..]);
      if s.register then Shipments(rest.cache, [(ms[0].hostLabel, ms[0].key)] + rest.registered)
      else rest
  }

  predicate Distinct<T(==)>(s: seq<T>) {
    forall i, j :: 0 <= i < j < |s| ==> s[i] != s[j]
  }

  /** Because the label's entry is replaced, alternating two keys under one
      label re-registers the first key: a descriptor is requested twice. */
  lemma ShipAllRegistersTwice(a: Metric, b: Metric)
    requires a.hostLabel == b.hostLabel && a.key != b.key
    ensures ShipAll(map[], [a, b, a]).registered
            == [(a.hostLabel, a.key), (a.hostLabel, b.key), (a.hostLabel, a.key)]
    ensures !Distinct(ShipAll(map[], [a, b, a]).registered)
  {
    var c1 := Ship(map[], a).cache;
    var c2 := Ship(c1, b).cache;
    assert !Cached(c2, a.hostLabel, a.key);
    assert ShipAll(c2, [a]).registered == [(a.hostLabel, a.key)];
    assert [b, a][1..] == [a];
    assert ShipAll(c1, [b, a]).registered == [(a.hostLabel, b.key), (a.hostLabel, a.key)];
    assert [a, b, a][1..] == [b, a];
    var r := ShipAll(map[], [a, b, a]).registered;
    assert r[0] == r[2];
  }

  /** The evidently intended cache update: remember the key alongside the
      label's earlier keys instead of replacing them. */
  function ShipRemembering(cache: Cache, m: Metric): (s: Shipment)
    ensures s.register <==> !Cached(cache, m.hostLabel, m.key)
    ensures !s.register ==> s.cache == cache
    ensures s.cache.Keys == cache.Keys + {m.hostLabel}
    ensures forall l, k :: Cached(cache, l, k) ==> Cached(s.cache, l, k)
    ensures forall l, k :: Cached(s.cache, l, k) ==> Cached(cache, l, k) || (l, k) == (m.hostLabel, m.key)
    ensures Cached(s.cache, m.hostLabel, m.key)
  {
    if !Cached(cache, m.hostLabel, m.key) then
      var known := if m.hostLabel in cache then cache[m.hostLabel] else map[];
      Shipment(cache[m.hostLabel := known[m.key := m.seen]], true)
    else
      Shipment(cache, false)
  }

  function ShipAllRemembering(cache: Cache, ms: seq<Metric>): (r: Shipments)
    ensures forall l, k :: Cached(cache, l, k) ==> Cached(r.cache, l, k)
    ensures forall i :: 0 <= i < |r.registered| ==> Cached(r.cache, r.registered[i].0, r.registered[i].1)
    decreases |ms|
  {
    if |ms| == 0 then Shipments(cache, [])
    else
      var s := ShipRemembering(cache, ms[0]);
      var rest := ShipAllRemembering(s.cache, ms[1..]);
      if s.register then Shipments(rest.cache, [(ms[0].hostLabel, ms[0].key)] + rest.registered)
      else rest
  }

  /** With the remembering cache, a descriptor is requested at most once per
      (label, key) pair, and never for a pair cached beforehand. */
  lemma {:induction false} ShipAllRememberingOnce(cache: Cache, ms: seq<Metric>)
    ensures var regs := ShipAllRemembering(cache, ms).registered;
            && Distinct(regs)
            && forall i :: 0 <= i < |regs| ==> !Cached(cache, regs[i].0, regs[i].1)
    decreases |ms|
  {
    if |ms| > 0 {
      var s := ShipRemembering(cache, ms[0]);
      var rest := ShipAllRemembering(s.cache, ms[1..]);
      ShipAllRememberingOnce(s.cache, ms[1..]);
      if s.register {
        var p := (ms[0].hostLabel, ms[0].key);
        var regs := [p] + rest.registered;
        forall i | 0 <= i < |regs|
          ensures !Cached(cache, regs[i].0, regs[i].1)
        {
          if i > 0 {
            assert regs[i] == rest.registered[i - 1];
          }
        }
        forall i, j | 0 <= i < j < |regs|
          ensures regs[i] != regs[j]
        {
          if i == 0 {
            assert regs[j] == rest.registered[j - 1];
            assert !Cached(s.cache, regs[j].0, regs[j].1);
          } else {
            assert regs[i] == rest.registered[i - 1] && regs[j] == rest.registered[j - 1];
          }
        }
      }
    }
  }

  /** And at least once: every shipped (label, key) pair that was not cached
      beforehand has its descriptor requested. */
  lemma {:induction false} ShipAllRememberingComplete(cache: Cache, ms: seq<Metric>)
    ensures forall i :: 0 <= i < |ms| && !Cached(cache, ms[i].hostLabel, ms[i].key) ==>
              (ms[i].hostLabel, ms[i].key) in ShipAllRemembering(cache, ms).registered
    decreases |ms|
  {
    if |ms| > 0 {
      var s := ShipRemembering(cache, ms[0]);
      var rest := ShipAllRemembering(s.cache, ms[1..]);
      ShipAllRememberingComplete(s.cache, ms[1..]);
      forall i | 0 <= i < |ms| && !Cached(cache, ms[i].hostLabel, ms[i].key)
        ensures (ms[i].hostLabel, ms[i].key) in ShipAllRemembering(cache, ms).registered
      {
        if i > 0 && !Cached(s.cache, ms[i].hostLabel, ms[i].key) {
          assert ms[i] == ms[1..][i - 1];
        }
      }
    }
  }
}
