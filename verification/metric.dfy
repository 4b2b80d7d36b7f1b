/** The platform-independent metric model of `relay/metric.py`: the raw
    Graphite sample off the wire and its mapping to a typed, labelled
    Neo4j 5 metric. */
module Metric {
  import opened Results
  import opened Text
  import opened Numbers

  /** A raw `"<key> <value> <timestamp>"` sample. */
  datatype GraphiteMetric = GraphiteMetric(key: string, value: Number, seenAt: Number)

  /** Why `GraphiteMetric.parse` raises: the stripped line did not unpack
      into three fields, or a field is not a number. */
  datatype ParseError = FieldCount(found: nat) | BadNumber(token: string)

  /** `GraphiteMetric.parse`: strip the line, split it on single spaces into
      exactly three fields and convert the value, then the timestamp. The
      first conversion that fails is the one reported. */
  function ParseGraphite(line: string): (r: Result<GraphiteMetric, ParseError>)
    ensures r.Err? && r.error.FieldCount? <==> CountOf(Strip(line), ' ') != 2
    ensures var fields := Split(Strip(line), ' ');
            r.Ok? <==> |fields| == 3 && SafeConvert(fields[1]).Ok? && SafeConvert(fields[2]).Ok?
    ensures var fields := Split(Strip(line), ' ');
            r.Ok? ==> |fields| == 3 && r.value.key == fields[0]
                      && r.value.value == SafeConvert(fields[1]).value
                      && r.value.seenAt == SafeConvert(fields[2]).value
    ensures var fields := Split(Strip(line), ' ');
            r.Err? && r.error.BadNumber? ==>
              |fields| == 3
              && r.error.token == (if SafeConvert(fields[1]).Err? then fields[1] else fields[2])
              && SafeConvert(r.error.token).Err?
    ensures r.Ok? ==> ' ' in Strip(line) && ' ' !in r.value.key
                      && r.value.key == Strip(line)[..Find(Strip(line), ' ')]
  {
    var fields := Split(Strip(line), ' ');
    if |fields| != 3 then Err(FieldCount(|fields|))
    else
      CountOfZero(Strip(line), ' ');
      SplitFirstField(Strip(line), ' ');
      match (SafeConvert(fields[1]), SafeConvert(fields[2]))
      case (Err(e), _) => Err(BadNumber(e.token))
      case (_, Err(e)) => Err(BadNumber(e.token))
      case (Ok(v), Ok(t)) => Ok(GraphiteMetric(fields[0], v, t))
  }

  /** The line a Graphite client sends for an integer-valued sample. */
  function FormatGraphite(key: string, value: int, seenAt: int): string {
    key + " " + IntToString(value) + " " + IntToString(seenAt)
  }

  /** A formatted sample is one non-empty line. */
  lemma FormatGraphiteOneLine(key: string, value: int, seenAt: int)
    requires '\n' !in key
    ensures FormatGraphite(key, value, seenAt) != []
    ensures '\n' !in FormatGraphite(key, value, seenAt)
  {
    var v := IntToString(value);
    var t := IntToString(seenAt);
    assert '\n' !in v && '\n' !in t;
  }

  /** A line of three space-free fields, trimmed at both ends, splits back
      into those fields. */
  lemma {:induction false} SplitThreeFields(a: string, b: string, c: string)
    requires a != [] && !IsSpace(a[0]) && c != [] && !IsSpace(c[|c| - 1])
    requires ' ' !in a && ' ' !in b && ' ' !in c
    ensures Split(Strip(a + " " + b + " " + c), ' ') == [a, b, c]
  {
    var line := a + " " + b + " " + c;
    assert line == a + (" " + b + " " + c);
    assert line[0] == a[0];
    assert line[|line| - 1] == c[|c| - 1];
    StripTrimmed(line);
    assert [a, b, c][1..] == [b, c] && [b, c][1..] == [c];
    assert Join([b, c], ' ') == b + [' '] + c;
    assert Join([a, b, c], ' ') == a + [' '] + (b + [' '] + c);
    assert Join([a, b, c], ' ') == line;
    SplitJoin([a, b, c], ' ');
  }

  /** A key with no space and no leading whitespace survives a trip over
      the wire: formatting then parsing gives back the same key and the
      same values, as ints while `int()` accepts their digits. */
  lemma {:induction false} ParseFormatGraphite(key: string, value: int, seenAt: int)
    requires key != [] && ' ' !in key && !IsSpace(key[0])
    ensures ParseGraphite(FormatGraphite(key, value, seenAt))
            == Ok(GraphiteMetric(key, ReadBack(value), ReadBack(seenAt)))
  {
    var v := IntToString(value);
    var t := IntToString(seenAt);
    assert ' ' !in v && ' ' !in t;
    SplitThreeFields(key, v, t);
    SafeConvertIntToString(value);
    SafeConvertIntToString(seenAt);
  }

  /** An empty field reads as 0: a doubled separator leaves an empty value
      field, and the line is still a sample. */
  lemma {:induction false} ParseEmptyValue(key: string, seenAt: int)
    requires key != [] && ' ' !in key && !IsSpace(key[0])
    ensures ParseGraphite(key + "  " + IntToString(seenAt)) == Ok(GraphiteMetric(key, Int(0), ReadBack(seenAt)))
  {
    var t := IntToString(seenAt);
    assert ' ' !in t;
    assert key + "  " + t == key + " " + "" + " " + t;
    SplitThreeFields(key, "", t);
    SafeConvertIntToString(seenAt);
  }

  /** Two fields are too few: a key and a value without a timestamp are
      rejected, and the error reports the two fields found. */
  lemma {:induction false} ParseTwoFields(key: string, value: int)
    requires key != [] && ' ' !in key && !IsSpace(key[0])
    ensures ParseGraphite(key + " " + IntToString(value)) == Err(FieldCount(2))
  {
    var v := IntToString(value);
    var line := key + " " + v;
    assert ' ' !in v;
    assert line[0] == key[0];
    assert line[|line| - 1] == v[|v| - 1];
    StripTrimmed(line);
    assert [key, v][1..] == [v];
    assert Join([key, v], ' ') == line;
    SplitJoin([key, v], ' ');
  }

  /** Value types a label may carry. */
  datatype LabelType = BoolLabel | IntLabel | StringLabel

  datatype LabelDescriptor = LabelDescriptor(key: string, valueType: LabelType, description: string)

  datatype LabelValue = Str(s: string) | IntValue(i: int) | BoolValue(b: bool)

  datatype Label = Label(descriptor: LabelDescriptor, value: LabelValue) {

    /** `Label.as_dict`: a one-entry map from the descriptor's key. */
    function AsDict(): (d: map<string, LabelValue>)
      ensures d.Keys == {descriptor.key}
      ensures d[descriptor.key] == value
    {
      map[descriptor.key := value]
    }
  }

  const ClientNameLabel := LabelDescriptor("neo4j_instance_name", StringLabel, "Hostname of Neo4j system")
  const DbNameLabel := LabelDescriptor("neo4j_db_name", StringLabel, "Name of the Neo4j database.")
  const SystemLabel := LabelDescriptor("neo4j_system", StringLabel, "Subsystem reporting the metric.")
  const HostLabel := LabelDescriptor("neo4j_label", StringLabel, "Label applied to Neo4j host.")

  /** Semantics of a metric: monotonically increasing, or point in time. */
  datatype MetricKind = Counter | Gauge

  datatype ValueType = IntType | FloatType

  datatype MetricSystem = Dbms | Database | Pool

  datatype Origin = Origin(host: string, hostLabel: string, firstSeen: Number)

  /** `COUNTERS`: the final key segments of the metrics Neo4j reports as
      counters, in the source's order (`flushes` and `hits` are listed
      twice). */
  const Counters: seq<string> :=
    BoltCounters + CheckpointCounters + DatabaseOperationCounters + PageCacheCounters
    + TransactionLogCounters + TransactionCounters + ClusteringCounters + OtherCounters

  const BoltCounters: seq<string> := [
    "connections_opened", "connections_closed",
    "messages_received", "messages_started", "messages_done", "messages_failed",
    "accumulated_queue_time", "accumulated_processing_time"
  ]
  /** Checkpoints, query replanning. */
  const CheckpointCounters: seq<string> := ["events", "total_time", "replan_events", "replan_wait_time"]
  const DatabaseOperationCounters: seq<string> := ["create", "start", "stop", "drop", "failed", "recovered"]
  const PageCacheCounters: seq<string> := [
    "eviction_exceptions", "flushes", "merges", "unpins", "pins", "evictions",
    "cooperative", "page_faults", "page_fault_failures",
    "page_cancelled_faults", "hits", "bytes_read", "bytes_written",
    "pages_copies"
  ]
  /** Query outcomes, transaction log. */
  const TransactionLogCounters: seq<string> := [
    "success", "failure",
    "rotation_events", "rotation_total_time", "appended_bytes", "flushes"
  ]
  const TransactionCounters: seq<string> := [
    "started", "peak_concurrent", "committed", "committed_read",
    "committed_write", "rollbacks", "rollbacks_read", "rollbacks_write",
    "terminated", "terminated_read", "terminated_write", "committed_tx_id",
    "last_closed_tx_id"
  ]
  const ClusteringCounters: seq<string> := [
    "pull_resusts_received", "tx_retries", "hits", "misses",
    "message_processing_timer", "replication_attempt", "replication_fail",
    "replication_maybe", "replication_success"
  ]
  /** Secondaries, garbage collection, and plain counts. */
  const OtherCounters: seq<string> := [
    "pull_updates", "pull_updates_highest_tx_id_requested",
    "pull_updates_highest_tx_id_received",
    "pause_time",
    "count"
  ]

  datatype Neo4j5Metric = Neo4j5Metric(
    key: string,
    value: Number,
    origin: Origin,
    seenAt: Number,
    kind: MetricKind,
    valueType: ValueType,
    system: MetricSystem,
    labels: seq<Label>)

  /** Where `from_graphite` raises `IndexError`: no second key segment, or
      no database-name segment after `database`. */
  datatype ConvertError = NoSubsystem | NoDatabaseName

  /** Python's `min(first_seen, seen_at)`: the first argument wins a tie. */
  function MinSeen(firstSeen: real, seenAt: Number): (m: Number)
    ensures m.AsReal() <= firstSeen && m.AsReal() <= seenAt.AsReal()
    ensures m == Float(firstSeen) || m == seenAt
    ensures seenAt.AsReal() == firstSeen ==> m == Float(firstSeen)
  {
    if seenAt.AsReal() < firstSeen then seenAt else Float(firstSeen)
  }

  /** `Neo4j5Metric.from_graphite`. */
  function FromGraphite(raw: GraphiteMetric, host: string, firstSeen: real): (r: Result<Neo4j5Metric, ConvertError>)
    ensures var parts := Split(raw.key, '.');
            r.Err? <==> CountOf(raw.key, '.') == 0 || (parts[1] == "database" && CountOf(raw.key, '.') == 1)
    ensures r.Ok? ==>
              var parts := Split(raw.key, '.');
              && (r.value.system == Database <==> parts[1] == "database")
              && (r.value.kind == Counter <==> parts[|parts| - 1] in Counters)
              && (r.value.valueType == IntType <==> raw.value.Int?)
              && r.value.value == raw.value && r.value.seenAt == raw.seenAt
              && r.value.origin.host == host && r.value.origin.hostLabel == parts[0]
              && r.value.origin.firstSeen == MinSeen(firstSeen, raw.seenAt)
              && r.value.origin.firstSeen.AsReal() <= firstSeen
              && r.value.origin.firstSeen.AsReal() <= raw.seenAt.AsReal()
  {
    FromSegments(Split(raw.key, '.'), raw.value, raw.seenAt, host, firstSeen, Counters)
  }

  /** The derivation of `from_graphite` once the key is split on `.`,
      given the set of counter names. */
  function FromSegments(parts: seq<string>, value: Number, seenAt: Number, host: string, firstSeen: real, counters: seq<string>): Result<Neo4j5Metric, ConvertError>
    requires |parts| >= 1
  {
    if |parts| < 2 then Err(NoSubsystem)
    else if parts[1] == "database" && |parts| < 3 then Err(NoDatabaseName)
    else
      var origin := Origin(host, parts[0], MinSeen(firstSeen, seenAt));
      var identity := [Label(ClientNameLabel, Str(origin.host)), Label(HostLabel, Str(origin.hostLabel))];
      var system := if parts[1] == "database" then Database else Dbms;
      var labels :=
        if system == Database then identity + [Label(DbNameLabel, Str(parts[2])), Label(SystemLabel, Str("database"))]
        else identity + [Label(SystemLabel, Str("dbms"))];
      var kind := if parts[|parts| - 1] in counters then Counter else Gauge;
      var valueType := if value.Int? then IntType else FloatType;
      var key := if system == Database then Join(parts[3..], '/') else Join(parts[2..], '/');
      Ok(Neo4j5Metric(key, value, origin, seenAt, kind, valueType, system, labels))
  }

  /** Label layout: instance name and host label always lead; a database
      metric then carries its database name and the `database` subsystem
      (four labels), any other metric only the `dbms` subsystem (three). */
  lemma FromGraphiteLabels(raw: GraphiteMetric, host: string, firstSeen: real)
    requires FromGraphite(raw, host, firstSeen).Ok?
    ensures var m := FromGraphite(raw, host, firstSeen).value;
            var parts := Split(raw.key, '.');
            && |m.labels| >= 3
            && m.labels[0] == Label(ClientNameLabel, Str(host))
            && m.labels[1] == Label(HostLabel, Str(parts[0]))
            && (m.system == Database ==>
                  |m.labels| == 4
                  && m.labels[2] == Label(DbNameLabel, Str(parts[2]))
                  && m.labels[3] == Label(SystemLabel, Str("database")))
            && (m.system == Dbms ==>
                  |m.labels| == 3 && m.labels[2] == Label(SystemLabel, Str("dbms")))
            && m.system != Pool
  {
  }

  /** The labels of a converted metric name distinct keys, so their
      `as_dict` maps never overlap and can be merged without losing a
      value. */
  lemma LabelKeysDistinct(raw: GraphiteMetric, host: string, firstSeen: real)
    requires FromGraphite(raw, host, firstSeen).Ok?
    ensures var ls := FromGraphite(raw, host, firstSeen).value.labels;
            forall i, j :: 0 <= i < j < |ls| ==> ls[i].AsDict().Keys !! ls[j].AsDict().Keys
  {
    FromGraphiteLabels(raw, host, firstSeen);
    StandardLabelsDistinct(FromGraphite(raw, host, firstSeen).value.labels);
  }

  /** The identity labels, optionally the database name, then the
      subsystem: four descriptors with pairwise different keys. */
  lemma StandardLabelsDistinct(ls: seq<Label>)
    requires |ls| == 3 || |ls| == 4
    requires ls[0].descriptor == ClientNameLabel && ls[1].descriptor == HostLabel
    requires |ls| == 3 ==> ls[2].descriptor == SystemLabel
    requires |ls| == 4 ==> ls[2].descriptor == DbNameLabel && ls[3].descriptor == SystemLabel
    ensures forall i, j :: 0 <= i < j < |ls| ==> ls[i].AsDict().Keys !! ls[j].AsDict().Keys
  {
    assert ClientNameLabel.key[6] == 'i' && HostLabel.key[6] == 'l';
    assert DbNameLabel.key[6] == 'd' && SystemLabel.key[6] == 's';
  }

  /** The canonical key drops the instance label and the subsystem prefix:
      its `/`-separated segments are exactly the dotted segments that
      follow `<label>.dbms` (or `<label>.database.<db>`). */
  lemma {:induction false} CanonicalKeySegments(raw: GraphiteMetric, host: string, firstSeen: real)
    requires FromGraphite(raw, host, firstSeen).Ok?
    requires '/' !in raw.key
    ensures var m := FromGraphite(raw, host, firstSeen).value;
            var parts := Split(raw.key, '.');
            var dropped := if m.system == Database then 3 else 2;
            && |parts| >= dropped
            && (|parts| == dropped ==> m.key == "")
            && (|parts| > dropped ==> Split(m.key, '/') == parts[dropped..])
  {
    var m := FromGraphite(raw, host, firstSeen).value;
    var parts := Split(raw.key, '.');
    var dropped := if m.system == Database then 3 else 2;
    if |parts| > dropped {
      forall i | 0 <= i < |parts[dropped..]|
        ensures '/' !in parts[dropped..][i]
      {
        JoinedPartsAvoid(parts, '.', '/', dropped + i);
      }
      SplitJoin(parts[dropped..], '/');
    }
  }

  /** A character absent from a joined text is absent from every part. */
  lemma {:induction false} JoinedPartsAvoid(parts: seq<string>, sep: char, c: char, i: nat)
    requires i < |parts| && c !in Join(parts, sep)
    ensures c !in parts[i]
  {
    if i > 0 {
      assert Join(parts, sep) == parts[0] + [sep] + Join(parts[1..], sep);
      JoinedPartsAvoid(parts[1..], sep, c, i - 1);
    } else if |parts| > 1 {
      assert Join(parts, sep) == parts[0] + ([sep] + Join(parts[1..], sep));
    }
  }

  /** The canonical key, kind, value type and subsystem do not depend on
      which instance reported the sample: re-labelling the first segment
      changes only the instance label. */
  lemma {:induction false} CanonicalKeyInstanceIndependent(label1: string, label2: string, rest: string, value: Number, seenAt: Number, host: string, firstSeen: real)
    requires '.' !in label1 && '.' !in label2
    ensures var r1 := FromGraphite(GraphiteMetric(label1 + "." + rest, value, seenAt), host, firstSeen);
            var r2 := FromGraphite(GraphiteMetric(label2 + "." + rest, value, seenAt), host, firstSeen);
            && r1.Ok? == r2.Ok?
            && (r1.Ok? ==>
                  && r1.value.key == r2.value.key && r1.value.kind == r2.value.kind
                  && r1.value.valueType == r2.value.valueType && r1.value.system == r2.value.system
                  && r1.value.origin.hostLabel == label1 && r2.value.origin.hostLabel == label2)
  {
    var tail := Split(rest, '.');
    SplitLeadingField(label1, rest, '.');
    SplitLeadingField(label2, rest, '.');
    RelabelSegments(label1, label2, tail, value, seenAt, host, firstSeen, Counters);
  }

  lemma RelabelSegments(label1: string, label2: string, tail: seq<string>, value: Number, seenAt: Number, host: string, firstSeen: real, counters: seq<string>)
    requires |tail| >= 1
    ensures var r1 := FromSegments([label1] + tail, value, seenAt, host, firstSeen, counters);
            var r2 := FromSegments([label2] + tail, value, seenAt, host, firstSeen, counters);
            && r1.Ok? == r2.Ok?
            && (r1.Ok? ==>
                  && r1.value.key == r2.value.key && r1.value.kind == r2.value.kind
                  && r1.value.valueType == r2.value.valueType && r1.value.system == r2.value.system
                  && r1.value.origin.hostLabel == label1 && r2.value.origin.hostLabel == label2)
  {
    var p1 := [label1] + tail;
    var p2 := [label2] + tail;
    assert p1[1..] == tail == p2[1..];
    assert p1[1] == p2[1] && p1[|p1| - 1] == p2[|p2| - 1];
    assert p1[2..] == tail[1..] == p2[2..];
    if |tail| >= 2 {
      assert p1[2] == p2[2];
      assert p1[3..] == tail[2..] == p2[3..];
    }
  }

  lemma ActiveThreadsNotCounter()
    ensures "active_threads" !in Counters
  {
    assert "active_threads"[1] == 'c' && "appended_bytes"[1] == 'p';
    assert "active_threads"[0] == 'a' && "committed_read"[0] == 'c' && "rollbacks_read"[0] == 'r';
    assert "active_threads" !in BoltCounters;
    assert "active_threads" !in CheckpointCounters;
    assert "active_threads" !in DatabaseOperationCounters;
    assert "active_threads" !in PageCacheCounters;
    assert "active_threads" !in TransactionLogCounters;
    assert "active_threads" !in TransactionCounters;
    assert "active_threads" !in ClusteringCounters;
    assert "active_threads" !in OtherCounters;
  }

  /** A key written as dot-joined segments is converted from exactly
      those segments. */
  lemma FromGraphiteJoined(parts: seq<string>, value: Number, seenAt: Number, host: string, firstSeen: real)
    requires |parts| >= 1 && forall i :: 0 <= i < |parts| ==> '.' !in parts[i]
    ensures FromGraphite(GraphiteMetric(Join(parts, '.'), value, seenAt), host, firstSeen)
            == FromSegments(parts, value, seenAt, host, firstSeen, Counters)
  {
    SplitJoin(parts, '.');
  }

  /** The reference pool gauge: `web1.dbms.pool.active_threads` (written as
      its segments) is a DBMS gauge named `pool/active_threads` with the
      host, client and system labels and the sample's value, typed INT
      exactly when that value is an int. */
  lemma FromGraphitePoolGauge(value: Number, seenAt: Number)
    ensures var key := Join(["web1", "dbms", "pool", "active_threads"], '.');
            var r := FromGraphite(GraphiteMetric(key, value, seenAt), "10.0.0.1", 0.0);
            r.Ok? && r.value.key == "pool/active_threads" && r.value.kind == Gauge
            && (r.value.valueType == IntType <==> value.Int?) && r.value.system == Dbms
            && |r.value.labels| == 3 && r.value.value == value
  {
    var parts := ["web1", "dbms", "pool", "active_threads"];
    FromGraphiteJoined(parts, value, seenAt, "10.0.0.1", 0.0);
    PoolGaugeSegments(value, seenAt);
  }

  lemma PoolGaugeSegments(value: Number, seenAt: Number)
    ensures var r := FromSegments(["web1", "dbms", "pool", "active_threads"], value, seenAt, "10.0.0.1", 0.0, Counters);
            r.Ok? && r.value.key == "pool/active_threads" && r.value.kind == Gauge
            && (r.value.valueType == IntType <==> value.Int?) && r.value.system == Dbms
            && |r.value.labels| == 3 && r.value.value == value
  {
    ActiveThreadsNotCounter();
    var parts := ["web1", "dbms", "pool", "active_threads"];
    assert parts[2..] == ["pool", "active_threads"];
    assert Join(["pool", "active_threads"], '/') == "pool/active_threads";
  }

  /** The pool gauge's key is a well-formed Graphite key: it is not empty,
      holds no space and does not start with one. */
  lemma PoolKeyWellFormed()
    ensures var key := Join(["web1", "dbms", "pool", "active_threads"], '.');
            key != [] && key[0] == 'w' && ' ' !in key
  {
    var parts := ["web1", "dbms", "pool", "active_threads"];
    JoinAvoids(parts, '.', ' ');
    JoinStartsWith(parts, '.');
  }

  /** End to end: every wire line `web1.dbms.pool.active_threads <v> <t>`
      with integer value and timestamp becomes a DBMS gauge named
      `pool/active_threads` holding that value. It is an INT gauge exactly
      when `int()` accepts the value's digits. */
  lemma WireToDomainPoolGauge(value: int, seenAt: int)
    ensures var key := Join(["web1", "dbms", "pool", "active_threads"], '.');
            var g := ParseGraphite(FormatGraphite(key, value, seenAt));
            && g == Ok(GraphiteMetric(key, ReadBack(value), ReadBack(seenAt)))
            && var r := FromGraphite(g.value, "10.0.0.1", 0.0);
               r.Ok? && r.value.key == "pool/active_threads" && r.value.kind == Gauge
               && (r.value.valueType == IntType <==> IntFits(value)) && r.value.system == Dbms
               && r.value.value.AsReal() == value as real
  {
    PoolKeyWellFormed();
    ParseFormatGraphite(Join(["web1", "dbms", "pool", "active_threads"], '.'), value, seenAt);
    FromGraphitePoolGauge(ReadBack(value), ReadBack(seenAt));
  }

  /** A page-cache counter of one database,
      `web1.database.neo4j.page_cache.evictions`: four labels, key stripped
      of `<label>.database.<db>`. */
  lemma FromGraphiteDatabaseCounter()
    ensures var key := Join(["web1", "database", "neo4j", "page_cache", "evictions"], '.');
            var r := FromGraphite(GraphiteMetric(key, Int(9), Float(2.5)), "h", 0.0);
            r.Ok? && r.value.key == "page_cache/evictions" && r.value.kind == Counter
            && r.value.system == Database && |r.value.labels| == 4
            && r.value.origin.firstSeen == Float(0.0)
  {
    var parts := ["web1", "database", "neo4j", "page_cache", "evictions"];
    FromGraphiteJoined(parts, Int(9), Float(2.5), "h", 0.0);
    DatabaseCounterSegments();
  }

  lemma DatabaseCounterSegments()
    ensures var r := FromSegments(["web1", "database", "neo4j", "page_cache", "evictions"], Int(9), Float(2.5), "h", 0.0, Counters);
            r.Ok? && r.value.key == "page_cache/evictions" && r.value.kind == Counter
            && r.value.system == Database && |r.value.labels| == 4
            && r.value.origin.firstSeen == Float(0.0)
  {
    assert "evictions" in PageCacheCounters;
    var parts := ["web1", "database", "neo4j", "page_cache", "evictions"];
    assert parts[3..] == ["page_cache", "evictions"];
    assert Join(["page_cache", "evictions"], '/') == "page_cache/evictions";
  }

  /** Keys too short for their subsystem are rejected with the index error
      the source raises. */
  lemma FromGraphiteShortKeys()
    ensures FromGraphite(GraphiteMetric("web1", Int(4), Int(1000)), "h", 0.0) == Err(NoSubsystem)
    ensures FromGraphite(GraphiteMetric("web1.database", Int(4), Int(1000)), "h", 0.0) == Err(NoDatabaseName)
  {
    SplitNoSeparator("web1", '.');
    assert Join(["web1", "database"], '.') == "web1.database";
    SplitJoin(["web1", "database"], '.');
  }
}
