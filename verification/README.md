# Graphite metrics relay — a Dafny model of its core

The relay accepts Graphite plaintext samples (`<key> <value> <timestamp>`,
one per line) from Neo4j servers. It turns each sample into a typed,
labelled metric, batches the metrics, and hands finished batches to a
monitoring backend. This project models the sequential logic of that
pipeline as pure Dafny functions and proves properties of it:

- `Results` (`results.dfy`): the `Option` and `Result` wrappers.
- `Text` (`text.dfy`): the Python string operations the relay relies on.
  These are `strip`, `split` on one character, `join`, `find`, slicing with
  a possibly negative bound, `endswith` and `splitlines`.
- `Numbers` (`numbers.dfy`): `safe_convert`. A value is a Python `int` or a
  Python `float`, and a float is the exact rational its decimal literal
  denotes.
- `Metric` (`metric.dfy`): `relay/metric.py`. It covers the raw Graphite
  sample and its parser, labels and label descriptors, the `COUNTERS`
  catalogue, and `Neo4j5Metric.from_graphite`, the mapping from wire to
  domain.
- `Relay` (`relay.dfy`): the packaged relay `relay/relay.py`. It covers
  `parse`, which splits the key at its first dot into a host label and the
  rest, and the `_BAD_DATA` sentinel that `convert_task` drops. It also
  covers `guessMetricKind`, `guessValueType` and the descriptor cache
  `METRICS` that `shipit` consults.
- `Batcher` (`batcher.dfy`): the batching loop of `publish_task` in
  `relay/relay.py`. The endless loop, which waits with a timeout, is driven
  here by a finite sequence of events. Each event is either an item taken
  off the queue (`Item`) or the expiry of the flush timeout (`Timeout`).
- `LegacyRelay` (`legacy.dfy`): the standalone `relay.py`. Its samples are
  `(key, value, timestamp)` tuples with the key kept whole. Its
  `publish_task` only reports the batch size and clears the batch.

Points of the code the model keeps exactly:

- A metric's kind is read from the last segment of the raw dotted key
  (`parts[-1]`), not from the canonical key. The two can differ. For
  `web1.dbms` the canonical key is empty and the kind is read from `dbms`.
  For `web1.dbms.page_cache/evictions` the kind is read from
  `page_cache/evictions`, which is not a counter, although the canonical
  key ends in the `/`-segment `evictions`, which is.
- The size flush fires when the batch holds at least `flush_interval`
  items. For an interval of zero or less, every item is flushed as soon as
  it arrives.
- The descriptor cache `METRICS` is keyed by host label and then by key.
  The code's own comments call it a history of observed metrics
  (`relay/relay.py:24`) and test whether this label-and-key "combo" was
  seen before (`relay/relay.py:118`). Yet a new key replaces the label's
  earlier keys instead of joining them (see Findings).
- The line `. -1 -1` parses to a metric equal to `_BAD_DATA`, and any line
  whose key is a lone dot parses to a metric with empty label and key.
  `convert_task` still forwards it, because the filter compares identity
  (`is not`), not value. The model keeps that distinction: the sentinel is
  the constructor `BadData`, never a metric value.

## Model

| member | source | states |
|---|---|---|
| Numbers.SafeConvert | relay/metric.py:8-19 | The empty string is the integer 0. Otherwise the result is an int exactly when the text is an integer literal of at most 4300 digits, the most `int()` reads. It is a float exactly when the text is a decimal literal but not an integer literal. It is an error, carrying the text, exactly when the text is neither. |
| Numbers.SafeConvertIntToString | relay/relay.py:56-67 | Reading back the decimal rendering of any integer gives its value. It is that same int exactly while the magnitude has at most 4300 digits, and a float of the same value beyond. |
| Numbers.IntFitsBound | relay/metric.py:16-19 | `int()` reads the rendering of an integer back exactly when its magnitude is below 10^4300. |
| Numbers.SafeConvertDecimal | relay.py:27-38 | `"2.5"` converts to the float 2.5, because `int()` fails first. |
| Numbers.SafeConvertBareFraction | relay.py:27-38 | `"-.5"` converts to the float -0.5. The whole part may be missing, and the sign applies to the float. |
| Numbers.SafeConvertRejects | relay.py:27-38 | `"abc"` is rejected, and the error carries the offending text. |
| Numbers.SafeConvertPlusSign | relay.py:27-38 | `"+7"` converts to the int 7. |
| Metric.ParseGraphite | relay/metric.py:30-39 | A field-count error happens exactly when the stripped line does not hold exactly two spaces. A line parses exactly when it splits into three fields and `safe_convert` accepts both the second and the third. The sample is then the first field verbatim and the two converted numbers. A conversion error reports the value field if that fails, otherwise the timestamp field. A parsed key is the text before the first space of the stripped line, and it has no space in it. |
| Metric.ParseFormatGraphite | relay/metric.py:30-39 | Round trip: formatting a sample with a space-free key and integer fields, then parsing it, gives back the same key and the same values. A value comes back as an int exactly while `int()` accepts its digits, and as a float beyond. |
| Metric.ParseEmptyValue | relay/metric.py:33-36 | A doubled separator leaves an empty value field. The line still parses, with value 0. |
| Metric.ParseTwoFields | relay/metric.py:33 | A line with a key and a value but no timestamp is rejected with a field-count error that reports 2 fields. |
| Metric.Label.AsDict | relay/metric.py:98-99 | The map has the descriptor's key as its only key, mapped to the label's value. |
| Metric.LabelKeysDistinct | relay/metric.py:106-117 | The labels of any converted metric have pairwise disjoint `as_dict` key sets. |
| Metric.MinSeen | relay/metric.py:202-204 | The result is no larger than either argument and is one of them. When the two are equal, the first argument wins. |
| Metric.FromGraphite | relay/metric.py:193-241 | Conversion fails exactly when the key has no dot, or when its second segment is `database` and no third segment follows. A successful conversion has the following properties. Its subsystem is DATABASE exactly when the second segment is `database`. It is a counter exactly when the last segment is in `COUNTERS`. Its value type is INT exactly when the value is an int. It keeps the value and the timestamp. Its origin carries the host and the first segment. Its first-seen time is `min(first_seen, seen_at)` with Python's tie rule, so it is bounded by both inputs. |
| Metric.FromGraphiteLabels | relay/metric.py:207-219 | The labels come in this order: instance name and host label first, then the database name and the `database` subsystem (4 labels), or only the `dbms` subsystem (3 labels). The POOL subsystem is never produced. |
| Metric.CanonicalKeySegments | relay/metric.py:233-239 | The `/`-separated segments of the canonical key are exactly the dotted segments after `<label>.<subsystem>` or after `<label>.database.<db>`. When no segment follows that prefix, the canonical key is empty. |
| Metric.CanonicalKeyInstanceIndependent | relay/metric.py:196-239 | Re-labelling the first key segment changes only the host label. Success, canonical key, kind, value type and subsystem all stay the same. |
| Metric.ActiveThreadsNotCounter | relay/metric.py:128-175 | `active_threads` is not in the counter catalogue. |
| Metric.FromGraphitePoolGauge | relay/metric.py:193-241 | For any value, `web1.dbms.pool.active_threads` becomes a DBMS gauge named `pool/active_threads`. It has 3 labels and the sample's value, and INT type exactly when that value is an int. |
| Metric.WireToDomainPoolGauge | relay/metric.py:30-39 | End to end, for every integer value and timestamp: the wire line for that pool gauge parses back to the same key and values, and the sample converts to a DBMS gauge `pool/active_threads` with that value. The gauge is INT exactly while `int()` accepts the value's digits. |
| Metric.FromGraphiteDatabaseCounter | relay/metric.py:212-236 | `web1.database.neo4j.page_cache.evictions` becomes a DATABASE counter named `page_cache/evictions` with 4 labels. Its first-seen time is the earlier of the two times. |
| Metric.FromGraphiteShortKeys | relay/metric.py:196-214 | A one-segment key is rejected for lacking a subsystem. `<label>.database` is rejected for lacking a database name. |
| Relay.GuessMetricKind | relay/relay.py:37-43 | DELTA exactly for a `_rate` suffix, COUNTER exactly for a `count` suffix, GAUGE exactly for neither. The two suffixes never both apply. |
| Relay.GuessValueType | relay/relay.py:45-51 | INT exactly for an int value and FLOAT exactly for a float value. UNDEFINED is never produced. |
| Relay.SplitLabel | relay/relay.py:87-89 | With a dot in the key, label and key are the two sides of the first dot. Without one, `find` returns -1, so the key is the whole text and the label is the text minus its last character. |
| Relay.ParseLine | relay/relay.py:85-92 | A line parses exactly when it is a valid Graphite sample. The value and timestamp are the sample's. Label and key are the first-dot split of the sample's key: with a dot, the label has no dot and label, dot and key rebuild the sample key; without one, the key is the whole sample key and the label is it minus its last character. |
| Relay.ParseAllAppend | relay/relay.py:84-95 | For any line parser, lines parse independently: the values of a concatenation of lines are the values of each part, concatenated. |
| Relay.ParseAllSingle | relay/relay.py:85-95 | For any line parser, a malformed line contributes nothing, and a well-formed line contributes exactly its value. |
| Relay.Parse | relay/relay.py:79-98 | An undecodable chunk yields only the sentinel. A decoded chunk never yields the sentinel, yields at most one metric per line, and yields exactly the metrics of its well-formed lines, in line order. |
| Relay.Forward | relay/relay.py:107-112 | Everything forwarded was yielded, and every yielded metric is forwarded. |
| Relay.ForwardAppend | relay/relay.py:107-110 | The filter keeps order and multiplicity: filtering a concatenation of yields is filtering each part and concatenating. |
| Relay.ForwardOne | relay/relay.py:108-112 | A single yielded metric is forwarded once; the sentinel is forwarded as nothing. |
| Relay.ConvertChunk | relay/relay.py:101-113 | An undecodable chunk forwards nothing. A decoded chunk forwards exactly the metrics of its lines, in order. |
| Relay.SentinelLookalikeForwarded | relay/relay.py:53 | The line `. -1 -1` parses to a metric equal to `_BAD_DATA`, and `convert_task` forwards it. |
| Relay.DotKeyForwarded | relay/relay.py:107-110 | For any value and timestamp, a line whose key is a lone dot is forwarded as a metric with empty label and empty key, carrying the values as `safe_convert` reads them back. |
| Relay.Ship | relay/relay.py:116-119 | Registration is requested exactly when the (label, key) pair is not cached. The label's entry is then replaced by the single key just seen, other labels are unchanged, and afterwards the pair is cached. |
| Relay.ShipTwiceRegistersOnce | relay/relay.py:117-119 | Shipping the same metric twice in a row requests registration at most once, and the second shipment leaves the cache unchanged. |
| Relay.ShipAllRegistersTwice | relay/relay.py:117-119 | Under one label, shipping keys a, b, a requests registration of a twice. |
| Relay.ShipRemembering | relay/relay.py:117-119 | The corrected update: registration is requested exactly when the pair is new. Afterwards the cached pairs are exactly the earlier ones plus this one. |
| Relay.ShipAllRememberingOnce | relay/relay.py:116-124 | With the corrected update, the registered pairs are distinct, and none of them was cached beforehand. |
| Relay.ShipAllRememberingComplete | relay/relay.py:116-124 | With the corrected update, every shipped pair that was not cached beforehand is registered. |
| Batcher.Next | relay/relay.py:149-162 | One loop turn keeps the arrival order: the flushed items followed by the new batch equal the old batch plus the arrival. An item flushes exactly when the batch reaches the interval. A timeout flushes exactly when the batch is non-empty. A flush empties the batch and is never empty. After every turn the batch is below the interval or empty, and a flush from a bounded batch holds at most the interval's worth of items. |
| Batcher.RunEvents | relay/relay.py:155-162 | Every flush of a run is non-empty and no larger than the interval allows. After at least one event, or from a bounded batch, the pending batch is bounded. |
| Batcher.RunEventsConserves | relay/relay.py:142-153 | Nothing is lost, duplicated or reordered: all flushes followed by the pending batch equal the starting batch followed by every arrival. |
| Batcher.TimeoutEmptiesBatch | relay/relay.py:160-162 | After a run that ends with a timeout, the batch is empty. |
| Batcher.RunEventsAppend | relay/relay.py:155-162 | Running two stretches of events one after the other is the same as running their concatenation. |
| Batcher.ArrivalsBelowInterval | relay/relay.py:157-158 | Items that do not bring the batch to the interval stay pending, and nothing is flushed. |
| Batcher.FullBatchFlushes | relay/relay.py:157-159 | The item that brings an empty batch up to the interval flushes all of it, in arrival order. |
| Batcher.TimeoutFlushes | relay/relay.py:160-162 | A timeout flushes a pending batch and does nothing on an empty one, so a second timeout changes nothing. |
| Batcher.PublishTask | relay/relay.py:133-164 | The dispatched items followed by the pending batch are exactly the arrivals, the pending batch stays bounded, and the loop agrees with `RunEvents`. |
| LegacyRelay.ParseLine | relay.py:48-51 | A line parses exactly when it is a valid Graphite sample. The tuple keeps the whole key, the value and the timestamp, and its key is never empty, so it never equals `BAD_DATA`. |
| LegacyRelay.ParseLines | relay.py:46-54 | At most one sample per line, and never `BAD_DATA`. |
| LegacyRelay.SameSamplesAsRelay | relay.py:46-54 | For any lines, this relay yields one sample for each metric the packaged relay yields, in the same order; each metric is its sample with the key split at the first dot. |
| LegacyRelay.Parse | relay.py:41-57 | An undecodable chunk yields only the sentinel. A decoded chunk never yields it, and yields exactly the samples of its well-formed lines, in line order. |
| LegacyRelay.ConvertChunk | relay.py:60-72 | An undecodable chunk forwards nothing. A decoded chunk forwards exactly the samples of its lines. |
| LegacyRelay.IdentityFilterIsValueFilter | relay.py:66-71 | In this relay, filtering the sentinel by value and by identity agree on every chunk. |
| LegacyRelay.SameLinesAsRelay | relay.py:48-51 | This relay accepts the same lines as the packaged one, with the same value and timestamp. The packaged relay's metric is this relay's sample with the key split at its first dot; with a dot, label, dot and key rebuild the whole key, and without one the two keys are equal. |
| LegacyRelay.PublishEventsAgrees | relay.py:83-101 | This relay batches exactly as the packaged one does: the same pending batch, and one reported size per flush the packaged relay would ship. |
| LegacyRelay.PublishEventsBounded | relay.py:94-101 | A batch that starts below the flush interval stays below it after any run of events. |
| LegacyRelay.PublishEventsCounts | relay.py:83-92 | The reported flush sizes plus the pending batch size count every arrival exactly once. |

## Left out

- Sockets, `asyncio` tasks and queues, `background` and `TASKS`, logging,
  and the endless loops are not modelled. Each loop is a function of a
  finite sequence of events or lines.
- The connection listener and `CONNECTIONS` are not modelled: entries are
  written when a client connects and removed when it disconnects, all
  inside the socket handler. Only the `first_seen` argument of
  `from_graphite` is modelled.
- The network calls in `shipit` (descriptor creation and time-series
  writes) are not modelled. Only its cache decision is.
- `gcp.py`, `relay/gcp.py` and `main.py` are not part of this model.
- The `except Exception` branch of `publish_task` is not modelled. The
  only failures inside the loop are the shipper's, and they run in the
  background.
- Decoding UTF-8 is reduced to a flag: a chunk either decodes to text or
  does not.
- Numbers.SafeConvert: accepts only the literal grammar "optional sign,
  digits, at most one decimal point". Python's exponents, `inf`/`nan`,
  digit-group underscores, surrounding whitespace and non-ASCII digits are
  not accepted. Floats are exact rationals, with no binary rounding.
  The limit of 4300 digits on `int()` is fixed at its default: it is
  absent from Python releases older than 3.11 (other than the 3.9.14 and
  3.10.7 security releases), and `sys.set_int_max_str_digits` can change
  it. The model counts every digit of the literal, leading zeros
  included. Beyond the limit the float is the exact value, where Python
  gives `inf`.
- Text.Strip: removes the ASCII whitespace of `str.isspace()` (space,
  `\t`, `\n`, `\v`, `\f`, `\r` and `\x1c` to `\x1f`) but not the
  non-ASCII whitespace that `str.strip()` also removes, such as `\x85`,
  `\xa0` and `\u2028`.
- Text.Lines: breaks at `\n` only. `str.splitlines()` also breaks at
  `\r`, `\r\n`, `\v`, `\f`, `\x1c`, `\x1d`, `\x1e`, `\x85`, `\u2028` and
  `\u2029`.
- Metric.CanonicalKeySegments: requires that the raw key contains no `/`.
  A `/` inside a segment would make the canonical key split into more
  segments than the dotted key has.
- Relay.GuessValueType: the UNDEFINED branch of the source is unreachable
  in the model, because every value is an int or a float.
- The spare `MetricSystem.POOL` value and the descriptions of the label
  descriptors are modelled as data only. No code reads them.

## Findings

| source | as written | input that shows it | evidently intended | confidence | as-written member | corrected member |
|---|---|---|---|---|---|---|
| relay/relay.py:117-119 | On a new (label, key) pair, `METRICS[label] = {key: seen}` replaces all of the label's earlier keys | Ship metrics with the same label and keys a, b, a: the third shipment finds a forgotten and registers its descriptor again | Add the key to the label's map, so that each (label, key) descriptor is registered once | not executed | Relay.ShipAllRegistersTwice | Relay.ShipAllRememberingOnce |
