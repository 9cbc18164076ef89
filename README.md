# Kafka connector admission check

This project models how Brooklin's single-topic Kafka connector admits a
proposed datastream (`KafkaConnector.initializeDatastream`), and proves
properties of that model. It also models the whitelist the connector builds
in its constructor and the connector's two private predicates,
`hasWildCards` and `isWhiteListedCluster`.

The check is a fail-fast pipeline that updates the stream in place as it
goes:

1. It parses the source connection string and writes the canonical form back
   at once.
2. It fills in the destination's missing key and payload serdes from
   non-blank connector defaults.
3. It rejects topics that contain an unescaped `*`, `?` or `.`.
4. It rejects clusters that share no broker with a non-empty whitelist.
5. It looks up the live partition count. A null answer fails. An unset
   declared count becomes the live count. A different declared count fails.
6. If the stream asks for start positions, the decoded partition-to-offset
   map must have exactly the partitions `0..n-1` as its keys.

An unexpected exception is wrapped as an internal validation error. Here
that means one from the parser, from creating or querying or closing the
consumer, or from the JSON decoder. Validation errors pass through
unchanged.

Files:

- `wrappers.dfy`: `Option`.
- `datastream.dfy`: the datastream, its source and its destination as
  classes with mutable fields. `StreamState` is their abstract value.
- `kafka_connector.dfy`: module `Kafka`. It holds the wildcard guard as an
  imperative nested loop, proved against a reference predicate. It also holds
  the whitelist, the start-position test, the serde defaults and the
  `KafkaConnector` class. In that class, `Initialize` is a function that
  specifies the whole check. `InitializeDatastream` is the step-by-step
  method, proved to leave the stream in the state `Initialize` gives. The
  lemmas about `Initialize` state what the check promises.

The collaborators whose code is not part of this model are parameters, in
the datatype `Environment`:

- `parse`: `KafkaConnectionString.valueOf`. It returns `None` when parsing
  throws. The result carries the brokers, the topic and the printed canonical
  string.
- `partitionsFor`: what the partition-finder consumer answers for a topic,
  a `PartitionLookup`. `LookupThrew` means creating the consumer or calling
  `partitionsFor` threw. `PartitionInfoNull` means the list is null.
  `PartitionCount(n)` means the list has `n` entries.
- `consumerCloseThrows`: whether closing the consumer throws. That
  exception surfaces only when the block inside the try-with-resources
  ended normally. Otherwise it is suppressed behind the block's own
  exception.
- `decodeOffsets`: `JsonUtils.fromJson` into a map from `int` to `int`. It
  returns `None` when decoding throws.

The whitelist constructor likewise takes `parseBrokers` as a function.

The canonical connection string is written before any check runs
(KafkaConnector.java line 72). A stream rejected after parsing therefore
carries the canonical string and the serde defaults, including one whose
topic is unavailable. `PartitionReconciliation` and
`CanonicalStringAndDefaultsWrittenFirst` state this. The partition count is
written (line 109) before the start-position check, so a stream rejected by
that check keeps the live count.

The metadata key of the start positions, `DatastreamMetadataConstants.START_POSITION`,
comes from a file that is not part of this model. It is written here as
`"system.start.position"`. Only its identity matters to the proofs.

## Model

| member | source | states |
|---|---|---|
| `Kafka.HasWildCards` | datastream-kafka-connector/src/main/java/com/linkedin/datastream/connectors/kafka/KafkaConnector.java:152-173 | The nested scan returns true exactly when some index `i >= 1` holds `*`, `?` or `.` and index `i-1` is not a backslash. The empty topic gives false. An inner `break` does not stop the outer loop. |
| `Kafka.SpecialCharsCovered` | datastream-kafka-connector/src/main/java/com/linkedin/datastream/connectors/kafka/KafkaConnector.java:160-171 | Running the scan once per special character finds an unescaped special character somewhere exactly when the reference predicate holds. |
| `Kafka.FirstCharacterOnlyMattersAsEscape` | datastream-kafka-connector/src/main/java/com/linkedin/datastream/connectors/kafka/KafkaConnector.java:163-165 | Index 0 is never a candidate. Replacing the first character by any character with the same "is a backslash" status leaves the verdict unchanged. A one-character topic is never flagged. |
| `Kafka.WildcardExamples` | datastream-kafka-connector/src/main/java/com/linkedin/datastream/connectors/kafka/KafkaConnector.java:155-172 | `a*b` is flagged. `a\*b`, the empty topic and `*abc` are not. In `a\*b.c` the escaped `*` does not hide the later `.`. |
| `Kafka.WhiteListFromConfig` | datastream-kafka-connector/src/main/java/com/linkedin/datastream/connectors/kafka/KafkaConnector.java:55-60 | The whitelist is empty when `whiteListedClusters` is absent. Otherwise it holds exactly the brokers parsed from that setting. |
| `Kafka.KafkaConnector.constructor` | datastream-kafka-connector/src/main/java/com/linkedin/datastream/connectors/kafka/KafkaConnector.java:50-61 | The connector's whitelist is the one built from its configuration. |
| `Kafka.AnyWhiteListed` | datastream-kafka-connector/src/main/java/com/linkedin/datastream/connectors/kafka/KafkaConnector.java:149 | The `anyMatch` over the brokers is true exactly when some broker of the list is whitelisted. |
| `Kafka.AnyWhiteListedIsIntersection` | datastream-kafka-connector/src/main/java/com/linkedin/datastream/connectors/kafka/KafkaConnector.java:149 | That `anyMatch` is true exactly when the whitelist and the set of brokers intersect. |
| `Kafka.IsWhiteListedCluster` | datastream-kafka-connector/src/main/java/com/linkedin/datastream/connectors/kafka/KafkaConnector.java:148-150 | A cluster is admitted exactly when the whitelist is empty or intersects the cluster's brokers (intersection, not subset). |
| `Kafka.WhiteListExamples` | datastream-kafka-connector/src/main/java/com/linkedin/datastream/connectors/kafka/KafkaConnector.java:148-150 | An empty whitelist admits any cluster. `{b1:9092}` admits `[b2:9092, b1:9092]` and rejects `[b2:9092, b3:9092]`. |
| `Kafka.PartitionRange` | datastream-kafka-connector/src/main/java/com/linkedin/datastream/connectors/kafka/KafkaConnector.java:126 | `IntStream.range(0, n)` as a set: exactly the integers `0..n-1`, `n` of them. |
| `Kafka.StartPositionsComplete` | datastream-kafka-connector/src/main/java/com/linkedin/datastream/connectors/kafka/KafkaConnector.java:126-127 | The size test plus the "no index missing" test hold exactly when the map's keys are `{0..n-1}`. Offsets are not examined. |
| `Kafka.CompleteIffKeysArePartitions` | datastream-kafka-connector/src/main/java/com/linkedin/datastream/connectors/kafka/KafkaConnector.java:126-127 | Both directions of that equivalence, through the cardinality argument. |
| `Kafka.StartPositionExamples` | datastream-kafka-connector/src/main/java/com/linkedin/datastream/connectors/kafka/KafkaConnector.java:122-132 | With 3 partitions, `{0,1}` fails, `{0,1,2}` passes and `{0,1,2,3}` fails. |
| `Kafka.KafkaConnector.CheckStartPositions` | datastream-kafka-connector/src/main/java/com/linkedin/datastream/connectors/kafka/KafkaConnector.java:120-133 | Without a start-position entry the check passes. A decoding failure is wrapped as internal. Otherwise it passes exactly when the decoded keys are `{0..n-1}`. When it fails, the error names the stream as it stands and the JSON text. |
| `Kafka.KafkaConnector.ApplySerDeDefaults` | datastream-kafka-connector/src/main/java/com/linkedin/datastream/connectors/kafka/KafkaConnector.java:74-82 | A missing destination stays missing. A set serde is never overwritten. An unset serde becomes the default exactly when the default is not blank. |
| `Kafka.KafkaConnector.ReconcilePartitions` | datastream-kafka-connector/src/main/java/com/linkedin/datastream/connectors/kafka/KafkaConnector.java:98-133 | The lookup stage changes nothing but the partition count. It changes that count only when none was declared. |
| `Kafka.KafkaConnector.Initialize` | datastream-kafka-connector/src/main/java/com/linkedin/datastream/connectors/kafka/KafkaConnector.java:64-140 | The whole check never changes the metadata. It never adds or removes the destination. |
| `Kafka.KafkaConnector.InitializeDatastream` | datastream-kafka-connector/src/main/java/com/linkedin/datastream/connectors/kafka/KafkaConnector.java:64-140 | The in-place steps leave the stream in the state `Initialize` gives and return its outcome. |
| `Kafka.AdmittedIffAdmissible` | datastream-kafka-connector/src/main/java/com/linkedin/datastream/connectors/kafka/KafkaConnector.java:70-133 | A stream is admitted exactly when these all hold: it parses, it has no wildcard, it meets the whitelist, the consumer reports the topic's partitions, any declared count matches, any requested start positions decode with keys `{0..n-1}`, and the consumer closes cleanly. An admitted stream then carries the canonical string, the defaulted serdes and the live count. |
| `Kafka.ParseFailureChangesNothing` | datastream-kafka-connector/src/main/java/com/linkedin/datastream/connectors/kafka/KafkaConnector.java:70-140 | When the parser throws, the stream is untouched and the error is the wrapped internal one. |
| `Kafka.CanonicalStringAndDefaultsWrittenFirst` | datastream-kafka-connector/src/main/java/com/linkedin/datastream/connectors/kafka/KafkaConnector.java:71-82 | Once parsing succeeds, the final stream has the canonical string and the defaulted serdes, whatever the outcome. |
| `Kafka.SerDesNeverOverwritten` | datastream-kafka-connector/src/main/java/com/linkedin/datastream/connectors/kafka/KafkaConnector.java:76-80 | A serde the stream already had is the same afterwards, whatever the outcome. |
| `Kafka.EarlyRejectionSkipsLookup` | datastream-kafka-connector/src/main/java/com/linkedin/datastream/connectors/kafka/KafkaConnector.java:84-100 | Wildcard and whitelist failures do not depend on the consumer, the partition lookup or the decoder. The wildcard check wins when both fail. The message names the caller's original string. The partition count is unchanged. |
| `Kafka.PartitionReconciliation` | datastream-kafka-connector/src/main/java/com/linkedin/datastream/connectors/kafka/KafkaConnector.java:100-118 | A consumer that throws gives a wrapped internal error and keeps the count. A null lookup fails as topic-unavailable and keeps the count. An unset count becomes the live count. A different declared count fails, names both counts, and stays. |
| `Kafka.StartPositionCheck` | datastream-kafka-connector/src/main/java/com/linkedin/datastream/connectors/kafka/KafkaConnector.java:120-133 | After reconciliation, the stream carries the live count. Requested start positions pass exactly when their keys are `{0..n-1}`, and the call then succeeds unless closing the consumer throws. A failure names the stream with the live count already written. A decoding failure is wrapped as internal. |
| `Kafka.InternalErrorsAreWrappedFailures` | datastream-kafka-connector/src/main/java/com/linkedin/datastream/connectors/kafka/KafkaConnector.java:98-140 | An internal error comes only from a wrapped exception of a collaborator: the parser, the consumer (creating it, its lookup, or closing it after a normal run), or the start-position decoder. |
| `Kafka.ReinitializeAdmittedStream` | datastream-kafka-connector/src/main/java/com/linkedin/datastream/connectors/kafka/KafkaConnector.java:70-133 | Suppose the parser reads its canonical string back as the same value. Then checking an admitted stream again admits it and changes nothing. |

## Left out

- Creating the consumer, calling `partitionsFor` and closing the consumer
  (lines 98-100 and 134) are network I/O. Their results are the
  `partitionsFor` and `consumerCloseThrows` parameters. A failure to create
  the consumer and a failure of `partitionsFor` are one case,
  `LookupThrew`. The kind of exception is not modelled.
- `KafkaConnectionString` parsing, printing and `parseBrokers` are not part
  of this model. They are abstract parameters. No parse/print round trip is
  claimed. `ReinitializeAdmittedStream` takes it as a hypothesis.
- A parsed topic name is always a string here. The null-topic branch of
  line 155 cannot arise in the model. The empty-topic branch is modelled.
- `JsonUtils.fromJson` (line 124) is a foreign library. The decoded map is
  the `decodeOffsets` parameter. Offsets are `int`, not 64-bit `Long`, and
  the test never looks at them.
- An exception thrown by `parseBrokers` in the constructor, for a malformed
  whitelist setting, is not modelled. `parseBrokers` is total.
- The texts of the exception messages are not modelled. Each error records
  the values its message names: the original connection string, the
  whitelist, the topic, both partition counts, or the stream (as it stands
  when rejected) with the start-position JSON. An internal error records
  which collaborator failed instead of the exception it wraps.
- `IsJavaWhitespace` lists the characters `Character.isWhitespace` accepts
  in current Unicode versions. Differences between Java versions are not
  modelled.
- The source, destination and datastream are separate objects that the check
  mutates through setters. Aliasing between streams passed in
  `allDatastreams` is not modelled. That argument is unused by this method.
- Logging, `getMetricInfos`, `createKafkaBasedConnectorTask`,
  `postDatastreamInitialize` (it delegates to the group-id constructor,
  which is not part of this model), and the base connector class are left
  out.
- The embedded ZooKeeper/Kafka test cluster and the random Avro record
  generator are test scaffolding around processes and libraries. They are
  left out.
