/** The admission check that the Kafka connector runs on a proposed datastream
    (KafkaConnector.initializeDatastream): canonicalise the source connection
    string, default the destination serdes, reject wildcard topics, enforce the
    broker whitelist, reconcile the partition count with the live topic and
    check that a requested start-position map covers every partition.

    The collaborators whose code is not part of this model are inputs:
    the connection-string parser, the live partition lookup and the JSON
    decoder of the start positions (see Environment). */
module Kafka {
  import opened Wrappers
  import opened Datastreams

  // ---------------------------------------------------------------------------
  // Entities
  // ---------------------------------------------------------------------------

  /** One broker endpoint; equal when host and port are equal. */
  datatype BrokerAddress = BrokerAddress(hostName: string, port: int)

  /** A parsed Kafka connection string: its brokers, its topic and the text
      that the parser prints for it (brokers in the parser's order). */
  datatype ConnectionString = ConnectionString(brokers: seq<BrokerAddress>, topicName: string, canonical: string)

  /** What made an unexpected exception: it is wrapped as a validation error. */
  datatype Cause =
    | MalformedConnectionString(connectionString: string)
    | ConsumerFailure(topicName: string)       // creating the consumer or partitionsFor threw
    | ConsumerCloseFailure(topicName: string)  // closing the consumer threw after a normal run
    | MalformedStartPosition(json: string)

  /** The validation errors initialisation throws, with what each message names. */
  datatype ValidationError =
    | WildcardNotAllowed(connectionString: string)
    | ClusterNotWhiteListed(connectionString: string, whiteListedBrokers: set<BrokerAddress>)
    | TopicUnavailable(topicName: string)
    | PartitionCountMismatch(configured: int, topicName: string, actual: nat)
    | StartPositionIncomplete(stream: StreamState, json: string)
    | Internal(cause: Cause)

  /** Normal return, or the validation exception thrown to the caller. */
  datatype Outcome = Initialized | Rejected(error: ValidationError)

  /** What the partition finder consumer answers for a topic: an exception
      (from creating the consumer or from partitionsFor), a null partition
      list, or a list of count partitions. */
  datatype PartitionLookup = LookupThrew | PartitionInfoNull | PartitionCount(count: nat)

  /** The collaborators of the check:
      - parse: KafkaConnectionString.valueOf; None when it throws;
      - partitionsFor: the consumer's answer for a topic;
      - consumerCloseThrows: whether closing the consumer throws;
      - decodeOffsets: JsonUtils.fromJson of the start positions into a
        partition-to-offset map; None when decoding throws. */
  datatype Environment = Environment(
    parse: string -> Option<ConnectionString>,
    partitionsFor: string -> PartitionLookup,
    consumerCloseThrows: bool,
    decodeOffsets: string -> Option<map<int, int>>)

  const CONFIG_WHITE_LISTED_CLUSTERS: string := "whiteListedClusters"

  /** Metadata key under which a stream requests its start positions. */
  const START_POSITION: string := "system.start.position"

  const SPECIAL_CHARS: string := "*?."

  // ---------------------------------------------------------------------------
  // Wildcard guard
  // ---------------------------------------------------------------------------

  /** Position i (never the first) of topic holds c and the character before
      it is not the escape character. */
  predicate UnescapedAt(topic: string, i: int, c: char) {
    1 <= i < |topic| && topic[i] == c && topic[i - 1] != '\\'
  }

  /** Reference definition of a wildcard topic: some position after the first
      holds one of `*`, `?`, `.` and is not preceded by a backslash. */
  predicate HasUnescapedWildcard(topic: string) {
    exists i :: 1 <= i < |topic| && topic[i] in SPECIAL_CHARS && topic[i - 1] != '\\'
  }

  /** The scan of hasWildCards: for each special character in turn, walk the
      topic from index 1 keeping the previous character, and stop that walk at
      the first unescaped occurrence; the outer walk always goes on. */
  method HasWildCards(connectionStr: ConnectionString) returns (hasWildChar: bool)
    ensures hasWildChar <==> HasUnescapedWildcard(connectionStr.topicName)
  {
    var topicName := connectionStr.topicName;
    if topicName == "" {
      return false;
    }
    hasWildChar := false;
    var specialIndex := 0;
    while specialIndex < |SPECIAL_CHARS|
      invariant 0 <= specialIndex <= |SPECIAL_CHARS|
      invariant hasWildChar <==>
        exists k, i :: 0 <= k < specialIndex && UnescapedAt(topicName, i, SPECIAL_CHARS[k])
    {
      var special := SPECIAL_CHARS[specialIndex];
      var prev := topicName[0];
      var stringIndex := 1;
      ghost var before := hasWildChar;
      while stringIndex < |topicName|
        invariant 1 <= stringIndex <= |topicName|
        invariant prev == topicName[stringIndex - 1]
        invariant forall i :: 1 <= i < stringIndex ==> !UnescapedAt(topicName, i, special)
        invariant hasWildChar == before
      {
        if topicName[stringIndex] == special && prev != '\\' {
          assert UnescapedAt(topicName, stringIndex, SPECIAL_CHARS[specialIndex]);
          hasWildChar := true;
          break;
        }
        prev := topicName[stringIndex];
        stringIndex := stringIndex + 1;
      }
      specialIndex := specialIndex + 1;
    }
    SpecialCharsCovered(topicName);
  }

  /** Scanning the three special characters one by one finds exactly the
      wildcards of the reference definition. */
  lemma SpecialCharsCovered(topic: string)
    ensures (exists k, i :: 0 <= k < |SPECIAL_CHARS| && UnescapedAt(topic, i, SPECIAL_CHARS[k]))
            <==> HasUnescapedWildcard(topic)
  {
    if HasUnescapedWildcard(topic) {
      var i :| 1 <= i < |topic| && topic[i] in SPECIAL_CHARS && topic[i - 1] != '\\';
      var k :| 0 <= k < |SPECIAL_CHARS| && SPECIAL_CHARS[k] == topic[i];
      assert UnescapedAt(topic, i, SPECIAL_CHARS[k]);
    }
  }

  /** A topic of at most one character is never flagged, and a special
      character in the first position is never flagged: the verdict depends
      on the first character only through whether it is a backslash. */
  lemma {:induction false} FirstCharacterOnlyMattersAsEscape(topic: string, x: char)
    requires |topic| >= 1
    requires (topic[0] == '\\') == (x == '\\')
    ensures HasUnescapedWildcard(topic) == HasUnescapedWildcard([x] + topic[1..])
    ensures |topic| == 1 ==> !HasUnescapedWildcard(topic)
  {
    var other := [x] + topic[1..];
    assert |other| == |topic|;
    assert forall i :: 1 <= i < |topic| ==> other[i] == topic[i];
    assert other[0] == '\\' <==> topic[0] == '\\';
    if HasUnescapedWildcard(topic) {
      var i :| 1 <= i < |topic| && topic[i] in SPECIAL_CHARS && topic[i - 1] != '\\';
      assert other[i] in SPECIAL_CHARS && other[i - 1] != '\\';
    }
    if HasUnescapedWildcard(other) {
      var i :| 1 <= i < |other| && other[i] in SPECIAL_CHARS && other[i - 1] != '\\';
      assert topic[i] in SPECIAL_CHARS && topic[i - 1] != '\\';
    }
  }

  /** The guard on sample topics: an unescaped `*` is rejected, an escaped
      one is not, a leading `*` is not, and an escaped `*` does not hide a
      later unescaped `.`. */
  lemma WildcardExamples()
    ensures HasUnescapedWildcard("a*b")
    ensures !HasUnescapedWildcard("a\\*b")
    ensures !HasUnescapedWildcard("")
    ensures !HasUnescapedWildcard("*abc")
    ensures HasUnescapedWildcard("a\\*b.c")
  {
    var plain := "a*b";
    assert plain[1] in SPECIAL_CHARS && plain[0] != '\\';
    var mixed := "a\\*b.c";
    assert mixed[4] in SPECIAL_CHARS && mixed[3] != '\\';
    var escaped := "a\\*b";
    forall i | 1 <= i < |escaped| ensures !(escaped[i] in SPECIAL_CHARS && escaped[i - 1] != '\\') {
      assert escaped[1] == '\\' && escaped[2] == '*' && escaped[3] == 'b';
    }
    var leading := "*abc";
    forall i | 1 <= i < |leading| ensures leading[i] !in SPECIAL_CHARS {
      assert leading[1] == 'a' && leading[2] == 'b' && leading[3] == 'c';
    }
  }

  // ---------------------------------------------------------------------------
  // Broker whitelist
  // ---------------------------------------------------------------------------

  /** The whitelist the constructor builds: the brokers parsed from the
      `whiteListedClusters` setting, or none when the setting is absent. */
  function WhiteListFromConfig(config: map<string, string>, parseBrokers: string -> seq<BrokerAddress>)
    : (whiteList: set<BrokerAddress>)
    ensures CONFIG_WHITE_LISTED_CLUSTERS !in config ==> whiteList == {}
    ensures CONFIG_WHITE_LISTED_CLUSTERS in config ==>
      forall b :: b in whiteList <==> b in parseBrokers(config[CONFIG_WHITE_LISTED_CLUSTERS])
  {
    if CONFIG_WHITE_LISTED_CLUSTERS in config then
      set b | b in parseBrokers(config[CONFIG_WHITE_LISTED_CLUSTERS])
    else
      {}
  }

  /** The stream `anyMatch` over the brokers, one broker at a time. */
  function AnyWhiteListed(whiteListedBrokers: set<BrokerAddress>, brokers: seq<BrokerAddress>): (r: bool)
    ensures r <==> exists i :: 0 <= i < |brokers| && brokers[i] in whiteListedBrokers
  {
    if brokers == [] then false
    else brokers[0] in whiteListedBrokers || AnyWhiteListed(whiteListedBrokers, brokers[1..])
  }

  /** A cluster is admitted when there is no whitelist, or when at least one
      of its brokers is whitelisted (the sets intersect; not all brokers need
      to be listed). */
  function IsWhiteListedCluster(whiteListedBrokers: set<BrokerAddress>, connectionStr: ConnectionString): (r: bool)
    ensures r <==> whiteListedBrokers == {} || whiteListedBrokers * (set b | b in connectionStr.brokers) != {}
  {
    AnyWhiteListedIsIntersection(whiteListedBrokers, connectionStr.brokers);
    whiteListedBrokers == {} || AnyWhiteListed(whiteListedBrokers, connectionStr.brokers)
  }

  lemma AnyWhiteListedIsIntersection(whiteListedBrokers: set<BrokerAddress>, brokers: seq<BrokerAddress>)
    ensures AnyWhiteListed(whiteListedBrokers, brokers) <==> whiteListedBrokers * (set b | b in brokers) != {}
  {
    if AnyWhiteListed(whiteListedBrokers, brokers) {
      var i :| 0 <= i < |brokers| && brokers[i] in whiteListedBrokers;
      assert brokers[i] in whiteListedBrokers * (set b | b in brokers);
    }
  }

  /** The whitelist on sample clusters: an empty whitelist admits anything; a
      whitelist holding b1:9092 admits a cluster that lists b1:9092 among
      others and rejects one that shares no broker with it. */
  lemma WhiteListExamples(anyCluster: ConnectionString)
    ensures IsWhiteListedCluster({}, anyCluster)
    ensures IsWhiteListedCluster({BrokerAddress("b1", 9092)},
      ConnectionString([BrokerAddress("b2", 9092), BrokerAddress("b1", 9092)], "topicA", "b1:9092,b2:9092/topicA"))
    ensures !IsWhiteListedCluster({BrokerAddress("b1", 9092)},
      ConnectionString([BrokerAddress("b2", 9092), BrokerAddress("b3", 9092)], "topicA", "b2:9092,b3:9092/topicA"))
  {
  }

  // ---------------------------------------------------------------------------
  // Start positions
  // ---------------------------------------------------------------------------

  /** The partitions of a topic with n partitions: 0 .. n-1, n of them. */
  function PartitionRange(n: nat): (r: set<int>)
    ensures forall x :: x in r <==> 0 <= x < n
    ensures |r| == n
  {
    if n == 0 then {} else PartitionRange(n - 1) + {n - 1}
  }

  lemma SubsetOfSameSize<T>(a: set<T>, b: set<T>)
    requires a <= b && |a| == |b|
    ensures a == b
  {
    assert b == a + (b - a);
    assert a * (b - a) == {};
  }

  /** The completeness test of initializeDatastream: as many entries as partitions and
      no partition index missing. It holds exactly when the keys are the
      partitions 0 .. n-1; the offsets themselves are not looked at. */
  function StartPositionsComplete(offsetMap: map<int, int>, numPartitions: nat): (r: bool)
    ensures r <==> offsetMap.Keys == PartitionRange(numPartitions)
  {
    CompleteIffKeysArePartitions(offsetMap, numPartitions);
    |offsetMap| == numPartitions && !(exists x :: 0 <= x < numPartitions && x !in offsetMap)
  }

  lemma CompleteIffKeysArePartitions(offsetMap: map<int, int>, numPartitions: nat)
    ensures (|offsetMap| == numPartitions && !(exists x :: 0 <= x < numPartitions && x !in offsetMap))
            <==> offsetMap.Keys == PartitionRange(numPartitions)
  {
    assert |offsetMap.Keys| == |offsetMap|;
    if |offsetMap| == numPartitions && !(exists x :: 0 <= x < numPartitions && x !in offsetMap) {
      assert PartitionRange(numPartitions) <= offsetMap.Keys;
      SubsetOfSameSize(PartitionRange(numPartitions), offsetMap.Keys);
    }
  }

  /** The completeness test on sample maps for a topic with three
      partitions: missing partition 2 fails, all three pass, and an extra
      partition fails even though 0, 1 and 2 are all present. */
  lemma StartPositionExamples()
    ensures !StartPositionsComplete(map[0 := 1, 1 := 2], 3)
    ensures StartPositionsComplete(map[0 := 1, 1 := 2, 2 := 9], 3)
    ensures !StartPositionsComplete(map[0 := 1, 1 := 2, 2 := 9, 3 := 4], 3)
  {
  }

  // ---------------------------------------------------------------------------
  // Serde defaults
  // ---------------------------------------------------------------------------

  /** Character.isWhitespace: the Unicode space, line and paragraph
      separators other than the non-breaking ones, and the ASCII controls
      tab, line feed, vertical tab, form feed, carriage return and the four
      information separators. */
  predicate IsJavaWhitespace(ch: char) {
    ch in " \t\n\U{000B}\U{000C}\r\U{001C}\U{001D}\U{001E}\U{001F}\U{1680}\U{2000}\U{2001}\U{2002}\U{2003}\U{2004}\U{2005}\U{2006}\U{2008}\U{2009}\U{200A}\U{2028}\U{2029}\U{205F}\U{3000}"
  }

  /** StringUtils.isBlank: null, empty or whitespace only. */
  predicate IsBlank(s: Option<string>) {
    s.None? || forall i :: 0 <= i < |s.value| ==> IsJavaWhitespace(s.value[i])
  }

  /** A serde that is set stays; an unset one takes the default unless the
      default is blank. */
  function DefaultSerDe(current: Option<string>, default: Option<string>): (serDe: Option<string>) {
    if current.None? && !IsBlank(default) then default else current
  }

  // ---------------------------------------------------------------------------
  // The connector
  // ---------------------------------------------------------------------------

  class KafkaConnector {
    const whiteListedBrokers: set<BrokerAddress>
    const defaultKeySerde: Option<string>
    const defaultValueSerde: Option<string>

    /** Builds the whitelist from the connector's configuration; the default
        serdes come from the connector's base configuration. */
    constructor (config: map<string, string>, parseBrokers: string -> seq<BrokerAddress>,
                 defaultKeySerde: Option<string>, defaultValueSerde: Option<string>)
      ensures whiteListedBrokers == WhiteListFromConfig(config, parseBrokers)
      ensures this.defaultKeySerde == defaultKeySerde && this.defaultValueSerde == defaultValueSerde
    {
      whiteListedBrokers := WhiteListFromConfig(config, parseBrokers);
      this.defaultKeySerde := defaultKeySerde;
      this.defaultValueSerde := defaultValueSerde;
    }

    /** The destination after the serde defaults are applied: a stream
        without destination is left alone, a serde already set is never
        overwritten, and an unset serde takes a non-blank default. */
    function ApplySerDeDefaults(destination: Option<DestinationState>): (r: Option<DestinationState>)
      ensures r.Some? == destination.Some?
      ensures destination.Some? && destination.value.keySerDe.Some? ==>
                r.value.keySerDe == destination.value.keySerDe
      ensures destination.Some? && destination.value.payloadSerDe.Some? ==>
                r.value.payloadSerDe == destination.value.payloadSerDe
      ensures destination.Some? && destination.value.keySerDe.None? ==>
                r.value.keySerDe == (if IsBlank(defaultKeySerde) then None else defaultKeySerde)
      ensures destination.Some? && destination.value.payloadSerDe.None? ==>
                r.value.payloadSerDe == (if IsBlank(defaultValueSerde) then None else defaultValueSerde)
    {
      match destination
      case None => None
      case Some(d) =>
        Some(DestinationState(DefaultSerDe(d.keySerDe, defaultKeySerde),
                              DefaultSerDe(d.payloadSerDe, defaultValueSerde)))
    }

    /** The start-position check on stream s whose topic has numPartitions
        partitions: it runs only when the stream requests start positions,
        wraps a decoding failure as an internal error, and otherwise passes
        exactly when the requested partitions are 0 .. numPartitions-1. The
        rejection names the stream as it stands and the JSON text. */
    static function CheckStartPositions(s: StreamState, numPartitions: nat,
                                        decodeOffsets: string -> Option<map<int, int>>): (r: Outcome)
      ensures START_POSITION !in s.metadata ==> r == Initialized
      ensures START_POSITION in s.metadata && decodeOffsets(s.metadata[START_POSITION]).None? ==>
                r == Rejected(Internal(MalformedStartPosition(s.metadata[START_POSITION])))
      ensures START_POSITION in s.metadata && decodeOffsets(s.metadata[START_POSITION]).Some? ==>
                && (r == Initialized <==>
                      decodeOffsets(s.metadata[START_POSITION]).value.Keys == PartitionRange(numPartitions))
                && (r != Initialized ==> r == Rejected(StartPositionIncomplete(s, s.metadata[START_POSITION])))
    {
      if START_POSITION !in s.metadata then Initialized
      else
        var json := s.metadata[START_POSITION];
        match decodeOffsets(json)
        case None => Rejected(Internal(MalformedStartPosition(json)))
        case Some(offsetMap) =>
          if StartPositionsComplete(offsetMap, numPartitions) then Initialized
          else Rejected(StartPositionIncomplete(s, json))
    }

    /** The part of the check that runs with the consumer open: the live
        partition lookup, the partition-count reconciliation and the
        start-position check. Only the partition count may change. The
        consumer is closed on every exit; an exception from closing it
        surfaces only when the body ended normally (otherwise it is
        suppressed behind the body's exception). */
    static function ReconcilePartitions(s: StreamState, topicName: string, env: Environment)
      : (r: (StreamState, Outcome))
      ensures r.0 == s.(partitions := r.0.partitions)
      ensures r.0.partitions == s.partitions || s.partitions.None?
    {
      match env.partitionsFor(topicName)
      case LookupThrew => (s, Rejected(Internal(ConsumerFailure(topicName))))
      case PartitionInfoNull => (s, Rejected(TopicUnavailable(topicName)))
      case PartitionCount(numPartitions) =>
        if s.partitions.Some? && s.partitions.value != numPartitions then
          (s, Rejected(PartitionCountMismatch(s.partitions.value, topicName, numPartitions)))
        else
          var counted := s.(partitions := Some(numPartitions));
          var checked := CheckStartPositions(counted, numPartitions, env.decodeOffsets);
          if checked == Initialized && env.consumerCloseThrows then
            (counted, Rejected(Internal(ConsumerCloseFailure(topicName))))
          else
            (counted, checked)
    }

    /** The whole check as a function of the stream's state before the call:
        the state the stream is left in, and how the call ends. The
        connection string is rewritten and the serde defaults applied before
        any check, so a rejected stream may carry them. */
    function Initialize(s: StreamState, env: Environment): (r: (StreamState, Outcome))
      ensures r.0.metadata == s.metadata
      ensures r.0.destination.Some? == s.destination.Some?
    {
      match env.parse(s.connectionString)
      case None => (s, Rejected(Internal(MalformedConnectionString(s.connectionString))))
      case Some(parsed) =>
        var prepared := s.(connectionString := parsed.canonical,
                           destination := ApplySerDeDefaults(s.destination));
        if HasUnescapedWildcard(parsed.topicName) then
          (prepared, Rejected(WildcardNotAllowed(s.connectionString)))
        else if !IsWhiteListedCluster(whiteListedBrokers, parsed) then
          (prepared, Rejected(ClusterNotWhiteListed(s.connectionString, whiteListedBrokers)))
        else
          ReconcilePartitions(prepared, parsed.topicName, env)
    }

    /** initializeDatastream: checks the stream and updates it in place, step
        by step, in the order initializeDatastream does. */
    method InitializeDatastream(stream: Datastream, env: Environment) returns (r: Outcome)
      modifies stream.source, stream.destination
      ensures (stream.State(), r) == Initialize(old(stream.State()), env)
    {
      var source := stream.source;
      var connectionString := source.connectionString;
      var parsedOrNull := env.parse(connectionString);
      if parsedOrNull.None? {
        return Rejected(Internal(MalformedConnectionString(connectionString)));
      }
      var parsed := parsedOrNull.value;
      source.connectionString := parsed.canonical;

      if stream.destination != null {
        if stream.destination.keySerDe.None? && !IsBlank(defaultKeySerde) {
          stream.destination.keySerDe := defaultKeySerde;
        }
        if stream.destination.payloadSerDe.None? && !IsBlank(defaultValueSerde) {
          stream.destination.payloadSerDe := defaultValueSerde;
        }
      }

      var wildcard := HasWildCards(parsed);
      if wildcard {
        return Rejected(WildcardNotAllowed(connectionString));
      }
      if !IsWhiteListedCluster(whiteListedBrokers, parsed) {
        return Rejected(ClusterNotWhiteListed(connectionString, whiteListedBrokers));
      }

      var partitionInfos := env.partitionsFor(parsed.topicName);
      if partitionInfos.LookupThrew? {
        return Rejected(Internal(ConsumerFailure(parsed.topicName)));
      }
      if partitionInfos.PartitionInfoNull? {
        return Rejected(TopicUnavailable(parsed.topicName));
      }
      var numPartitions := partitionInfos.count;
      if source.partitions.None? {
        source.partitions := Some(numPartitions);
      } else if source.partitions.value != numPartitions {
        return Rejected(PartitionCountMismatch(source.partitions.value, parsed.topicName, numPartitions));
      }

      if START_POSITION in stream.metadata {
        var json := stream.metadata[START_POSITION];
        var offsetMap := env.decodeOffsets(json);
        if offsetMap.None? {
          return Rejected(Internal(MalformedStartPosition(json)));
        }
        if !StartPositionsComplete(offsetMap.value, numPartitions) {
          return Rejected(StartPositionIncomplete(stream.State(), json));
        }
      }
      // leaving the try-with-resources block closes the consumer
      if env.consumerCloseThrows {
        return Rejected(Internal(ConsumerCloseFailure(parsed.topicName)));
      }
      return Initialized;
    }
  }

  // ---------------------------------------------------------------------------
  // Properties of the check
  // ---------------------------------------------------------------------------

  /** Independent statement of when a stream is admitted: the connection
      string parses, its topic has no wildcard, one of its brokers is
      whitelisted (or there is no whitelist), the consumer reports the
      topic's partitions, a declared partition count equals the live one,
      requested start positions decode to a map whose keys are exactly the
      partitions, and the consumer closes cleanly. */
  ghost predicate Admissible(c: KafkaConnector, s: StreamState, env: Environment) {
    match env.parse(s.connectionString)
    case None => false
    case Some(p) =>
      && !(exists i :: 1 <= i < |p.topicName| && p.topicName[i] in SPECIAL_CHARS && p.topicName[i - 1] != '\\')
      && (c.whiteListedBrokers == {} || exists b :: b in p.brokers && b in c.whiteListedBrokers)
      && env.partitionsFor(p.topicName).PartitionCount?
      && (s.partitions.None? || s.partitions.value == env.partitionsFor(p.topicName).count)
      && (START_POSITION in s.metadata ==>
            && env.decodeOffsets(s.metadata[START_POSITION]).Some?
            && env.decodeOffsets(s.metadata[START_POSITION]).value.Keys
               == PartitionRange(env.partitionsFor(p.topicName).count))
      && !env.consumerCloseThrows
  }

  /** A stream is admitted exactly when it is admissible, and then it carries
      the canonical connection string, the defaulted serdes and the live
      partition count, and nothing else about it changes. */
  lemma AdmittedIffAdmissible(c: KafkaConnector, s: StreamState, env: Environment)
    ensures c.Initialize(s, env).1 == Initialized <==> Admissible(c, s, env)
    ensures c.Initialize(s, env).1 == Initialized ==>
      var p := env.parse(s.connectionString).value;
      c.Initialize(s, env).0 == s.(connectionString := p.canonical,
                                   destination := c.ApplySerDeDefaults(s.destination),
                                   partitions := Some(env.partitionsFor(p.topicName).count))
  {
  }

  /** When the parser throws, the stream is untouched and the failure is
      wrapped as an internal validation error. */
  lemma ParseFailureChangesNothing(c: KafkaConnector, s: StreamState, env: Environment)
    requires env.parse(s.connectionString).None?
    ensures c.Initialize(s, env) == (s, Rejected(Internal(MalformedConnectionString(s.connectionString))))
  {
  }

  /** Once the connection string parses, the canonical string and the serde
      defaults are in the stream's final state, however the check ends. */
  lemma CanonicalStringAndDefaultsWrittenFirst(c: KafkaConnector, s: StreamState, env: Environment)
    requires env.parse(s.connectionString).Some?
    ensures c.Initialize(s, env).0.connectionString == env.parse(s.connectionString).value.canonical
    ensures c.Initialize(s, env).0.destination == c.ApplySerDeDefaults(s.destination)
  {
  }

  /** A serde the stream already has is never overwritten, whatever the
      outcome. */
  lemma SerDesNeverOverwritten(c: KafkaConnector, s: StreamState, env: Environment)
    requires s.destination.Some?
    ensures s.destination.value.keySerDe.Some? ==>
      c.Initialize(s, env).0.destination.value.keySerDe == s.destination.value.keySerDe
    ensures s.destination.value.payloadSerDe.Some? ==>
      c.Initialize(s, env).0.destination.value.payloadSerDe == s.destination.value.payloadSerDe
  {
  }

  /** A wildcard topic or a cluster off the whitelist is rejected before the
      consumer is created: the outcome does not depend on the lookup, the
      consumer or the decoder, the wildcard check comes first, both messages
      name the connection string as the caller gave it, and the partition
      count is untouched. */
  lemma EarlyRejectionSkipsLookup(c: KafkaConnector, s: StreamState, env: Environment, env': Environment)
    requires env.parse(s.connectionString).Some?
    requires env'.parse(s.connectionString) == env.parse(s.connectionString)
    requires var p := env.parse(s.connectionString).value;
      HasUnescapedWildcard(p.topicName) || !IsWhiteListedCluster(c.whiteListedBrokers, p)
    ensures c.Initialize(s, env) == c.Initialize(s, env')
    ensures c.Initialize(s, env).0.partitions == s.partitions
    ensures c.Initialize(s, env).1 ==
      if HasUnescapedWildcard(env.parse(s.connectionString).value.topicName)
      then Rejected(WildcardNotAllowed(s.connectionString))
      else Rejected(ClusterNotWhiteListed(s.connectionString, c.whiteListedBrokers))
  {
  }

  /** Partition reconciliation, once the topic passed the wildcard and
      whitelist checks: a consumer that throws is wrapped as an internal
      error and a null lookup fails, both leaving the count alone; an
      undeclared count becomes the live count; a declared count that differs
      from the live count fails, names both counts and stays as declared. */
  lemma PartitionReconciliation(c: KafkaConnector, s: StreamState, env: Environment)
    requires env.parse(s.connectionString).Some?
    requires var p := env.parse(s.connectionString).value;
      !HasUnescapedWildcard(p.topicName) && IsWhiteListedCluster(c.whiteListedBrokers, p)
    ensures var p := env.parse(s.connectionString).value;
      env.partitionsFor(p.topicName).LookupThrew? ==>
        c.Initialize(s, env).1 == Rejected(Internal(ConsumerFailure(p.topicName)))
        && c.Initialize(s, env).0.partitions == s.partitions
    ensures var p := env.parse(s.connectionString).value;
      env.partitionsFor(p.topicName).PartitionInfoNull? ==>
        c.Initialize(s, env).1 == Rejected(TopicUnavailable(p.topicName))
        && c.Initialize(s, env).0.partitions == s.partitions
    ensures var p := env.parse(s.connectionString).value;
      env.partitionsFor(p.topicName).PartitionCount? && s.partitions.None? ==>
        c.Initialize(s, env).0.partitions == Some(env.partitionsFor(p.topicName).count)
    ensures var p := env.parse(s.connectionString).value;
      env.partitionsFor(p.topicName).PartitionCount? && s.partitions.Some?
      && s.partitions.value != env.partitionsFor(p.topicName).count ==>
        c.Initialize(s, env).1 == Rejected(PartitionCountMismatch(s.partitions.value, p.topicName,
                                                                  env.partitionsFor(p.topicName).count))
        && c.Initialize(s, env).0.partitions == s.partitions
  {
  }

  /** With the partitions reconciled, requested start positions pass exactly
      when their keys are the partitions 0 .. n-1 (the call then ends
      normally unless closing the consumer throws); the rejection names the
      stream as it is left, already carrying the live count; a decoder
      failure is wrapped as an internal error. */
  lemma StartPositionCheck(c: KafkaConnector, s: StreamState, env: Environment)
    requires env.parse(s.connectionString).Some?
    requires var p := env.parse(s.connectionString).value;
      && !HasUnescapedWildcard(p.topicName) && IsWhiteListedCluster(c.whiteListedBrokers, p)
      && env.partitionsFor(p.topicName).PartitionCount?
      && (s.partitions.None? || s.partitions.value == env.partitionsFor(p.topicName).count)
    requires START_POSITION in s.metadata
    ensures var json := s.metadata[START_POSITION];
      var topicName := env.parse(s.connectionString).value.topicName;
      var n := env.partitionsFor(topicName).count;
      && c.Initialize(s, env).0.partitions == Some(n)
      && c.Initialize(s, env).1 ==
        match env.decodeOffsets(json)
        case None => Rejected(Internal(MalformedStartPosition(json)))
        case Some(offsetMap) =>
          if offsetMap.Keys != PartitionRange(n) then
            Rejected(StartPositionIncomplete(c.Initialize(s, env).0, json))
          else if env.consumerCloseThrows then
            Rejected(Internal(ConsumerCloseFailure(topicName)))
          else
            Initialized
  {
  }

  /** The only internal errors are wrapped exceptions of the collaborators:
      the parser, the consumer (creating it, its lookup, closing it) and the
      start-position decoder. */
  lemma InternalErrorsAreWrappedFailures(c: KafkaConnector, s: StreamState, env: Environment)
    requires c.Initialize(s, env).1.Rejected? && c.Initialize(s, env).1.error.Internal?
    ensures env.parse(s.connectionString).None?
            || env.partitionsFor(env.parse(s.connectionString).value.topicName).LookupThrew?
            || (START_POSITION in s.metadata && env.decodeOffsets(s.metadata[START_POSITION]).None?)
            || env.consumerCloseThrows
  {
  }

  /** Checking an admitted stream again admits it again and changes nothing,
      provided the parser reads its own canonical string back as the same
      connection string. */
  lemma ReinitializeAdmittedStream(c: KafkaConnector, s: StreamState, env: Environment)
    requires c.Initialize(s, env).1 == Initialized
    requires env.parse(s.connectionString).Some?
    requires var p := env.parse(s.connectionString).value; env.parse(p.canonical) == Some(p)
    ensures c.Initialize(c.Initialize(s, env).0, env) == (c.Initialize(s, env).0, Initialized)
  {
  }
}
