/** The stream definition that the connector checks and annotates in place:
    a datastream with its source (connection string, optional partition count),
    its optional destination (optional key and payload serdes) and its
    metadata. */
module Datastreams {
  import opened Wrappers

  /** The abstract value of a destination: which serdes are set. */
  datatype DestinationState = DestinationState(keySerDe: Option<string>, payloadSerDe: Option<string>)

  /** The abstract value of a whole datastream, as the connector sees it. */
  datatype StreamState = StreamState(
    connectionString: string,
    partitions: Option<int>,              // None: the source has no partition count yet
    destination: Option<DestinationState>, // None: the stream has no destination
    metadata: map<string, string>)

  class DatastreamSource {
    var connectionString: string
    var partitions: Option<int>

    constructor (connectionString: string, partitions: Option<int>)
      ensures this.connectionString == connectionString && this.partitions == partitions
    {
      this.connectionString := connectionString;
      this.partitions := partitions;
    }
  }

  class DatastreamDestination {
    var keySerDe: Option<string>
    var payloadSerDe: Option<string>

    constructor (keySerDe: Option<string>, payloadSerDe: Option<string>)
      ensures this.keySerDe == keySerDe && this.payloadSerDe == payloadSerDe
    {
      this.keySerDe := keySerDe;
      this.payloadSerDe := payloadSerDe;
    }
  }

  class Datastream {
    const source: DatastreamSource
    const destination: DatastreamDestination?  // null: the stream has no destination
    var metadata: map<string, string>

    constructor (source: DatastreamSource, destination: DatastreamDestination?, metadata: map<string, string>)
      ensures this.source == source && this.destination == destination && this.metadata == metadata
    {
      this.source := source;
      this.destination := destination;
      this.metadata := metadata;
    }

    /** The abstract value of this datastream and the objects it owns. */
    function State(): StreamState
      reads this, source, destination
    {
      StreamState(
        source.connectionString,
        source.partitions,
        if destination == null then None
        else Some(DestinationState(destination.keySerDe, destination.payloadSerDe)),
        metadata)
    }
  }
}
