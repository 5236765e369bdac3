/** What requests and responses carry, apart from how it is written on the wire. */
module Messages {
  import opened Bytes

  /** A topic name with its partitions. */
  datatype Topic<+P> = Topic(name: bytes, parts: seq<P>)

  datatype ProducePart = ProducePart(partition: int32, batch: bytes)
  datatype FetchPart = FetchPart(partition: int32, fetchOffset: int64, maxBytes: int32)
  datatype ListPart = ListPart(partition: int32, timestamp: int64)
  datatype CommitPart = CommitPart(partition: int32, offset: int64, metadata: bytes)
  datatype Named = Named(name: bytes, data: bytes)

  datatype Body =
    | Produce(acks: int16, timeoutMs: int32, batches: seq<Topic<ProducePart>>)
    | Fetch(replica: int32, maxWaitMs: int32, minBytes: int32, maxBytes: int32, isolation: int8,
        fetches: seq<Topic<FetchPart>>)
    | ListOffsets(replica: int32, lists: seq<Topic<ListPart>>)
    | Metadata(topics: seq<bytes>)
    | OffsetCommit(group: bytes, generation: int32, member: bytes, retentionMs: int64, commits: seq<Topic<CommitPart>>)
    | OffsetFetch(group: bytes, queries: seq<Topic<int32>>)
    | FindCoordinator(key: bytes)
    | JoinGroup(group: bytes, sessionMs: int32, rebalanceMs: int32, member: bytes, protocolType: bytes,
        protocols: seq<Named>)
    | Heartbeat(group: bytes, generation: int32, member: bytes)
    | LeaveGroup(group: bytes, member: bytes)
    | SyncGroup(group: bytes, generation: int32, member: bytes, assignments: seq<Named>)
    | ApiVersions

  datatype Request = Request(size: int32, version: int16, correlation: int32, client: bytes, body: Body)
}
