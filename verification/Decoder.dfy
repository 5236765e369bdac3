/** The decoder as the broker runs it: a cursor on the connection that every read moves forward. */
module Decoder {
  import opened Bytes
  import opened Messages
  import opened Wire
  import opened Requests

  /** How one decoder call ends. */
  datatype Reply<+T> = Value(value: T) | Error | Panic {
    predicate IsFailure() {
      !Value?
    }

    function PropagateFailure<U>(): Reply<U>
      requires IsFailure()
    {
      if Error? then Error else Panic
    }

    function Extract(): T
      requires Value?
    {
      value
    }
  }

  /** The call did what the stream function says: its value, and the cursor where the rest begins. */
  ghost predicate Follows<T>(p: Parsed<T>, r: Reply<T>, input: bytes) {
    match p
    case Got(v, rest) => r == Value(v) && input == rest
    case Failed => r == Error
    case Panicked => r == Panic
  }

  class Decoder {
    /** The bytes of the connection not read yet. */
    var input: bytes

    constructor (conn: bytes)
      ensures input == conn
    {
      input := conn;
    }

    method ReadI8() returns (r: Reply<int8>)
      modifies this
      ensures Follows(ReadInt8(old(input)), r, input)
      ensures |input| <= |old(input)|
    {
      if |input| < 1 {
        return Error;
      }
      r := Value(ToInt8(Get(input[..1])));
      input := input[1..];
    }

    method ReadI16() returns (r: Reply<int16>)
      modifies this
      ensures Follows(ReadInt16(old(input)), r, input)
      ensures |input| <= |old(input)|
    {
      hide GetU16;
      if |input| < 2 {
        return Error;
      }
      r := Value(ToInt16(GetU16(input[..2])));
      input := input[2..];
    }

    method ReadI32() returns (r: Reply<int32>)
      modifies this
      ensures Follows(ReadInt32(old(input)), r, input)
      ensures |input| <= |old(input)|
    {
      hide GetU32;
      if |input| < 4 {
        return Error;
      }
      r := Value(ToInt32(GetU32(input[..4])));
      input := input[4..];
    }

    method ReadI64() returns (r: Reply<int64>)
      modifies this
      ensures Follows(ReadInt64(old(input)), r, input)
      ensures |input| <= |old(input)|
    {
      hide GetU64;
      if |input| < 8 {
        return Error;
      }
      r := Value(ToInt64(GetU64(input[..8])));
      input := input[8..];
    }

    method ReadN(n: int) returns (r: Reply<bytes>)
      modifies this
      ensures Follows(ReadBytes(n, old(input)), r, input)
      ensures |input| <= |old(input)|
    {
      if n <= 0 {
        return Value([]);
      }
      if |input| < n {
        return Error;
      }
      r := Value(input[..n]);
      input := input[n..];
    }

    method ReadStr() returns (r: Reply<bytes>)
      modifies this
      ensures Follows(ReadString(old(input)), r, input)
      ensures |input| <= |old(input)|
    {
      hide ReadInt16, ReadBytes;
      var length :- ReadI16();
      r := ReadN(length);
    }

    // ---------------------------------------------------------------- produce

    method ParseProduceRequest(version: int16) returns (r: Reply<Body>)
      modifies this
      ensures Follows(ReadProduce(version, old(input)), r, input)
      ensures |input| <= |old(input)|
    {
      hide ReadInt16, ReadInt32, ReadBytes, ReadString, ReadTopics;
      SkipTxnIs(version, input);
      if version >= 3 {
        var txnLen :- ReadI16();
        if txnLen > 0 {
          var _ :- ReadN(txnLen);
        }
      }
      var acks :- ReadI16();
      var timeoutMs :- ReadI32();
      var topics :- ParseProduceTopics();
      r := Value(Produce(acks, timeoutMs, topics));
    }

    method ParseProduceTopics() returns (r: Reply<seq<Topic<ProducePart>>>)
      modifies this
      ensures Follows(ReadTopics(Checked, ReadProducePart, old(input)), r, input)
      ensures |input| <= |old(input)|
    {
      hide Many, ReadInt32, ReadString, ReadArray, ReadProducePart;
      ghost var p := TopicReader(Checked, ReadProducePart);
      ArrayIs(Checked, p, input);
      var topicCount :- ReadI32();
      if topicCount < 0 || topicCount > MAX_COUNT {
        return Error;
      }
      ghost var s1 := input;
      var topics := [];
      for i := 0 to topicCount
        invariant Many(topicCount, p, [], s1) == Many(topicCount - i, p, topics, input)
        invariant |input| <= |old(input)|
      {
        ManyIs(topicCount - i, p, topics, input);
        var topicName :- ReadStr();
        var partitions :- ParseProducePartitions();
        topics := topics + [Topic(topicName, partitions)];
      }
      ManyIs(0, p, topics, input);
      r := Value(topics);
    }

    method ParseProducePartitions() returns (r: Reply<seq<ProducePart>>)
      modifies this
      ensures Follows(ReadArray(Checked, ReadProducePart, old(input)), r, input)
      ensures |input| <= |old(input)|
    {
      hide Many, ReadInt32, ReadBytes;
      ghost var s0 := input;
      var partCount :- ReadI32();
      if partCount < 0 || partCount > MAX_COUNT {
        return Error;
      }
      ghost var s1 := input;
      var partitions := [];
      for j := 0 to partCount
        invariant Many(partCount, ReadProducePart, [], s1) == Many(partCount - j, ReadProducePart, partitions, input)
        invariant |input| <= |old(input)|
      {
        ManyIs(partCount - j, ReadProducePart, partitions, input);
        var partition :- ReadI32();
        var batchSize :- ReadI32();
        if batchSize < 0 {
          return Error;
        }
        var batch :- ReadN(batchSize);
        partitions := partitions + [ProducePart(partition, batch)];
      }
      ManyIs(0, ReadProducePart, partitions, input);
      r := Value(partitions);
    }

    // ------------------------------------------------------------------ fetch

    method ParseFetchRequest() returns (r: Reply<Body>)
      modifies this
      ensures Follows(ReadFetch(old(input)), r, input)
      ensures |input| <= |old(input)|
    {
      hide ReadInt32, ReadInt8, ReadTopics;
      var replica :- ReadI32();
      var maxWaitMs :- ReadI32();
      var minBytes :- ReadI32();
      var maxBytes :- ReadI32();
      var isolation :- ReadI8();
      var topics :- ParseFetchTopics();
      r := Value(Fetch(replica, maxWaitMs, minBytes, maxBytes, isolation, topics));
    }

    method ParseFetchTopics() returns (r: Reply<seq<Topic<FetchPart>>>)
      modifies this
      ensures Follows(ReadTopics(Unchecked, ReadFetchPart, old(input)), r, input)
      ensures |input| <= |old(input)|
    {
      hide Many, ReadInt32, ReadString, ReadArray, ReadFetchPart;
      ghost var p := TopicReader(Unchecked, ReadFetchPart);
      ArrayIs(Unchecked, p, input);
      var topicCount :- ReadI32();
      if topicCount < 0 {
        return Panic;
      }
      ghost var s1 := input;
      var topics := [];
      for i := 0 to topicCount
        invariant Many(topicCount, p, [], s1) == Many(topicCount - i, p, topics, input)
        invariant |input| <= |old(input)|
      {
        ManyIs(topicCount - i, p, topics, input);
        var topicName :- ReadStr();
        var partitions :- ParseFetchPartitions();
        topics := topics + [Topic(topicName, partitions)];
      }
      ManyIs(0, p, topics, input);
      r := Value(topics);
    }

    method ParseFetchPartitions() returns (r: Reply<seq<FetchPart>>)
      modifies this
      ensures Follows(ReadArray(Unchecked, ReadFetchPart, old(input)), r, input)
      ensures |input| <= |old(input)|
    {
      hide Many, ReadInt32, ReadInt64;
      var partCount :- ReadI32();
      if partCount < 0 {
        return Panic;
      }
      ghost var s1 := input;
      var partitions := [];
      for j := 0 to partCount
        invariant Many(partCount, ReadFetchPart, [], s1) == Many(partCount - j, ReadFetchPart, partitions, input)
        invariant |input| <= |old(input)|
      {
        ManyIs(partCount - j, ReadFetchPart, partitions, input);
        var partition :- ReadI32();
        var fetchOffset :- ReadI64();
        var maxBytes :- ReadI32();
        partitions := partitions + [FetchPart(partition, fetchOffset, maxBytes)];
      }
      ManyIs(0, ReadFetchPart, partitions, input);
      r := Value(partitions);
    }

    // ---------------------------------------------------------- offset commit

    method ParseOffsetCommitRequest() returns (r: Reply<Body>)
      modifies this
      ensures Follows(ReadOffsetCommit(old(input)), r, input)
      ensures |input| <= |old(input)|
    {
      hide ReadInt32, ReadInt64, ReadString, ReadTopics;
      var groupID :- ReadStr();
      var generationID :- ReadI32();
      var memberID :- ReadStr();
      var retentionTimeMs :- ReadI64();
      var topics :- ParseCommitTopics();
      r := Value(OffsetCommit(groupID, generationID, memberID, retentionTimeMs, topics));
    }

    method ParseCommitTopics() returns (r: Reply<seq<Topic<CommitPart>>>)
      modifies this
      ensures Follows(ReadTopics(Unchecked, ReadCommitPart, old(input)), r, input)
      ensures |input| <= |old(input)|
    {
      hide Many, ReadInt32, ReadString, ReadArray, ReadCommitPart;
      ghost var p := TopicReader(Unchecked, ReadCommitPart);
      ArrayIs(Unchecked, p, input);
      var topicCount :- ReadI32();
      if topicCount < 0 {
        return Panic;
      }
      ghost var s1 := input;
      var topics := [];
      for i := 0 to topicCount
        invariant Many(topicCount, p, [], s1) == Many(topicCount - i, p, topics, input)
        invariant |input| <= |old(input)|
      {
        ManyIs(topicCount - i, p, topics, input);
        var topicName :- ReadStr();
        var partitions :- ParseCommitPartitions();
        topics := topics + [Topic(topicName, partitions)];
      }
      ManyIs(0, p, topics, input);
      r := Value(topics);
    }

    method ParseCommitPartitions() returns (r: Reply<seq<CommitPart>>)
      modifies this
      ensures Follows(ReadArray(Unchecked, ReadCommitPart, old(input)), r, input)
      ensures |input| <= |old(input)|
    {
      hide Many, ReadInt32, ReadInt64, ReadString;
      var partCount :- ReadI32();
      if partCount < 0 {
        return Panic;
      }
      ghost var s1 := input;
      var partitions := [];
      for j := 0 to partCount
        invariant Many(partCount, ReadCommitPart, [], s1) == Many(partCount - j, ReadCommitPart, partitions, input)
        invariant |input| <= |old(input)|
      {
        ManyIs(partCount - j, ReadCommitPart, partitions, input);
        var partition :- ReadI32();
        var offset :- ReadI64();
        var metadata :- ReadStr();
        partitions := partitions + [CommitPart(partition, offset, metadata)];
      }
      ManyIs(0, ReadCommitPart, partitions, input);
      r := Value(partitions);
    }

    // -------------------------------------------------------------- join group

    method ParseJoinGroupRequest() returns (r: Reply<Body>)
      modifies this
      ensures Follows(ReadJoinGroup(old(input)), r, input)
      ensures |input| <= |old(input)|
    {
      hide ReadInt32, ReadString, ReadArray;
      var groupID :- ReadStr();
      var sessionTimeoutMs :- ReadI32();
      var rebalanceTimeoutMs :- ReadI32();
      var memberID :- ReadStr();
      var protocolType :- ReadStr();
      var protocols :- ParseNamedBlocks();
      r := Value(JoinGroup(groupID, sessionTimeoutMs, rebalanceTimeoutMs, memberID, protocolType, protocols));
    }

    /** The array of names with byte blocks, shared by JoinGroup and SyncGroup. */
    method ParseNamedBlocks() returns (r: Reply<seq<Named>>)
      modifies this
      ensures Follows(ReadArray(Unchecked, ReadNamed, old(input)), r, input)
      ensures |input| <= |old(input)|
    {
      hide Many, ReadInt32, ReadString, ReadBytes;
      var count :- ReadI32();
      if count < 0 {
        return Panic;
      }
      ghost var s1 := input;
      var out := [];
      for i := 0 to count
        invariant Many(count, ReadNamed, [], s1) == Many(count - i, ReadNamed, out, input)
        invariant |input| <= |old(input)|
      {
        ManyIs(count - i, ReadNamed, out, input);
        var name :- ReadStr();
        var length :- ReadI32();
        var data := [];
        NoBytes(length, input);
        if length > 0 {
          data :- ReadN(length);
        }
        out := out + [Named(name, data)];
      }
      ManyIs(0, ReadNamed, out, input);
      r := Value(out);
    }
    // ------------------------------------------------------------ list offsets

    method ParseListOffsetsRequest() returns (r: Reply<Body>)
      modifies this
      ensures Follows(ReadListOffsets(old(input)), r, input)
      ensures |input| <= |old(input)|
    {
      hide ReadInt32, ReadTopics;
      var replica :- ReadI32();
      var topics :- ParseListTopics();
      r := Value(ListOffsets(replica, topics));
    }

    method ParseListTopics() returns (r: Reply<seq<Topic<ListPart>>>)
      modifies this
      ensures Follows(ReadTopics(Checked, ReadListPart, old(input)), r, input)
      ensures |input| <= |old(input)|
    {
      hide Many, ReadInt32, ReadString, ReadArray, ReadListPart;
      ghost var p := TopicReader(Checked, ReadListPart);
      ArrayIs(Checked, p, input);
      var topicCount :- ReadI32();
      if topicCount < 0 || topicCount > MAX_COUNT {
        return Error;
      }
      ghost var s1 := input;
      var topics := [];
      for i := 0 to topicCount
        invariant Many(topicCount, p, [], s1) == Many(topicCount - i, p, topics, input)
        invariant |input| <= |old(input)|
      {
        ManyIs(topicCount - i, p, topics, input);
        var topicName :- ReadStr();
        var partitions :- ParseListPartitions();
        topics := topics + [Topic(topicName, partitions)];
      }
      ManyIs(0, p, topics, input);
      r := Value(topics);
    }

    method ParseListPartitions() returns (r: Reply<seq<ListPart>>)
      modifies this
      ensures Follows(ReadArray(Checked, ReadListPart, old(input)), r, input)
      ensures |input| <= |old(input)|
    {
      hide Many, ReadInt32, ReadInt64;
      var partCount :- ReadI32();
      if partCount < 0 || partCount > MAX_COUNT {
        return Error;
      }
      ghost var s1 := input;
      var partitions := [];
      for j := 0 to partCount
        invariant Many(partCount, ReadListPart, [], s1) == Many(partCount - j, ReadListPart, partitions, input)
        invariant |input| <= |old(input)|
      {
        ManyIs(partCount - j, ReadListPart, partitions, input);
        var partition :- ReadI32();
        var timestamp :- ReadI64();
        partitions := partitions + [ListPart(partition, timestamp)];
      }
      ManyIs(0, ReadListPart, partitions, input);
      r := Value(partitions);
    }

    // ------------------------------------------------------------ offset fetch

    method ParseOffsetFetchRequest() returns (r: Reply<Body>)
      modifies this
      ensures Follows(ReadOffsetFetch(old(input)), r, input)
      ensures |input| <= |old(input)|
    {
      hide ReadString, ReadTopics;
      var groupID :- ReadStr();
      var topics :- ParseQueryTopics();
      r := Value(OffsetFetch(groupID, topics));
    }

    method ParseQueryTopics() returns (r: Reply<seq<Topic<int32>>>)
      modifies this
      ensures Follows(ReadTopics(Unchecked, ReadInt32, old(input)), r, input)
      ensures |input| <= |old(input)|
    {
      hide Many, ReadInt32, ReadString, ReadArray;
      ghost var p := TopicReader(Unchecked, ReadInt32);
      ArrayIs(Unchecked, p, input);
      var topicCount :- ReadI32();
      if topicCount < 0 {
        return Panic;
      }
      ghost var s1 := input;
      var topics := [];
      for i := 0 to topicCount
        invariant Many(topicCount, p, [], s1) == Many(topicCount - i, p, topics, input)
        invariant |input| <= |old(input)|
      {
        ManyIs(topicCount - i, p, topics, input);
        var topicName :- ReadStr();
        var partitions :- ParseQueryPartitions();
        topics := topics + [Topic(topicName, partitions)];
      }
      ManyIs(0, p, topics, input);
      r := Value(topics);
    }

    method ParseQueryPartitions() returns (r: Reply<seq<int32>>)
      modifies this
      ensures Follows(ReadArray(Unchecked, ReadInt32, old(input)), r, input)
      ensures |input| <= |old(input)|
    {
      hide Many, ReadInt32;
      var partCount :- ReadI32();
      if partCount < 0 {
        return Panic;
      }
      ghost var s1 := input;
      var partitions := [];
      for j := 0 to partCount
        invariant Many(partCount, ReadInt32, [], s1) == Many(partCount - j, ReadInt32, partitions, input)
        invariant |input| <= |old(input)|
      {
        ManyIs(partCount - j, ReadInt32, partitions, input);
        var partition :- ReadI32();
        partitions := partitions + [partition];
      }
      ManyIs(0, ReadInt32, partitions, input);
      r := Value(partitions);
    }

    // --------------------------------------------- metadata and group membership

    method ParseMetadataRequest(version: int16) returns (r: Reply<Body>)
      modifies this
      ensures Follows(ReadMetadata(version, old(input)), r, input)
      ensures |input| <= |old(input)|
    {
      hide ReadInt8, ReadArray;
      var topics :- ParseTopicNames();
      if version >= 4 {
        var _ :- ReadI8();
      }
      r := Value(Metadata(topics));
    }

    method ParseTopicNames() returns (r: Reply<seq<bytes>>)
      modifies this
      ensures Follows(ReadArray(Unchecked, ReadString, old(input)), r, input)
      ensures |input| <= |old(input)|
    {
      hide Many, ReadInt32, ReadString;
      var count :- ReadI32();
      if count < 0 {
        return Panic;
      }
      ghost var s1 := input;
      var topics := [];
      for i := 0 to count
        invariant Many(count, ReadString, [], s1) == Many(count - i, ReadString, topics, input)
        invariant |input| <= |old(input)|
      {
        ManyIs(count - i, ReadString, topics, input);
        var name :- ReadStr();
        topics := topics + [name];
      }
      ManyIs(0, ReadString, topics, input);
      r := Value(topics);
    }

    method ParseSyncGroupRequest() returns (r: Reply<Body>)
      modifies this
      ensures Follows(ReadSyncGroup(old(input)), r, input)
      ensures |input| <= |old(input)|
    {
      hide ReadInt32, ReadString, ReadArray;
      var groupID :- ReadStr();
      var generationID :- ReadI32();
      var memberID :- ReadStr();
      var assignments :- ParseNamedBlocks();
      r := Value(SyncGroup(groupID, generationID, memberID, assignments));
    }

    method ParseHeartbeatRequest() returns (r: Reply<Body>)
      modifies this
      ensures Follows(ReadHeartbeat(old(input)), r, input)
      ensures |input| <= |old(input)|
    {
      hide ReadInt32, ReadString;
      var groupID :- ReadStr();
      var generationID :- ReadI32();
      var memberID :- ReadStr();
      r := Value(Heartbeat(groupID, generationID, memberID));
    }

    method ParseLeaveGroupRequest() returns (r: Reply<Body>)
      modifies this
      ensures Follows(ReadLeaveGroup(old(input)), r, input)
      ensures |input| <= |old(input)|
    {
      hide ReadString;
      var groupID :- ReadStr();
      var memberID :- ReadStr();
      r := Value(LeaveGroup(groupID, memberID));
    }

    method ParseFindCoordinatorRequest() returns (r: Reply<Body>)
      modifies this
      ensures Follows(ReadFindCoordinator(old(input)), r, input)
      ensures |input| <= |old(input)|
    {
      hide ReadString;
      var key :- ReadStr();
      r := Value(FindCoordinator(key));
    }

    // ------------------------------------------------------- requests and loop

    /**
     * Chooses the parser for an api key; an unknown key is an error. Any well-formed body
     * of that key and version is returned, with the cursor left where it ends.
     */
    method Dispatch(key: int16, version: int16) returns (r: Reply<Body>)
      modifies this
      ensures Follows(ReadBody(key, version, old(input)), r, input)
      ensures |input| <= |old(input)|
      ensures key !in {0, 1, 2, 3, 8, 9, 10, 11, 12, 13, 14, 18} ==> r == Error
      ensures forall b: Body, u: Unseen, rest: bytes ::
                BodyOk(b) && StrOk(u.txn) && key == ApiKey(b) && old(input) == EncBody(version, b, u) + rest
                ==> r == Value(b) && input == rest
    {
      BodiesBack(version, input);
      hide BodyOk, EncBody, ApiKey, StrOk, ReadProduce, ReadFetch, ReadListOffsets, ReadMetadata, ReadOffsetCommit,
           ReadOffsetFetch, ReadFindCoordinator, ReadJoinGroup, ReadHeartbeat, ReadLeaveGroup, ReadSyncGroup;
      if key == 0 {
        r := ParseProduceRequest(version);
      } else if key == 1 {
        r := ParseFetchRequest();
      } else if key == 2 {
        r := ParseListOffsetsRequest();
      } else if key == 3 {
        r := ParseMetadataRequest(version);
      } else if key == 8 {
        r := ParseOffsetCommitRequest();
      } else if key == 9 {
        r := ParseOffsetFetchRequest();
      } else if key == 10 {
        r := ParseFindCoordinatorRequest();
      } else if key == 11 {
        r := ParseJoinGroupRequest();
      } else if key == 12 {
        r := ParseHeartbeatRequest();
      } else if key == 13 {
        r := ParseLeaveGroupRequest();
      } else if key == 14 {
        r := ParseSyncGroupRequest();
      } else if key == 18 {
        r := Value(ApiVersions);
      } else {
        r := Error;
      }
    }

    /** A request that was read has consumed bytes, and any well-formed one is returned as it was sent. */
    method ParseRequest() returns (r: Reply<Request>)
      modifies this
      ensures Follows(ReadRequest(old(input)), r, input)
      ensures |input| <= |old(input)| && (r.Value? ==> |input| < |old(input)|)
      ensures forall sent: Request, u: Unseen, rest: bytes ::
                RequestOk(sent, u) && old(input) == EncRequest(sent, u) + rest ==> r == Value(sent) && input == rest
    {
      WholeRequestsBack(input);
      hide RequestOk, EncRequest, ReadInt16, ReadString, ReadBody, BodyOk, EncBody, StrOk, ApiKey;
      var size :- ReadI32();
      ghost var rest := input;
      var apiKey :- ReadI16();
      var apiVersion :- ReadI16();
      var correlationID :- ReadI32();
      var clientID :- ReadStr();
      var body :- Dispatch(apiKey, apiVersion);
      r := Value(Request(size, apiVersion, correlationID, clientID, body));
    }

    /** The connection loop: requests are taken until one cannot be read, which ends the connection. */
    method Handle() returns (requests: seq<Request>, last: Reply<Request>)
      modifies this
      ensures exists rest :: Many(|requests|, ReadRequest, [], old(input)) == Got(requests, rest)
                && Follows(ReadRequest(rest), last, input)
      ensures !last.Value?
    {
      hide ReadRequest;
      requests := [];
      ghost var s0 := input;
      while true
        invariant Many(|requests|, ReadRequest, [], s0) == Got(requests, input)
        decreases |input|
      {
        ghost var before := input;
        last := ParseRequest();
        if last.IsFailure() {
          assert Many(|requests|, ReadRequest, [], s0) == Got(requests, before)
              && Follows(ReadRequest(before), last, input);
          return;
        }
        ManyMore(|requests|, ReadRequest, [], s0);
        requests := requests + [last.value];
      }
    }
  }

  lemma BodiesBack(version: int16, s: bytes)
    ensures forall b: Body, u: Unseen, rest: bytes ::
              BodyOk(b) && StrOk(u.txn) && s == EncBody(version, b, u) + rest
              ==> ReadBody(ApiKey(b), version, s) == Got(b, rest)
  {
    hide BodyOk, StrOk, ReadBody, ApiKey, EncBody;
    forall b: Body, u: Unseen, rest: bytes | BodyOk(b) && StrOk(u.txn) && s == EncBody(version, b, u) + rest
      ensures ReadBody(ApiKey(b), version, s) == Got(b, rest)
    {
      BodyBack(version, b, u, rest);
    }
  }

  lemma WholeRequestsBack(s: bytes)
    ensures forall sent: Request, u: Unseen, rest: bytes ::
              RequestOk(sent, u) && s == EncRequest(sent, u) + rest ==> ReadRequest(s) == Got(sent, rest)
  {
    hide RequestOk, EncRequest, ReadRequest;
    forall sent: Request, u: Unseen, rest: bytes | RequestOk(sent, u) && s == EncRequest(sent, u) + rest
      ensures ReadRequest(s) == Got(sent, rest)
    {
      RequestBack(sent, u, rest);
    }
  }

  /** Reading one more element continues where the first `n` ended. */
  lemma {:induction false} ManyMore<T>(n: nat, p: Reader<T>, acc: seq<T>, s: bytes)
    requires Many(n, p, acc, s).Got? && p(Many(n, p, acc, s).rest).Got?
    ensures var m := Many(n, p, acc, s);
            Many(n + 1, p, acc, s) == Got(m.value + [p(m.rest).value], p(m.rest).rest)
    decreases n
  {
    if n > 0 {
      ManyMore(n - 1, p, acc + [p(s).value], p(s).rest);
    } else {
      assert Many(0, p, acc + [p(s).value], p(s).rest) == Got(acc + [p(s).value], p(s).rest);
    }
  }

  /**
   * The loop recovers every request of a well-formed stream and then stops at
   * whatever follows that is not one.
   */
  lemma HandleRecovers(sent: seq<Sent>, tail: bytes, requests: seq<Request>, rest: bytes)
    requires forall i :: 0 <= i < |sent| ==> RequestOk(sent[i].request, sent[i].unseen)
    requires Many(|requests|, ReadRequest, [], Stream(sent) + tail) == Got(requests, rest) && !ReadRequest(rest).Got?
    requires !ReadRequest(tail).Got?
    ensures requests == RequestsOf(sent) && rest == tail
  {
    hide ReadRequest, RequestOk, Stream;
    StreamAligned(sent, [], tail);
    assert [] + RequestsOf(sent) == RequestsOf(sent);
    SameStop(|sent|, |requests|, ReadRequest, [], Stream(sent) + tail);
  }

  /** Two runs of reads over the same bytes that both stop at an unreadable point are the same run. */
  lemma {:induction false} SameStop<T>(m: nat, n: nat, p: Reader<T>, acc: seq<T>, s: bytes)
    requires Many(m, p, acc, s).Got? && !p(Many(m, p, acc, s).rest).Got?
    requires Many(n, p, acc, s).Got? && !p(Many(n, p, acc, s).rest).Got?
    ensures m == n
    decreases m
  {
    if m > 0 && n > 0 {
      SameStop(m - 1, n - 1, p, acc + [p(s).value], p(s).rest);
    }
  }

  lemma ManyIs<T>(n: int, p: Reader<T>, acc: seq<T>, s: bytes)
    ensures Many(n, p, acc, s)
            == if n <= 0 then Got(acc, s)
               else if !p(s).Got? then p(s).PropagateFailure()
               else Many(n - 1, p, acc + [p(s).value], p(s).rest)
  {
  }

  lemma NoBytes(n: int, s: bytes)
    ensures n <= 0 ==> ReadBytes(n, s) == Got([], s)
  {
  }

  lemma SkipTxnIs(version: int16, s: bytes)
    ensures SkipTxn(version, s) ==
            if version < 3 then Got([], s)
            else if !ReadInt16(s).Got? then ReadInt16(s).PropagateFailure()
            else if ReadInt16(s).value <= 0 then Got([], ReadInt16(s).rest)
            else ReadBytes(ReadInt16(s).value, ReadInt16(s).rest)
  {
    hide ReadInt16;
  }

  lemma ArrayIs<T>(policy: Policy, p: Reader<T>, s: bytes)
    ensures ReadArray(policy, p, s) ==
            if !ReadInt32(s).Got? then ReadInt32(s).PropagateFailure()
            else
              var n, s1 := ReadInt32(s).value, ReadInt32(s).rest;
              if policy.Checked? && (n < 0 || n > MAX_COUNT) then Failed
              else if n < 0 then Panicked
              else Many(n, p, [], s1)
  {
  }
}
