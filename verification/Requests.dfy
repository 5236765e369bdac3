/** The requests the broker understands: their layouts on the wire, and the parsers that read them. */
module Requests {
  import opened Bytes
  import opened Seqs
  import opened Messages
  import opened Wire

  /** What a client may send that the broker reads past: the transactional id, a flag, and nulls for empty strings. */
  datatype Unseen = Unseen(txn: bytes, autoCreate: int8, asNull: bool)

  function ApiKey(b: Body): int16 {
    match b
    case Produce(_, _, _) => 0
    case Fetch(_, _, _, _, _, _) => 1
    case ListOffsets(_, _) => 2
    case Metadata(_) => 3
    case OffsetCommit(_, _, _, _, _) => 8
    case OffsetFetch(_, _) => 9
    case FindCoordinator(_) => 10
    case JoinGroup(_, _, _, _, _, _) => 11
    case Heartbeat(_, _, _) => 12
    case LeaveGroup(_, _) => 13
    case SyncGroup(_, _, _, _) => 14
    case ApiVersions => 18
  }

  // ------------------------------------------------------------------ parsers

  function ReadProducePart(s: bytes): Parsed<ProducePart> {
    var (partition, s1) :- ReadInt32(s);
    var (size, s2) :- ReadInt32(s1);
    if size < 0 then Failed
    else
      var (batch, s3) :- ReadBytes(size, s2);
      Got(ProducePart(partition, batch), s3)
  }

  function ReadFetchPart(s: bytes): Parsed<FetchPart> {
    var (partition, s1) :- ReadInt32(s);
    var (offset, s2) :- ReadInt64(s1);
    var (max, s3) :- ReadInt32(s2);
    Got(FetchPart(partition, offset, max), s3)
  }

  function ReadListPart(s: bytes): Parsed<ListPart> {
    var (partition, s1) :- ReadInt32(s);
    var (timestamp, s2) :- ReadInt64(s1);
    Got(ListPart(partition, timestamp), s2)
  }

  function ReadCommitPart(s: bytes): Parsed<CommitPart> {
    var (partition, s1) :- ReadInt32(s);
    var (offset, s2) :- ReadInt64(s1);
    var (metadata, s3) :- ReadString(s2);
    Got(CommitPart(partition, offset, metadata), s3)
  }

  function ReadNamed(s: bytes): Parsed<Named> {
    var (name, s1) :- ReadString(s);
    var (data, s2) :- ReadBytes32(s1);
    Got(Named(name, data), s2)
  }

  /** Version 3 and later begin with a nullable transactional id, which is discarded. */
  function SkipTxn(version: int16, s: bytes): Parsed<bytes> {
    if version >= 3 then ReadString(s) else Got([], s)
  }

  function ReadProduce(version: int16, s: bytes): Parsed<Body> {
    var (_, s0) :- SkipTxn(version, s);
    var (acks, s1) :- ReadInt16(s0);
    var (timeout, s2) :- ReadInt32(s1);
    var (topics, s3) :- ReadTopics(Checked, ReadProducePart, s2);
    Got(Produce(acks, timeout, topics), s3)
  }

  function ReadFetch(s: bytes): Parsed<Body> {
    var (replica, s1) :- ReadInt32(s);
    var (maxWait, s2) :- ReadInt32(s1);
    var (minBytes, s3) :- ReadInt32(s2);
    var (maxBytes, s4) :- ReadInt32(s3);
    var (isolation, s5) :- ReadInt8(s4);
    var (topics, s6) :- ReadTopics(Unchecked, ReadFetchPart, s5);
    Got(Fetch(replica, maxWait, minBytes, maxBytes, isolation, topics), s6)
  }

  function ReadListOffsets(s: bytes): Parsed<Body> {
    var (replica, s1) :- ReadInt32(s);
    var (topics, s2) :- ReadTopics(Checked, ReadListPart, s1);
    Got(ListOffsets(replica, topics), s2)
  }

  /** Version 4 and later end with a flag, which is discarded. */
  function SkipFlag(version: int16, s: bytes): Parsed<int8> {
    if version >= 4 then ReadInt8(s) else Got(0, s)
  }

  function ReadMetadata(version: int16, s: bytes): Parsed<Body> {
    var (topics, s1) :- ReadArray(Unchecked, ReadString, s);
    var (_, s2) :- SkipFlag(version, s1);
    Got(Metadata(topics), s2)
  }

  function ReadOffsetCommit(s: bytes): Parsed<Body> {
    var (group, s1) :- ReadString(s);
    var (generation, s2) :- ReadInt32(s1);
    var (member, s3) :- ReadString(s2);
    var (retention, s4) :- ReadInt64(s3);
    var (topics, s5) :- ReadTopics(Unchecked, ReadCommitPart, s4);
    Got(OffsetCommit(group, generation, member, retention, topics), s5)
  }

  function ReadOffsetFetch(s: bytes): Parsed<Body> {
    var (group, s1) :- ReadString(s);
    var (topics, s2) :- ReadTopics(Unchecked, ReadInt32, s1);
    Got(OffsetFetch(group, topics), s2)
  }

  function ReadFindCoordinator(s: bytes): Parsed<Body> {
    var (key, s1) :- ReadString(s);
    Got(FindCoordinator(key), s1)
  }

  function ReadJoinGroup(s: bytes): Parsed<Body> {
    var (group, s1) :- ReadString(s);
    var (session, s2) :- ReadInt32(s1);
    var (rebalance, s3) :- ReadInt32(s2);
    var (member, s4) :- ReadString(s3);
    var (protocolType, s5) :- ReadString(s4);
    var (protocols, s6) :- ReadArray(Unchecked, ReadNamed, s5);
    Got(JoinGroup(group, session, rebalance, member, protocolType, protocols), s6)
  }

  function ReadHeartbeat(s: bytes): Parsed<Body> {
    var (group, s1) :- ReadString(s);
    var (generation, s2) :- ReadInt32(s1);
    var (member, s3) :- ReadString(s2);
    Got(Heartbeat(group, generation, member), s3)
  }

  function ReadLeaveGroup(s: bytes): Parsed<Body> {
    var (group, s1) :- ReadString(s);
    var (member, s2) :- ReadString(s1);
    Got(LeaveGroup(group, member), s2)
  }

  function ReadSyncGroup(s: bytes): Parsed<Body> {
    var (group, s1) :- ReadString(s);
    var (generation, s2) :- ReadInt32(s1);
    var (member, s3) :- ReadString(s2);
    var (assignments, s4) :- ReadArray(Unchecked, ReadNamed, s3);
    Got(SyncGroup(group, generation, member, assignments), s4)
  }

  /** Dispatch by api key; ApiVersions has no body, and an unknown key is an error. */
  function ReadBody(key: int16, version: int16, s: bytes): Parsed<Body> {
    if key == 0 then ReadProduce(version, s)
    else if key == 1 then ReadFetch(s)
    else if key == 2 then ReadListOffsets(s)
    else if key == 3 then ReadMetadata(version, s)
    else if key == 8 then ReadOffsetCommit(s)
    else if key == 9 then ReadOffsetFetch(s)
    else if key == 10 then ReadFindCoordinator(s)
    else if key == 11 then ReadJoinGroup(s)
    else if key == 12 then ReadHeartbeat(s)
    else if key == 13 then ReadLeaveGroup(s)
    else if key == 14 then ReadSyncGroup(s)
    else if key == 18 then Got(ApiVersions, s)
    else Failed
  }

  /** One request: the header, then the body its key and version call for. The size is not used. */
  function ReadRequest(s: bytes): Parsed<Request> {
    var (size, s1) :- ReadInt32(s);
    var (key, s2) :- ReadInt16(s1);
    var (version, s3) :- ReadInt16(s2);
    var (correlation, s4) :- ReadInt32(s3);
    var (client, s5) :- ReadString(s4);
    var (body, s6) :- ReadBody(key, version, s5);
    Got(Request(size, version, correlation, client, body), s6)
  }

  // ------------------------------------------------------ documented layouts

  function EncProducePart(x: ProducePart): bytes { PutU32(x.partition) + EncBytes32(x.batch) }
  function EncFetchPart(x: FetchPart): bytes { PutU32(x.partition) + (PutU64(x.fetchOffset) + PutU32(x.maxBytes)) }
  function EncListPart(x: ListPart): bytes { PutU32(x.partition) + PutU64(x.timestamp) }
  function EncNamed(x: Named): bytes { EncStr(x.name) + EncBytes32(x.data) }
  function EncInt32(x: int32): bytes { PutU32(x) }

  function EncCommitPart(asNull: bool): CommitPart -> bytes {
    (x: CommitPart) => PutU32(x.partition) + (PutU64(x.offset) + EncNullable(x.metadata, asNull))
  }

  function EncBody(version: int16, b: Body, u: Unseen): bytes {
    match b
    case Produce(acks, timeoutMs, batches) =>
      (if version >= 3 then EncNullable(u.txn, u.asNull) else [])
      + (PutU16(acks) + (PutU32(timeoutMs) + EncTopics(EncProducePart, batches)))
    case Fetch(replica, maxWaitMs, minBytes, maxBytes, isolation, fetches) =>
      PutU32(replica) + (PutU32(maxWaitMs) + (PutU32(minBytes) + (PutU32(maxBytes)
      + (PutU8(isolation) + EncTopics(EncFetchPart, fetches)))))
    case ListOffsets(replica, lists) =>
      PutU32(replica) + EncTopics(EncListPart, lists)
    case Metadata(topics) =>
      EncArray(EncStr, topics) + (if version >= 4 then PutU8(u.autoCreate) else [])
    case OffsetCommit(group, generation, member, retentionMs, commits) =>
      EncStr(group) + (PutU32(generation) + (EncStr(member) + (PutU64(retentionMs)
      + EncTopics(EncCommitPart(u.asNull), commits))))
    case OffsetFetch(group, queries) =>
      EncStr(group) + EncTopics(EncInt32, queries)
    case FindCoordinator(key) =>
      EncStr(key)
    case JoinGroup(group, sessionMs, rebalanceMs, member, protocolType, protocols) =>
      EncStr(group) + (PutU32(sessionMs) + (PutU32(rebalanceMs) + (EncStr(member)
      + (EncStr(protocolType) + EncArray(EncNamed, protocols)))))
    case Heartbeat(group, generation, member) =>
      EncStr(group) + (PutU32(generation) + EncStr(member))
    case LeaveGroup(group, member) =>
      EncStr(group) + EncStr(member)
    case SyncGroup(group, generation, member, assignments) =>
      EncStr(group) + (PutU32(generation) + (EncStr(member) + EncArray(EncNamed, assignments)))
    case ApiVersions => []
  }

  function EncRequest(r: Request, u: Unseen): bytes {
    PutU32(r.size) + (PutU16(ApiKey(r.body)) + (PutU16(r.version) + (PutU32(r.correlation)
    + (EncNullable(r.client, u.asNull) + EncBody(r.version, r.body, u)))))
  }

  // -------------------------------------------------------- well-formedness

  predicate ProducePartOk(x: ProducePart) { |x.batch| < TWO31 }
  predicate CommitPartOk(x: CommitPart) { StrOk(x.metadata) }
  predicate NamedOk(x: Named) { StrOk(x.name) && |x.data| < TWO31 }

  ghost predicate TopicsOk<P(!new)>(policy: Policy, ok: P -> bool, ts: seq<Topic<P>>) {
    && CountOk(policy, ts)
    && forall i :: 0 <= i < |ts| ==>
         StrOk(ts[i].name) && CountOk(policy, ts[i].parts) && forall j :: 0 <= j < |ts[i].parts| ==> ok(ts[i].parts[j])
  }

  ghost predicate ArrayOk<T>(ok: T -> bool, xs: seq<T>) {
    CountOk(Unchecked, xs) && forall i :: 0 <= i < |xs| ==> ok(xs[i])
  }

  /** Strings fit 16-bit lengths, byte fields 32-bit lengths, and counts what the parser accepts. */
  ghost predicate BodyOk(b: Body) {
    match b
    case Produce(_, _, batches) => TopicsOk(Checked, ProducePartOk, batches)
    case Fetch(_, _, _, _, _, fetches) => TopicsOk(Unchecked, (x: FetchPart) => true, fetches)
    case ListOffsets(_, lists) => TopicsOk(Checked, (x: ListPart) => true, lists)
    case Metadata(topics) => ArrayOk(StrOk, topics)
    case OffsetCommit(group, _, member, _, commits) => StrOk(group) && StrOk(member)
        && TopicsOk(Unchecked, CommitPartOk, commits)
    case OffsetFetch(group, queries) => StrOk(group) && TopicsOk(Unchecked, (x: int32) => true, queries)
    case FindCoordinator(key) => StrOk(key)
    case JoinGroup(group, _, _, member, protocolType, protocols) =>
      StrOk(group) && StrOk(member) && StrOk(protocolType) && ArrayOk(NamedOk, protocols)
    case Heartbeat(group, _, member) => StrOk(group) && StrOk(member)
    case LeaveGroup(group, member) => StrOk(group) && StrOk(member)
    case SyncGroup(group, _, member, assignments) => StrOk(group) && StrOk(member) && ArrayOk(NamedOk, assignments)
    case ApiVersions => true
  }

  ghost predicate RequestOk(r: Request, u: Unseen) {
    StrOk(r.client) && StrOk(u.txn) && BodyOk(r.body)
  }

  // ------------------------------------------------------------- round trips

  lemma ProducePartBack(x: ProducePart)
    requires ProducePartOk(x)
    ensures ReadsBack(ReadProducePart, EncProducePart, x)
  {
    hide PutU32, ReadInt32;
    forall rest
      ensures ReadProducePart(EncProducePart(x) + rest) == Got(x, rest)
    {
      var b := x.batch;
      assert EncProducePart(x) + rest == PutU32(x.partition) + (PutU32(|b|) + (b + rest));
      Int32Back(x.partition, PutU32(|b|) + (b + rest));
      Int32Back(|b|, b + rest);
      assert (b + rest)[..|b|] == b && (b + rest)[|b|..] == rest;
    }
  }

  lemma FetchPartBack(x: FetchPart)
    ensures ReadsBack(ReadFetchPart, EncFetchPart, x)
  {
    hide PutU8, PutU16, PutU32, PutU64, ReadInt8, ReadInt16, ReadInt32, ReadInt64, ReadString, EncStr, EncNullable,
        ReadBytes32, EncBytes32;
    PrimitivesBack();
  }

  lemma ListPartBack(x: ListPart)
    ensures ReadsBack(ReadListPart, EncListPart, x)
  {
    hide PutU8, PutU16, PutU32, PutU64, ReadInt8, ReadInt16, ReadInt32, ReadInt64, ReadString, EncStr, EncNullable,
        ReadBytes32, EncBytes32;
    PrimitivesBack();
  }

  lemma CommitPartBack(x: CommitPart, asNull: bool)
    requires CommitPartOk(x)
    ensures ReadsBack(ReadCommitPart, EncCommitPart(asNull), x)
  {
    hide PutU8, PutU16, PutU32, PutU64, ReadInt8, ReadInt16, ReadInt32, ReadInt64, ReadString, EncStr, EncNullable,
        ReadBytes32, EncBytes32;
    PrimitivesBack();
  }

  lemma NamedBack(x: Named)
    requires NamedOk(x)
    ensures ReadsBack(ReadNamed, EncNamed, x)
  {
    hide PutU8, PutU16, PutU32, PutU64, ReadInt8, ReadInt16, ReadInt32, ReadInt64, ReadString, EncStr, EncNullable,
        ReadBytes32, EncBytes32;
    PrimitivesBack();
  }

  lemma Int32ReadsBack(x: int32)
    ensures ReadsBack(ReadInt32, EncInt32, x)
  {
    hide PutU8, PutU16, PutU32, PutU64, ReadInt8, ReadInt16, ReadInt32, ReadInt64, ReadString, EncStr, EncNullable,
        ReadBytes32, EncBytes32;
    PrimitivesBack();
  }

  lemma StringReadsBack(x: bytes)
    requires StrOk(x)
    ensures ReadsBack(ReadString, EncStr, x)
  {
    hide PutU8, PutU16, PutU32, PutU64, ReadInt8, ReadInt16, ReadInt32, ReadInt64, ReadString, EncStr, EncNullable,
        ReadBytes32, EncBytes32;
    PrimitivesBack();
  }

  /** Well-formed topics read back when their partitions do. */
  lemma TopicListBack<P(!new)>(policy: Policy, p: Reader<P>, e: P -> bytes, ok: P -> bool, ts: seq<Topic<P>>,
      rest: bytes)
    requires TopicsOk(policy, ok, ts)
    requires forall x :: ok(x) ==> ReadsBack(p, e, x)
    ensures ReadTopics(policy, p, EncTopics(e, ts) + rest) == Got(ts, rest)
  {
    hide ReadTopics, EncTopics, ReadsBack;
    forall i | 0 <= i < |ts|
      ensures TopicOk(policy, p, e, ts[i])
    {
    }
    TopicsBack(policy, p, e, ts, rest);
  }

  lemma ArrayListBack<T(!new)>(p: Reader<T>, e: T -> bytes, ok: T -> bool, xs: seq<T>, rest: bytes)
    requires ArrayOk(ok, xs)
    requires forall x :: ok(x) ==> ReadsBack(p, e, x)
    ensures ReadArray(Unchecked, p, EncArray(e, xs) + rest) == Got(xs, rest)
  {
    hide ReadArray, EncArray, ReadsBack;
    ArrayBack(Unchecked, p, e, xs, rest);
  }

  // Each body reads back from its layout, whatever follows it.

  lemma ProduceBack(version: int16, b: Body, u: Unseen, rest: bytes)
    requires b.Produce? && BodyOk(b) && StrOk(u.txn)
    ensures ReadProduce(version, EncBody(version, b, u) + rest) == Got(b, rest)
  {
    hide PutU8, PutU16, PutU32, PutU64, ReadInt8, ReadInt16, ReadInt32, ReadInt64, ReadString, EncStr, EncNullable,
         ReadTopics, EncTopics, ReadArray, EncArray, TopicsOk, ArrayOk, ReadsBack;
    PrimitivesBack();
    forall x: ProducePart | ProducePartOk(x) ensures ReadsBack(ReadProducePart, EncProducePart, x)
        { ProducePartBack(x); }
    TopicListBack(Checked, ReadProducePart, EncProducePart, ProducePartOk, b.batches, rest);
    var after := PutU16(b.acks) + (PutU32(b.timeoutMs) + EncTopics(EncProducePart, b.batches));
    assert [] + after == after;
  }

  lemma FetchBack(version: int16, b: Body, u: Unseen, rest: bytes)
    requires b.Fetch? && BodyOk(b)
    ensures ReadFetch(EncBody(version, b, u) + rest) == Got(b, rest)
  {
    hide PutU8, PutU16, PutU32, PutU64, ReadInt8, ReadInt16, ReadInt32, ReadInt64, ReadString, EncStr, EncNullable,
         ReadTopics, EncTopics, ReadArray, EncArray, TopicsOk, ArrayOk, ReadsBack;
    PrimitivesBack();
    forall x: FetchPart ensures ReadsBack(ReadFetchPart, EncFetchPart, x) { FetchPartBack(x); }
    TopicListBack(Unchecked, ReadFetchPart, EncFetchPart, (x: FetchPart) => true, b.fetches, rest);
  }

  lemma ListOffsetsBack(version: int16, b: Body, u: Unseen, rest: bytes)
    requires b.ListOffsets? && BodyOk(b)
    ensures ReadListOffsets(EncBody(version, b, u) + rest) == Got(b, rest)
  {
    hide PutU8, PutU16, PutU32, PutU64, ReadInt8, ReadInt16, ReadInt32, ReadInt64, ReadString, EncStr, EncNullable,
         ReadTopics, EncTopics, ReadArray, EncArray, TopicsOk, ArrayOk, ReadsBack;
    PrimitivesBack();
    forall x: ListPart ensures ReadsBack(ReadListPart, EncListPart, x) { ListPartBack(x); }
    TopicListBack(Checked, ReadListPart, EncListPart, (x: ListPart) => true, b.lists, rest);
  }

  lemma OffsetCommitBack(version: int16, b: Body, u: Unseen, rest: bytes)
    requires b.OffsetCommit? && BodyOk(b)
    ensures ReadOffsetCommit(EncBody(version, b, u) + rest) == Got(b, rest)
  {
    hide PutU8, PutU16, PutU32, PutU64, ReadInt8, ReadInt16, ReadInt32, ReadInt64, ReadString, EncStr, EncNullable,
         ReadTopics, EncTopics, ReadArray, EncArray, TopicsOk, ArrayOk, ReadsBack;
    PrimitivesBack();
    forall x: CommitPart | CommitPartOk(x) ensures ReadsBack(ReadCommitPart, EncCommitPart(u.asNull), x)
        { CommitPartBack(x, u.asNull); }
    TopicListBack(Unchecked, ReadCommitPart, EncCommitPart(u.asNull), CommitPartOk, b.commits, rest);
  }

  lemma OffsetFetchBack(version: int16, b: Body, u: Unseen, rest: bytes)
    requires b.OffsetFetch? && BodyOk(b)
    ensures ReadOffsetFetch(EncBody(version, b, u) + rest) == Got(b, rest)
  {
    hide PutU8, PutU16, PutU32, PutU64, ReadInt8, ReadInt16, ReadInt32, ReadInt64, ReadString, EncStr, EncNullable,
         ReadTopics, EncTopics, ReadArray, EncArray, TopicsOk, ArrayOk, ReadsBack;
    PrimitivesBack();
    forall x: int32 ensures ReadsBack(ReadInt32, EncInt32, x) { Int32ReadsBack(x); }
    TopicListBack(Unchecked, ReadInt32, EncInt32, (x: int32) => true, b.queries, rest);
  }

  lemma JoinGroupBack(version: int16, b: Body, u: Unseen, rest: bytes)
    requires b.JoinGroup? && BodyOk(b)
    ensures ReadJoinGroup(EncBody(version, b, u) + rest) == Got(b, rest)
  {
    hide PutU8, PutU16, PutU32, PutU64, ReadInt8, ReadInt16, ReadInt32, ReadInt64, ReadString, EncStr, EncNullable,
         ReadTopics, EncTopics, ReadArray, EncArray, TopicsOk, ArrayOk, ReadsBack;
    PrimitivesBack();
    forall x: Named | NamedOk(x) ensures ReadsBack(ReadNamed, EncNamed, x) { NamedBack(x); }
    ArrayListBack(ReadNamed, EncNamed, NamedOk, b.protocols, rest);
  }

  lemma SyncGroupBack(version: int16, b: Body, u: Unseen, rest: bytes)
    requires b.SyncGroup? && BodyOk(b)
    ensures ReadSyncGroup(EncBody(version, b, u) + rest) == Got(b, rest)
  {
    hide PutU8, PutU16, PutU32, PutU64, ReadInt8, ReadInt16, ReadInt32, ReadInt64, ReadString, EncStr, EncNullable,
         ReadTopics, EncTopics, ReadArray, EncArray, TopicsOk, ArrayOk, ReadsBack;
    PrimitivesBack();
    forall x: Named | NamedOk(x) ensures ReadsBack(ReadNamed, EncNamed, x) { NamedBack(x); }
    ArrayListBack(ReadNamed, EncNamed, NamedOk, b.assignments, rest);
  }

  lemma MetadataBack(version: int16, b: Body, u: Unseen, rest: bytes)
    requires b.Metadata? && BodyOk(b)
    ensures ReadMetadata(version, EncBody(version, b, u) + rest) == Got(b, rest)
  {
    hide PutU8, PutU16, PutU32, PutU64, ReadInt8, ReadInt16, ReadInt32, ReadInt64, ReadString, EncStr, EncNullable,
         ReadTopics, EncTopics, ReadArray, EncArray, TopicsOk, ArrayOk, ReadsBack;
    PrimitivesBack();
    forall x: bytes | StrOk(x) ensures ReadsBack(ReadString, EncStr, x) { StringReadsBack(x); }
    ArrayListBack(ReadString, EncStr, StrOk, b.topics, (if version >= 4 then PutU8(u.autoCreate) else []) + rest);
    assert [] + rest == rest;
  }

  lemma SmallBodiesBack(version: int16, b: Body, u: Unseen, rest: bytes)
    requires (b.FindCoordinator? || b.Heartbeat? || b.LeaveGroup? || b.ApiVersions?) && BodyOk(b)
    ensures ReadBody(ApiKey(b), version, EncBody(version, b, u) + rest) == Got(b, rest)
  {
    hide PutU8, PutU16, PutU32, PutU64, ReadInt8, ReadInt16, ReadInt32, ReadInt64, ReadString, EncStr, EncNullable,
         ReadTopics, EncTopics, ReadArray, EncArray, TopicsOk, ArrayOk;
    PrimitivesBack();
    assert [] + rest == rest;
  }

  lemma BodyBack(version: int16, b: Body, u: Unseen, rest: bytes)
    requires BodyOk(b) && StrOk(u.txn)
    ensures ReadBody(ApiKey(b), version, EncBody(version, b, u) + rest) == Got(b, rest)
  {
    hide EncBody, ReadProduce, ReadFetch, ReadListOffsets, ReadMetadata, ReadOffsetCommit, ReadOffsetFetch,
         ReadJoinGroup, ReadSyncGroup, BodyOk;
    match b
    case Produce(_, _, _) => ProduceBack(version, b, u, rest);
    case Fetch(_, _, _, _, _, _) => FetchBack(version, b, u, rest);
    case ListOffsets(_, _) => ListOffsetsBack(version, b, u, rest);
    case Metadata(_) => MetadataBack(version, b, u, rest);
    case OffsetCommit(_, _, _, _, _) => OffsetCommitBack(version, b, u, rest);
    case OffsetFetch(_, _) => OffsetFetchBack(version, b, u, rest);
    case JoinGroup(_, _, _, _, _, _) => JoinGroupBack(version, b, u, rest);
    case SyncGroup(_, _, _, _) => SyncGroupBack(version, b, u, rest);
    case _ => SmallBodiesBack(version, b, u, rest);
  }

  /**
   * One request reads back from its layout for every size field, and leaves exactly the bytes
   * that follow it; what the client sent unseen, a transactional id above all, changes nothing.
   */
  lemma RequestBack(r: Request, u: Unseen, rest: bytes)
    requires RequestOk(r, u)
    ensures ReadRequest(EncRequest(r, u) + rest) == Got(r, rest)
  {
    hide PutU16, PutU32, ReadInt16, ReadInt32, ReadString, EncNullable, EncBody, ReadBody, BodyOk, ApiKey;
    PrimitivesBack();
    BodyBack(r.version, r.body, u, rest);
  }

  /** A request together with what its client sent unseen. */
  datatype Sent = Sent(request: Request, unseen: Unseen)

  function Stream(sent: seq<Sent>): bytes {
    if sent == [] then [] else EncRequest(sent[0].request, sent[0].unseen) + Stream(sent[1..])
  }

  function RequestsOf(sent: seq<Sent>): (r: seq<Request>)
    ensures |r| == |sent|
  {
    seq(|sent|, i requires 0 <= i < |sent| => sent[i].request)
  }

  /**
   * A connection stays aligned: any list of well-formed requests, whatever sizes they
   * claim, is recovered in order, leaving exactly the bytes after the last.
   */
  lemma {:induction false} StreamAligned(sent: seq<Sent>, acc: seq<Request>, tail: bytes)
    requires forall i :: 0 <= i < |sent| ==> RequestOk(sent[i].request, sent[i].unseen)
    ensures Many(|sent|, ReadRequest, acc, Stream(sent) + tail) == Got(acc + RequestsOf(sent), tail)
    decreases |sent|
  {
    hide ReadRequest, EncRequest, RequestOk;
    if sent == [] {
      assert Stream(sent) + tail == tail;
      assert acc + RequestsOf(sent) == acc;
    } else {
      var r, u, more := sent[0].request, sent[0].unseen, sent[1..];
      Assoc(EncRequest(r, u), Stream(more), tail);
      RequestBack(r, u, Stream(more) + tail);
      StreamAligned(more, acc + [r], tail);
      assert acc + [r] + RequestsOf(more) == acc + RequestsOf(sent);
    }
  }

  // -------------------------------------------------------------- truncation

  lemma PartsStable()
    ensures Stable(ReadProducePart) && Stable(ReadFetchPart) && Stable(ReadListPart)
    ensures Stable(ReadCommitPart) && Stable(ReadNamed) && Stable(ReadInt32) && Stable(ReadString)
  {
    hide ReadInt8, ReadInt16, ReadInt32, ReadInt64, ReadString, ReadBytes, ReadBytes32;
    PrimitivesStable();
    forall s: bytes, u: bytes
      ensures StableAt(ReadProducePart, s, u) && StableAt(ReadFetchPart, s, u) && StableAt(ReadListPart, s, u)
      ensures StableAt(ReadCommitPart, s, u) && StableAt(ReadNamed, s, u)
      ensures StableAt(ReadInt32, s, u) && StableAt(ReadString, s, u)
    {
    }
  }

  /** Arrays of topics, and plain arrays, are as stable as their elements. */
  lemma ArraysStable<P(!new)>(policy: Policy, p: Reader<P>)
    requires Stable(p)
    ensures forall s: bytes, u: bytes {:trigger ReadTopics(policy, p, s), s + u} ::
              Keeps(ReadTopics(policy, p, s), ReadTopics(policy, p, s + u), u)
    ensures forall s: bytes, u: bytes {:trigger ReadArray(policy, p, s), s + u} ::
              Keeps(ReadArray(policy, p, s), ReadArray(policy, p, s + u), u)
  {
    hide ReadTopics, ReadArray, Stable;
    forall s: bytes, u: bytes
      ensures Keeps(ReadTopics(policy, p, s), ReadTopics(policy, p, s + u), u)
      ensures Keeps(ReadArray(policy, p, s), ReadArray(policy, p, s + u), u)
    {
      TopicsStable(policy, p, s, u);
      ArrayStable(policy, p, s, u);
    }
  }

  lemma ProduceStable(version: int16, s: bytes, u: bytes)
    ensures Keeps(ReadProduce(version, s), ReadProduce(version, s + u), u)
  {
    hide ReadInt8, ReadInt16, ReadInt32, ReadInt64, ReadString, ReadBytes, ReadBytes32, ReadTopics, ReadArray, Stable;
    PrimitivesStable();
    PartsStable();
    ArraysStable(Checked, ReadProducePart);
  }

  lemma FetchStable(s: bytes, u: bytes)
    ensures Keeps(ReadFetch(s), ReadFetch(s + u), u)
  {
    hide ReadInt8, ReadInt16, ReadInt32, ReadInt64, ReadString, ReadBytes, ReadBytes32, ReadTopics, ReadArray, Stable;
    PrimitivesStable();
    PartsStable();
    ArraysStable(Unchecked, ReadFetchPart);
  }

  lemma ListOffsetsStable(s: bytes, u: bytes)
    ensures Keeps(ReadListOffsets(s), ReadListOffsets(s + u), u)
  {
    hide ReadInt8, ReadInt16, ReadInt32, ReadInt64, ReadString, ReadBytes, ReadBytes32, ReadTopics, ReadArray, Stable;
    PrimitivesStable();
    PartsStable();
    ArraysStable(Checked, ReadListPart);
  }

  lemma MetadataStable(version: int16, s: bytes, u: bytes)
    ensures Keeps(ReadMetadata(version, s), ReadMetadata(version, s + u), u)
  {
    hide ReadInt8, ReadInt16, ReadInt32, ReadInt64, ReadString, ReadBytes, ReadBytes32, ReadTopics, ReadArray, Stable;
    PrimitivesStable();
    PartsStable();
    ArraysStable(Unchecked, ReadString);
  }

  lemma OffsetCommitStable(s: bytes, u: bytes)
    ensures Keeps(ReadOffsetCommit(s), ReadOffsetCommit(s + u), u)
  {
    hide ReadInt8, ReadInt16, ReadInt32, ReadInt64, ReadString, ReadBytes, ReadBytes32, ReadTopics, ReadArray, Stable;
    PrimitivesStable();
    PartsStable();
    ArraysStable(Unchecked, ReadCommitPart);
  }

  lemma OffsetFetchStable(s: bytes, u: bytes)
    ensures Keeps(ReadOffsetFetch(s), ReadOffsetFetch(s + u), u)
  {
    hide ReadInt8, ReadInt16, ReadInt32, ReadInt64, ReadString, ReadBytes, ReadBytes32, ReadTopics, ReadArray, Stable;
    PrimitivesStable();
    PartsStable();
    ArraysStable(Unchecked, ReadInt32);
  }

  lemma JoinGroupStable(s: bytes, u: bytes)
    ensures Keeps(ReadJoinGroup(s), ReadJoinGroup(s + u), u)
  {
    hide ReadInt8, ReadInt16, ReadInt32, ReadInt64, ReadString, ReadBytes, ReadBytes32, ReadTopics, ReadArray, Stable;
    PrimitivesStable();
    PartsStable();
    ArraysStable(Unchecked, ReadNamed);
  }

  lemma SyncGroupStable(s: bytes, u: bytes)
    ensures Keeps(ReadSyncGroup(s), ReadSyncGroup(s + u), u)
  {
    hide ReadInt8, ReadInt16, ReadInt32, ReadInt64, ReadString, ReadBytes, ReadBytes32, ReadTopics, ReadArray, Stable;
    PrimitivesStable();
    PartsStable();
    ArraysStable(Unchecked, ReadNamed);
  }

  lemma BodyStable(key: int16, version: int16, s: bytes, u: bytes)
    ensures Keeps(ReadBody(key, version, s), ReadBody(key, version, s + u), u)
  {
    hide ReadInt8, ReadInt16, ReadInt32, ReadInt64, ReadString, ReadBytes, ReadBytes32,
         ReadProduce, ReadFetch, ReadListOffsets, ReadMetadata, ReadOffsetCommit, ReadOffsetFetch, ReadJoinGroup,
             ReadSyncGroup;
    ProduceStable(version, s, u);
    FetchStable(s, u);
    ListOffsetsStable(s, u);
    MetadataStable(version, s, u);
    OffsetCommitStable(s, u);
    OffsetFetchStable(s, u);
    JoinGroupStable(s, u);
    SyncGroupStable(s, u);
    PrimitivesStable();
  }

  /** A request that was read is not changed by bytes that arrive after it. */
  lemma RequestStable(s: bytes, u: bytes)
    ensures StableAt(ReadRequest, s, u)
  {
    hide ReadInt8, ReadInt16, ReadInt32, ReadInt64, ReadString, ReadBytes, ReadBytes32, ReadBody;
    PrimitivesStable();
    forall key, version, t: bytes
      ensures Keeps(ReadBody(key, version, t), ReadBody(key, version, t + u), u)
    {
      BodyStable(key, version, t, u);
    }
  }

  /** Every strict prefix of a well-formed request is an error: a cut connection yields no request and no panic. */
  lemma TruncationFails(r: Request, u: Unseen, n: nat)
    requires RequestOk(r, u) && n < |EncRequest(r, u)|
    ensures ReadRequest(EncRequest(r, u)[..n]) == Failed
  {
    hide ReadRequest, EncRequest, RequestOk;
    var e := EncRequest(r, u);
    var q, cut := e[..n], e[n..];
    RequestBack(r, u, []);
    assert e + [] == e && q + cut == e;
    RequestStable(q, cut);
  }
}
