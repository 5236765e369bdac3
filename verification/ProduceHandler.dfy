/** Produce: what of a request is validated, stored and acknowledged. */
module ProduceHandler {
  import opened Bytes
  import opened Outcomes
  import opened Seqs
  import opened RecordLog
  import opened Segments
  import opened Partitions
  import opened RecordBatches
  import opened Names
  import opened Messages
  import opened FetchHandler

  const ERR_STORAGE: int16 := 1
  const ERR_CORRUPT_MESSAGE: int16 := 2
  const ACKS_NONE: int16 := 0

  /** One batch of a request with the partition it is for. */
  datatype Batch = Batch(tp: TopicPartition, data: bytes)
  datatype Ack = Ack(partition: int32, code: int16, baseOffset: int64)

  /** An empty batch is stored unchecked; any other must pass the check. */
  predicate Acceptable(b: bytes, crc: bytes -> nat) {
    b == [] || Validate(b, crc).Valid?
  }

  predicate CanOpen(env: Env, stores: Stores, key: bytes) {
    key in stores || key !in env.failing
  }

  function Stored(env: Env, crc: bytes -> nat, stores: Stores, b: Batch): Stores {
    var key := PartitionKey(b.tp);
    if Acceptable(b.data, crc) && CanOpen(env, stores, key)
    then stores[key := PartAppended(StoreFor(stores, key, env.cfg), b.data)]
    else stores
  }

  function AckFor(env: Env, crc: bytes -> nat, stores: Stores, b: Batch): Ack {
    var key := PartitionKey(b.tp);
    if !Acceptable(b.data, crc) then Ack(b.tp.partition, ERR_CORRUPT_MESSAGE, -1)
    else if !CanOpen(env, stores, key) then Ack(b.tp.partition, ERR_STORAGE, -1)
    else
      match PartOffset(StoreFor(stores, key, env.cfg), b.data)
      case None => Ack(b.tp.partition, ERR_STORAGE, -1)
      case Some(off) => Ack(b.tp.partition, ERR_NONE, ToInt64(off))
  }

  function StoredAll(env: Env, crc: bytes -> nat, stores: Stores, bs: seq<Batch>): Stores {
    if bs == [] then stores else Stored(env, crc, StoredAll(env, crc, stores, bs[..|bs| - 1]), bs[|bs| - 1])
  }

  /**
   * A batch is acknowledged without error exactly when it is empty or valid, its
   * partition can be opened, and it fits an empty segment; then the partition holds
   * it after all it held, and the base plus the offset is the bytes accepted before.
   * Otherwise the partition holds what it held.
   */
  lemma AcknowledgedIffStored(env: Env, crc: bytes -> nat, stores: Stores, b: Batch, chain: seq<Link>)
    requires ChainHolds(StoreFor(stores, PartitionKey(b.tp), env.cfg), chain)
    ensures var key := PartitionKey(b.tp);
            var p, after := StoreFor(stores, key, env.cfg), Stored(env, crc, stores, b);
            var ack := AckFor(env, crc, stores, b);
            var tried := Acceptable(b.data, crc) && CanOpen(env, stores, key);
            var chain' := if tried then ChainAfter(p, chain, b.data) else chain;
            && (ack.code == ERR_NONE <==> tried && HEADER + |b.data| <= EffectiveMax(p.cfg))
            && (key in after <==> key in stores || tried)
            && (key in after ==> ChainHolds(after[key], chain'))
            && AllRecs(chain') == AllRecs(chain) + (if ack.code == ERR_NONE then [b.data] else [])
            && (ack.code == ERR_NONE ==> after[key].base + ack.baseOffset == |Frames(AllRecs(chain))|)
            && (ack.code != ERR_NONE ==> ack.baseOffset == -1)
  {
    hide Frames, Validate, ChainHolds, ChainAfter, AllRecs, PartAppended, PartOffset, PartitionKey, EffectiveMax;
    var p := StoreFor(stores, PartitionKey(b.tp), env.cfg);
    NonEmpty(p, chain);
    if Acceptable(b.data, crc) {
      AppendKeepsChain(p, chain, b.data);
      RefusedIffOversize(p, chain, b.data);
      OffsetFits(p, chain, b.data);
    }
    assert AllRecs(chain) + [] == AllRecs(chain);
  }

  /** The batch with another checksum written into it. */
  function WithSum(b: bytes, sum: int): (r: bytes)
    requires |b| >= 61
    ensures |r| == |b| && r[..17] == b[..17] && r[21..] == b[21..] && Get(r[17..21]) == sum % TWO32
  {
    var r := b[..17] + PutU32(sum) + b[21..];
    assert r[17..21] == PutU32(sum) && r[..17] == b[..17] && r[21..] == b[21..];
    r
  }

  lemma SumDecides(b: bytes, sum: int, crc: bytes -> nat)
    requires |b| >= 61 && b[16] == 2 && 9 <= Get(b[8..12]) <= |b| - 12
    ensures Passes(WithSum(b, sum), crc) <==> sum % TWO32 == crc(b[21..12 + Get(b[8..12])])
  {
    hide Get, PutU32;
    var r := WithSum(b, sum);
    assert r[16] == r[..17][16] && r[8..12] == r[..17][8..12] && b[8..12] == b[..17][8..12];
    var n := 12 + Get(b[8..12]);
    assert r[21..n] == r[21..][..n - 21] && b[21..n] == b[21..][..n - 21];
  }

  /**
   * A batch of the right shape is stored and acknowledged if and only if the sum it carries is the
   * checksum of what it covers, and there is room for it; with any other sum it is refused as
   * corrupt, and nothing is stored.
   */
  lemma ChecksumDecides(env: Env, crc: bytes -> nat, stores: Stores, tp: TopicPartition, b: bytes, sum: int,
      chain: seq<Link>)
    requires |b| >= 61 && b[16] == 2 && 9 <= Get(b[8..12]) <= |b| - 12
    requires ChainHolds(StoreFor(stores, PartitionKey(tp), env.cfg), chain)
    ensures var key := PartitionKey(tp);
            var ack := AckFor(env, crc, stores, Batch(tp, WithSum(b, sum)));
            var after := Stored(env, crc, stores, Batch(tp, WithSum(b, sum)));
            var right := sum % TWO32 == crc(b[21..12 + Get(b[8..12])]);
            var max := StoreFor(stores, key, env.cfg).cfg;
            && (ack.code == 0 <==> right && (key in stores || key !in env.failing)
                                   && 4 + |b| <= (if max > 0 then max else 0x4000_0000))
            && (!right ==> ack == Ack(tp.partition, 2, -1) && after == stores)
            && (ack.code == 0 ==> key in after && Took(after[key], chain, [WithSum(b, sum)]))
  {
    hide Passes, Validate, ChainHolds, ChainAfter, AllRecs, PartAppended, PartOffset, PartitionKey, StoreFor, WithSum,
        Get;
    SumDecides(b, sum, crc);
    ValidIffPasses(WithSum(b, sum), crc);
    AcknowledgedIffStored(env, crc, stores, Batch(tp, WithSum(b, sum)), chain);
  }

  /** The partition holds a chain that adds exactly `more` to the records of `chain`. */
  ghost predicate Took(p: PartState, chain: seq<Link>, more: seq<bytes>) {
    exists after :: ChainHolds(p, after) && AllRecs(after) == AllRecs(chain) + more
  }

  /** Two acknowledged batches that agree up to byte 21 cover bytes with the same checksum. */
  lemma AcknowledgedAgree(env: Env, crc: bytes -> nat, stores: Stores, a: Batch, b: Batch)
    requires 21 <= |a.data| && 21 <= |b.data| && a.data[..21] == b.data[..21]
    requires AckFor(env, crc, stores, a).code == 0 && AckFor(env, crc, stores, b).code == 0
    ensures var end := 12 + Get(a.data[8..12]);
            21 <= end <= |a.data| && end <= |b.data| && crc(a.data[21..end]) == crc(b.data[21..end])
  {
    hide Validate, PartitionKey, PartOffset, StoreFor, Get;
    ValidIffPasses(a.data, crc);
    ValidIffPasses(b.data, crc);
    assert a.data[8..12] == a.data[..21][8..12] && b.data[8..12] == b.data[..21][8..12];
    assert a.data[17..21] == a.data[..21][17..21] && b.data[17..21] == b.data[..21][17..21];
  }

  /** A returned offset is within the segment, so its signed reading is itself. */
  lemma OffsetFits(p: PartState, chain: seq<Link>, data: bytes)
    requires ChainHolds(p, chain)
    ensures PartOffset(p, data).Some? ==> ToInt64(PartOffset(p, data).value) == PartOffset(p, data).value
  {
    hide Frames, ChainHolds, Target, IndexHolds;
    LastHolds(p, chain, data);
    var recs :| Holds(Target(p, data).active, recs);
  }

  /**
   * Produce, then fetch at the acknowledged offset, whether or not the append rolled
   * the partition over: the batch comes back with only bytes 0..7 changed, validates
   * with the same record count, and its cursor is the new high watermark, where the
   * next record will start.
   */
  lemma ProduceThenFetch(env: Env, crc: bytes -> nat, stores: Stores, b: Batch, chain: seq<Link>, maxBytes: int32,
      budget: int32)
    requires ChainHolds(StoreFor(stores, PartitionKey(b.tp), env.cfg), chain)
    requires Validate(b.data, crc).Valid? && Total(b.data) == |b.data|
    requires AckFor(env, crc, stores, b).code == ERR_NONE
    requires |b.data| <= maxBytes && |b.data| <= budget && (maxBytes <= MAX_CAP || budget <= MAX_CAP)
    ensures var after := Stored(env, crc, stores, b);
            var item := Item(b.tp.topic, FetchPart(b.tp.partition, AckFor(env, crc, stores, b).baseOffset, maxBytes));
            var r := Answer(env, FetchState(after, budget), item);
            && r.code == ERR_NONE && r.batch.Some? && r.batchSize == |b.data|
            && Faithful(r.batch.value, b.data, r.highWatermark, crc)
            && PartitionKey(b.tp) in after && r.highWatermark == after[PartitionKey(b.tp)].active.size
  {
    hide Validate, Appended, PartitionKey, Target, Stored, AckFor, Answer, ServePart, Faithful, Holds, Total,
        ChainHolds, StoreFor;
    var p := StoreFor(stores, PartitionKey(b.tp), env.cfg);
    var off := AckFor(env, crc, stores, b).baseOffset;
    var req := FetchPart(b.tp.partition, off, maxBytes);
    var t := Target(p, b.data).active;
    LastHolds(p, chain, b.data);
    var recs :| Holds(t, recs);
    AckedOffset(env, crc, stores, b, chain);
    StoredActive(env, crc, stores, b);
    AnswerOpen(env, FetchState(Stored(env, crc, stores, b), budget), Item(b.tp.topic, req));
    assert Run(Appended(t, b.data), []) == Appended(t, b.data);
    ProducedBatchComesBack(t, recs, b.data, crc, [], req, budget);
    AppendServes(t, b.data, recs, req, budget);
    var r := ServePart(Appended(t, b.data), req, budget);
    assert r.batch.value[..|b.data|] == r.batch.value;
  }

  /** The size announced and the high watermark of an answer from a segment just appended to. */
  lemma AppendServes(t: SegState, data: bytes, recs: seq<bytes>, req: FetchPart, budget: int32)
    requires Holds(t, recs) && HasRoom(t, data) && ServePart(Appended(t, data), req, budget).batch.Some?
    ensures var r := ServePart(Appended(t, data), req, budget);
            && r.highWatermark == t.size + HEADER + |data| == Appended(t, data).size
            && r.batchSize == |r.batch.value|
  {
    hide ServePart, IndexHolds, Frames;
    AppendHolds(t, recs, data);
    ServeBound(Appended(t, data), req, budget);
    Watermark(Appended(t, data), req, budget);
  }

  lemma StoredActive(env: Env, crc: bytes -> nat, stores: Stores, b: Batch)
    requires Acceptable(b.data, crc) && AckFor(env, crc, stores, b).code == ERR_NONE
    ensures var key, after := PartitionKey(b.tp), Stored(env, crc, stores, b);
            key in after && after[key].active == Appended(Target(StoreFor(stores, key, env.cfg), b.data).active, b.data)
  {
    hide Validate, PartitionKey, Target, Appended, StoreFor, PartOffset;
  }

  lemma AnswerOpen(env: Env, s: FetchState, item: Item)
    requires KeyOf(item) in s.stores
    ensures Answer(env, s, item) == ServePart(s.stores[KeyOf(item)].active, item.req, s.remaining)
  {
    hide ServePart, KeyOf;
  }

  lemma AckedOffset(env: Env, crc: bytes -> nat, stores: Stores, b: Batch, chain: seq<Link>)
    requires Acceptable(b.data, crc) && AckFor(env, crc, stores, b).code == ERR_NONE
    requires ChainHolds(StoreFor(stores, PartitionKey(b.tp), env.cfg), chain)
    ensures var t := Target(StoreFor(stores, PartitionKey(b.tp), env.cfg), b.data).active;
            t.size == AckFor(env, crc, stores, b).baseOffset && HasRoom(t, b.data)
  {
    hide Validate, PartitionKey, Target, ChainHolds, StoreFor;
    OffsetFits(StoreFor(stores, PartitionKey(b.tp), env.cfg), chain, b.data);
  }

  // ------------------------------------------------------------- the handler

  function BatchesOf(t: Topic<ProducePart>): (r: seq<Batch>)
    ensures |r| == |t.parts|
  {
    seq(|t.parts|, j requires 0 <= j < |t.parts| => Batch(TopicPartition(t.name, t.parts[j].partition),
        t.parts[j].batch))
  }

  function BatchesIn(topics: seq<Topic<ProducePart>>): seq<Batch> {
    if topics == [] then [] else BatchesIn(topics[..|topics| - 1]) + BatchesOf(topics[|topics| - 1])
  }

  ghost predicate Acks(env: Env, crc: bytes -> nat, stores: Stores, topic: Topic<ProducePart>, acks: seq<Ack>) {
    var bs := BatchesOf(topic);
    && |acks| == |topic.parts|
    && forall j :: 0 <= j < |acks| ==> acks[j] == AckFor(env, crc, StoredAll(env, crc, stores, bs[..j]), bs[j])
  }

  lemma {:induction false} StoredConcat(env: Env, crc: bytes -> nat, stores: Stores, a: seq<Batch>, b: seq<Batch>)
    ensures StoredAll(env, crc, stores, a + b) == StoredAll(env, crc, StoredAll(env, crc, stores, a), b)
  {
    hide Stored;
    if b == [] {
      assert a + b == a;
    } else {
      StoredConcat(env, crc, stores, a, b[..|b| - 1]);
      assert (a + b)[..|a + b| - 1] == a + b[..|b| - 1];
    }
  }

  lemma StoredMore(env: Env, crc: bytes -> nat, stores: Stores, bs: seq<Batch>, j: nat)
    requires j < |bs|
    ensures StoredAll(env, crc, stores, bs[..j + 1]) == Stored(env, crc, StoredAll(env, crc, stores, bs[..j]), bs[j])
  {
    hide Stored;
    assert bs[..j + 1][..j] == bs[..j];
  }

  lemma StoredTopicMore(env: Env, crc: bytes -> nat, stores: Stores, topics: seq<Topic<ProducePart>>, i: nat)
    requires i < |topics|
    ensures StoredAll(env, crc, stores, BatchesIn(topics[..i + 1]))
            == StoredAll(env, crc, StoredAll(env, crc, stores, BatchesIn(topics[..i])), BatchesOf(topics[i]))
  {
    hide StoredAll, BatchesOf;
    assert topics[..i + 1][..i] == topics[..i];
    StoredConcat(env, crc, stores, BatchesIn(topics[..i]), BatchesOf(topics[i]));
  }

  lemma NothingStored(env: Env, crc: bytes -> nat, stores: Stores)
    ensures StoredAll(env, crc, stores, []) == stores && BatchesIn([]) == []
  {
  }

  /** Some batch of the topic has magic 2 and a length field that leaves no room for its checksum. */
  ghost predicate TopicCrashes(t: Topic<ProducePart>) {
    exists j :: 0 <= j < |t.parts| && NoRoomForSum(t.parts[j].batch)
  }

  ghost predicate NoRoomForSum(b: bytes) {
    |b| >= 61 && b[16] == 2 && Get(b[8..12]) < 9
  }

  // -------------------------------------------- the outcome, from the request

  /** The batches of a row that the partition named `key` acknowledged, in order. */
  function TakenParts(name: bytes, parts: seq<ProducePart>, acks: seq<Ack>, key: bytes): seq<bytes>
    requires |acks| == |parts|
  {
    if parts == [] then []
    else
      var n := |parts| - 1;
      TakenParts(name, parts[..n], acks[..n], key)
      + (if acks[n].code == 0 && PartitionKey(TopicPartition(name, parts[n].partition)) == key then [parts[n].batch]
         else [])
  }

  /** Every partition of the request has its answer, in its place. */
  ghost predicate Paired(topics: seq<Topic<ProducePart>>, acked: seq<Topic<Ack>>) {
    && |acked| == |topics|
    && forall i :: 0 <= i < |topics| ==> acked[i].name == topics[i].name && |acked[i].parts| == |topics[i].parts|
  }

  ghost function Taken(topics: seq<Topic<ProducePart>>, acked: seq<Topic<Ack>>, key: bytes): seq<bytes>
    requires Paired(topics, acked)
  {
    if topics == [] then []
    else
      var n := |topics| - 1;
      Taken(topics[..n], acked[..n], key) + TakenParts(topics[n].name, topics[n].parts, acked[n].parts, key)
  }

  /** What the partition acknowledged before batch `j` of topic `i`. */
  ghost function TakenBefore(topics: seq<Topic<ProducePart>>, acked: seq<Topic<Ack>>, key: bytes, i: nat, j: nat):
      seq<bytes>
    requires Paired(topics, acked) && i < |topics| && j <= |topics[i].parts|
  {
    Taken(topics[..i], acked[..i], key) + TakenParts(topics[i].name, topics[i].parts[..j], acked[i].parts[..j], key)
  }

  /** `data` is a record of the chain, `off` bytes into its segment and `pos` bytes into the partition. */
  ghost predicate PlacedAt(chain: seq<Link>, data: bytes, off: int, pos: int) {
    exists l, k :: 0 <= l < |chain| && 0 <= k < |chain[l].recs| && chain[l].recs[k] == data
                   && Start(chain[l].recs, k) == off && chain[l].base + off == pos
  }

  /** A chain goes on from another: the segments it has keep their places and their records. */
  ghost predicate GoesOn(c: seq<Link>, d: seq<Link>) {
    && |c| <= |d|
    && forall l :: 0 <= l < |c| ==> c[l].base == d[l].base && c[l].recs <= d[l].recs
  }

  /** Batch `j` of topic `i`, if the partition named `key` acknowledged it, is where the answer says. */
  ghost predicate AckTrue(topics: seq<Topic<ProducePart>>, acked: seq<Topic<Ack>>, key: bytes, i: nat, j: nat,
      was: seq<bytes>, chain: seq<Link>)
    requires Paired(topics, acked) && i < |topics| && j < |topics[i].parts|
  {
    var ack := acked[i].parts[j];
    ack.code == 0 && PartitionKey(TopicPartition(topics[i].name, topics[i].parts[j].partition)) == key ==>
      PlacedAt(chain, topics[i].parts[j].batch, ack.baseOffset, |Frames(was + TakenBefore(topics, acked, key, i, j))|)
  }

  /**
   * The partition named `key` holds, after the records `was`, the batches of the request that it
   * acknowledged, in the order of the request, and each lies where its answer says.
   */
  ghost predicate PartitionGrew(p: PartState, was: seq<bytes>, topics: seq<Topic<ProducePart>>,
      acked: seq<Topic<Ack>>, key: bytes)
    requires Paired(topics, acked)
  {
    exists chain ::
      && ChainHolds(p, chain) && AllRecs(chain) == was + Taken(topics, acked, key)
      && forall i, j :: 0 <= i < |topics| && 0 <= j < |topics[i].parts| ==>
           AckTrue(topics, acked, key, i, j, was, chain)
  }

  /** The answer for one partition: 2 for a corrupt batch, 1 for one that is not stored, 0 for one that is. */
  ghost predicate PartAcked(env: Env, crc: bytes -> nat, before: Stores, name: bytes, part: ProducePart, ack: Ack) {
    var key := PartitionKey(TopicPartition(name, part.partition));
    var sound := part.batch == [] || Passes(part.batch, crc);
    && ack.partition == part.partition && (ack.code == 0 || ack.code == 1 || ack.code == 2)
    && (ack.code == 2 <==> !sound)
    && (ack.code != 0 ==> ack.baseOffset == -1)
    && (forall chain :: ChainHolds(StoreFor(before, key, env.cfg), chain) ==>
          (ack.code == 0 <==> sound && (key in before || key !in env.failing) && RoomFor(env, before, key, part.batch)))
  }

  /** A batch is no larger than a whole segment of the partition. */
  ghost predicate RoomFor(env: Env, stores: Stores, key: bytes, batch: bytes) {
    var cfg := if key in stores then stores[key].cfg else env.cfg;
    4 + |batch| <= (if cfg > 0 then cfg else 0x4000_0000)
  }

  /** What a request is to be answered, and what it is to leave in every partition. */
  ghost predicate RequestProduced(env: Env, crc: bytes -> nat, before: Stores, after: Stores,
      topics: seq<Topic<ProducePart>>, acked: seq<Topic<Ack>>)
  {
    && Paired(topics, acked)
    && (forall i, j :: 0 <= i < |topics| && 0 <= j < |topics[i].parts| ==>
          PartAcked(env, crc, before, topics[i].name, topics[i].parts[j], acked[i].parts[j]))
    && (forall key, chain :: ChainHolds(StoreFor(before, key, env.cfg), chain) ==>
          PartitionGrew(StoreFor(after, key, env.cfg), AllRecs(chain), topics, acked, key))
  }

  lemma StaysPlaced(c: seq<Link>, d: seq<Link>, data: bytes, off: int, pos: int)
    requires GoesOn(c, d) && PlacedAt(c, data, off, pos)
    ensures PlacedAt(d, data, off, pos)
  {
    hide Frames;
    var l, k :| 0 <= l < |c| && 0 <= k < |c[l].recs| && c[l].recs[k] == data && Start(c[l].recs, k) == off
                && c[l].base + off == pos;
    assert c[l].recs == d[l].recs[..|c[l].recs|];
    assert d[l].recs[..k] == c[l].recs[..k] && d[l].recs[k] == data;
  }

  lemma AppendGoesOn(p: PartState, chain: seq<Link>, data: bytes)
    requires chain != []
    ensures GoesOn(chain, ChainAfter(p, chain, data))
  {
    hide PartOffset, HasRoom;
  }

  lemma AppendPlaces(p: PartState, chain: seq<Link>, data: bytes)
    requires chain != [] && ChainHolds(p, chain) && PartOffset(p, data).Some?
    ensures PlacedAt(ChainAfter(p, chain, data), data, PartOffset(p, data).value, |Frames(AllRecs(chain))|)
  {
    hide Frames, Holds, AllRecs, Tiles, ClosedOnDisk, Target;
    AppendKeepsChain(p, chain, data);
    TargetHolds(p, chain, data);
    var t, d := Target(p, data), ChainAfter(p, chain, data);
    var c := if HasRoom(p.active, data) then chain else RolledChain(p, chain);
    var l, k := |c| - 1, |c[|c| - 1].recs|;
    HoldsSize(t.active, c[l].recs);
    assert d[l].recs[..k] == c[l].recs && d[l].recs[k] == data;
  }

  /** Every partition that was open stays open, and none that cannot be opened is. */
  lemma {:induction false} RowOpens(env: Env, crc: bytes -> nat, stores: Stores, bs: seq<Batch>, key: bytes)
    ensures CanOpen(env, StoredAll(env, crc, stores, bs), key) <==> CanOpen(env, stores, key)
    ensures StoreFor(StoredAll(env, crc, stores, bs), key, env.cfg).cfg == StoreFor(stores, key, env.cfg).cfg
  {
    hide Acceptable, PartitionKey, OpenAt, Appended, Target;
    if bs != [] {
      RowOpens(env, crc, stores, bs[..|bs| - 1], key);
      SameCfg(StoreFor(StoredAll(env, crc, stores, bs[..|bs| - 1]), key, env.cfg), bs[|bs| - 1].data);
    }
  }

  /** One batch, seen from one partition. */
  lemma StepGrows(env: Env, crc: bytes -> nat, stores: Stores, b: Batch, key: bytes, c: seq<Link>)
      returns (d: seq<Link>)
    requires ChainHolds(StoreFor(stores, key, env.cfg), c)
    ensures ChainHolds(StoreFor(Stored(env, crc, stores, b), key, env.cfg), d) && GoesOn(c, d)
    ensures var ack := AckFor(env, crc, stores, b);
            if PartitionKey(b.tp) == key && ack.code == 0
            then AllRecs(d) == AllRecs(c) + [b.data] && PlacedAt(d, b.data, ack.baseOffset, |Frames(AllRecs(c))|)
            else AllRecs(d) == AllRecs(c)
  {
    hide Frames, Acceptable, ChainHolds, ChainAfter, AllRecs, PartAppended, PartOffset, PartitionKey, PlacedAt;
    var p := StoreFor(stores, key, env.cfg);
    NonEmpty(p, c);
    d := c;
    if PartitionKey(b.tp) == key && Acceptable(b.data, crc) && CanOpen(env, stores, key) {
      d := ChainAfter(p, c, b.data);
      AppendKeepsChain(p, c, b.data);
      AppendGoesOn(p, c, b.data);
      OffsetFits(p, c, b.data);
      if PartOffset(p, b.data).Some? {
        AppendPlaces(p, c, b.data);
      }
    }
  }

  /** Batch `j` of a topic, seen from one partition; `was` is what the partition held before the topic. */
  ghost predicate RowAckTrue(name: bytes, parts: seq<ProducePart>, acks: seq<Ack>, key: bytes, j: nat,
      was: seq<bytes>, chain: seq<Link>)
    requires |acks| == |parts| && j < |parts|
  {
    acks[j].code == 0 && PartitionKey(TopicPartition(name, parts[j].partition)) == key ==>
      PlacedAt(chain, parts[j].batch, acks[j].baseOffset, |Frames(was + TakenParts(name, parts[..j], acks[..j], key))|)
  }

  /** The first `n` batches of one topic, seen from one partition. */
  lemma {:induction false} RowGrows(env: Env, crc: bytes -> nat, stores: Stores, t: Topic<ProducePart>,
      acks: seq<Ack>, key: bytes, c: seq<Link>, n: nat) returns (d: seq<Link>)
    requires Acks(env, crc, stores, t, acks) && n <= |acks| && ChainHolds(StoreFor(stores, key, env.cfg), c)
    ensures ChainHolds(StoreFor(StoredAll(env, crc, stores, BatchesOf(t)[..n]), key, env.cfg), d) && GoesOn(c, d)
    ensures AllRecs(d) == AllRecs(c) + TakenParts(t.name, t.parts[..n], acks[..n], key)
    ensures forall j :: 0 <= j < n ==> RowAckTrue(t.name, t.parts, acks, key, j, AllRecs(c), d)
    decreases n
  {
    hide Frames, Stored, StoredAll, AckFor, ChainHolds, AllRecs, PartitionKey, PlacedAt, StoreFor;
    if n == 0 {
      NothingStored(env, crc, stores);
      assert AllRecs(c) + [] == AllRecs(c);
      d := c;
    } else {
      var m := n - 1;
      var b := BatchesOf(t)[m];
      var e := RowGrows(env, crc, stores, t, acks, key, c, m);
      StoredMore(env, crc, stores, BatchesOf(t), m);
      d := StepGrows(env, crc, StoredAll(env, crc, stores, BatchesOf(t)[..m]), b, key, e);
      assert t.parts[..n][..m] == t.parts[..m] && acks[..n][..m] == acks[..m];
      TakenStep(t.name, t.parts, acks, key, m, AllRecs(c));
      forall j | 0 <= j < n
        ensures RowAckTrue(t.name, t.parts, acks, key, j, AllRecs(c), d)
      {
        if j < m && acks[j].code == 0 && PartitionKey(TopicPartition(t.name, t.parts[j].partition)) == key {
          assert RowAckTrue(t.name, t.parts, acks, key, j, AllRecs(c), e);
          StaysPlaced(e, d, t.parts[j].batch, acks[j].baseOffset,
                      |Frames(AllRecs(c) + TakenParts(t.name, t.parts[..j], acks[..j], key))|);
        }
      }
    }
  }

  lemma TakenStep(name: bytes, parts: seq<ProducePart>, acks: seq<Ack>, key: bytes, m: nat, was: seq<bytes>)
    requires |acks| == |parts| && m < |parts|
    ensures was + TakenParts(name, parts[..m + 1], acks[..m + 1], key)
            == was + TakenParts(name, parts[..m], acks[..m], key)
               + (if acks[m].code == 0 && PartitionKey(TopicPartition(name, parts[m].partition)) == key
                  then [parts[m].batch] else [])
  {
    hide PartitionKey;
    assert parts[..m + 1][..m] == parts[..m] && acks[..m + 1][..m] == acks[..m];
  }

  /** The answers are those of the handler's loops. */
  ghost predicate Acked(env: Env, crc: bytes -> nat, stores: Stores, topics: seq<Topic<ProducePart>>,
      acked: seq<Topic<Ack>>)
  {
    && |acked| == |topics|
    && forall i :: 0 <= i < |topics| ==>
         && acked[i].name == topics[i].name
         && Acks(env, crc, StoredAll(env, crc, stores, BatchesIn(topics[..i])), topics[i], acked[i].parts)
  }

  lemma AckedPairs(env: Env, crc: bytes -> nat, stores: Stores, topics: seq<Topic<ProducePart>>,
      acked: seq<Topic<Ack>>)
    requires Acked(env, crc, stores, topics, acked)
    ensures Paired(topics, acked)
  {
    hide StoredAll, AckFor, BatchesIn;
  }

  lemma AckedPrefix(env: Env, crc: bytes -> nat, stores: Stores, topics: seq<Topic<ProducePart>>,
      acked: seq<Topic<Ack>>, n: nat)
    requires Acked(env, crc, stores, topics, acked) && n <= |topics|
    ensures Acked(env, crc, stores, topics[..n], acked[..n])
  {
    hide StoredAll, Acks, BatchesIn;
    assert forall i :: 0 <= i < n ==> topics[..n][..i] == topics[..i];
  }

  /** All batches of a request, seen from one partition. */
  lemma {:induction false} TopicsGrow(env: Env, crc: bytes -> nat, stores: Stores, topics: seq<Topic<ProducePart>>,
      acked: seq<Topic<Ack>>, key: bytes, c: seq<Link>) returns (d: seq<Link>)
    requires Paired(topics, acked) && Acked(env, crc, stores, topics, acked)
    requires ChainHolds(StoreFor(stores, key, env.cfg), c)
    ensures ChainHolds(StoreFor(StoredAll(env, crc, stores, BatchesIn(topics)), key, env.cfg), d) && GoesOn(c, d)
    ensures AllRecs(d) == AllRecs(c) + Taken(topics, acked, key)
    ensures forall i, j :: 0 <= i < |topics| && 0 <= j < |topics[i].parts| ==>
              AckTrue(topics, acked, key, i, j, AllRecs(c), d)
    decreases |topics|
  {
    hide Frames, StoredAll, Acks, BatchesOf, BatchesIn, ChainHolds, AllRecs, StoreFor, AckTrue, TakenParts, RowAckTrue;
    if topics == [] {
      NothingStored(env, crc, stores);
      assert AllRecs(c) + [] == AllRecs(c);
      d := c;
    } else {
      var n := |topics| - 1;
      AckedPrefix(env, crc, stores, topics, acked, n);
      var e := TopicsGrow(env, crc, stores, topics[..n], acked[..n], key, c);
      StoredTopicMore(env, crc, stores, topics, n);
      assert topics[..n + 1] == topics;
      var t, acks, m := topics[n], acked[n].parts, |topics[n].parts|;
      d := RowGrows(env, crc, StoredAll(env, crc, stores, BatchesIn(topics[..n])), t, acks, key, e, m);
      assert BatchesOf(t)[..m] == BatchesOf(t) && t.parts[..m] == t.parts && acks[..m] == acks;
      Assoc(AllRecs(c), Taken(topics[..n], acked[..n], key), TakenParts(t.name, t.parts, acks, key));
      forall i, j | 0 <= i < |topics| && 0 <= j < |topics[i].parts|
        ensures AckTrue(topics, acked, key, i, j, AllRecs(c), d)
      {
        if i < n {
          assert AckTrue(topics[..n], acked[..n], key, i, j, AllRecs(c), e);
          AckStaysTrue(topics, acked, key, n, i, j, AllRecs(c), e, d);
        } else {
          assert RowAckTrue(t.name, t.parts, acks, key, j, AllRecs(e), d);
          RowAckIs(topics, acked, key, j, AllRecs(c), AllRecs(e), d);
        }
      }
    }
  }

  lemma AckStaysTrue(topics: seq<Topic<ProducePart>>, acked: seq<Topic<Ack>>, key: bytes, n: nat, i: nat, j: nat,
      was: seq<bytes>, c: seq<Link>, d: seq<Link>)
    requires Paired(topics, acked) && i < n <= |topics| && j < |topics[i].parts| && GoesOn(c, d)
    requires AckTrue(topics[..n], acked[..n], key, i, j, was, c)
    ensures AckTrue(topics, acked, key, i, j, was, d)
  {
    hide Frames, PartitionKey, PlacedAt, Taken, TakenParts, GoesOn;
    assert topics[..n][..i] == topics[..i] && acked[..n][..i] == acked[..i];
    var ack, part := acked[i].parts[j], topics[i].parts[j];
    if ack.code == 0 && PartitionKey(TopicPartition(topics[i].name, part.partition)) == key {
      StaysPlaced(c, d, part.batch, ack.baseOffset, |Frames(was + TakenBefore(topics, acked, key, i, j))|);
    }
  }

  lemma RowAckIs(topics: seq<Topic<ProducePart>>, acked: seq<Topic<Ack>>, key: bytes, j: nat, was: seq<bytes>,
      now: seq<bytes>, d: seq<Link>)
    requires Paired(topics, acked) && topics != []
    requires var n := |topics| - 1;
             && j < |topics[n].parts| && now == was + Taken(topics[..n], acked[..n], key)
             && RowAckTrue(topics[n].name, topics[n].parts, acked[n].parts, key, j, now, d)
    ensures AckTrue(topics, acked, key, |topics| - 1, j, was, d)
  {
    hide Frames, PartitionKey, PlacedAt, Taken, TakenParts;
    var n := |topics| - 1;
    Assoc(was, Taken(topics[..n], acked[..n], key),
          TakenParts(topics[n].name, topics[n].parts[..j], acked[n].parts[..j], key));
  }

  /** The answer for batch `j` of topic `i`. */
  lemma AckIs(env: Env, crc: bytes -> nat, stores: Stores, topics: seq<Topic<ProducePart>>, acked: seq<Topic<Ack>>,
      i: nat, j: nat)
    requires Paired(topics, acked) && Acked(env, crc, stores, topics, acked) && i < |topics| && j < |topics[i].parts|
    ensures PartAcked(env, crc, stores, topics[i].name, topics[i].parts[j], acked[i].parts[j])
  {
    hide Validate, Passes, StoredAll, BatchesIn, ChainHolds, AllRecs, PartitionKey, StoreFor, TakenParts, Taken,
        PartOffset, RowAckTrue, AckTrue, GoesOn;
    var t, part, acks := topics[i], topics[i].parts[j], acked[i].parts;
    var key := PartitionKey(TopicPartition(t.name, part.partition));
    var before := BatchesIn(topics[..i]);
    var s1 := StoredAll(env, crc, stores, before);
    var s2 := StoredAll(env, crc, s1, BatchesOf(t)[..j]);
    assert acks[j] == AckFor(env, crc, s2, BatchesOf(t)[j]);
    ValidIffPasses(part.batch, crc);
    forall c | ChainHolds(StoreFor(stores, key, env.cfg), c)
      ensures acks[j].code == 0 <==> Acceptable(part.batch, crc) && (key in stores || key !in env.failing)
                                     && RoomFor(env, stores, key, part.batch)
    {
      AckedPrefix(env, crc, stores, topics, acked, i);
      var d := TopicsGrow(env, crc, stores, topics[..i], acked[..i], key, c);
      var e := RowGrows(env, crc, s1, t, acks, key, d, j);
      StepCode(env, crc, s2, BatchesOf(t)[j], e);
      RowOpens(env, crc, stores, before, key);
      RowOpens(env, crc, s1, BatchesOf(t)[..j], key);
      CfgOf(env, stores, key);
    }
  }

  lemma CfgOf(env: Env, stores: Stores, key: bytes)
    ensures StoreFor(stores, key, env.cfg).cfg == if key in stores then stores[key].cfg else env.cfg
  {
    hide OpenAt;
  }

  lemma StepCode(env: Env, crc: bytes -> nat, stores: Stores, b: Batch, chain: seq<Link>)
    requires ChainHolds(StoreFor(stores, PartitionKey(b.tp), env.cfg), chain)
    ensures var cfg := StoreFor(stores, PartitionKey(b.tp), env.cfg).cfg;
            AckFor(env, crc, stores, b).code == 0
            <==> Acceptable(b.data, crc) && CanOpen(env, stores, PartitionKey(b.tp))
                 && 4 + |b.data| <= (if cfg > 0 then cfg else 0x4000_0000)
  {
    hide Acceptable, ChainHolds, ChainAfter, AllRecs, PartitionKey, StoreFor, AckFor, Stored, CanOpen, Frames;
    AcknowledgedIffStored(env, crc, stores, b, chain);
  }

  /** The handler answers and stores every batch of a request as it is to. */
  lemma HandledProduces(env: Env, crc: bytes -> nat, stores: Stores, topics: seq<Topic<ProducePart>>,
      acked: seq<Topic<Ack>>)
    requires Acked(env, crc, stores, topics, acked)
    ensures RequestProduced(env, crc, stores, StoredAll(env, crc, stores, BatchesIn(topics)), topics, acked)
  {
    hide Acked, StoredAll, BatchesIn, ChainHolds, AllRecs, StoreFor, Taken, AckTrue, PartAcked, GoesOn, Paired;
    AckedPairs(env, crc, stores, topics, acked);
    PairedCounts(topics, acked);
    forall i, j | 0 <= i < |topics| && 0 <= j < |topics[i].parts|
      ensures PartAcked(env, crc, stores, topics[i].name, topics[i].parts[j], acked[i].parts[j])
    {
      AckIs(env, crc, stores, topics, acked, i, j);
    }
    forall key, c | ChainHolds(StoreFor(stores, key, env.cfg), c)
      ensures PartitionGrew(StoreFor(StoredAll(env, crc, stores, BatchesIn(topics)), key, env.cfg), AllRecs(c), topics,
                            acked, key)
    {
      var d := TopicsGrow(env, crc, stores, topics, acked, key, c);
    }
  }

  lemma PairedCounts(topics: seq<Topic<ProducePart>>, acked: seq<Topic<Ack>>)
    requires Paired(topics, acked)
    ensures |acked| == |topics|
    ensures forall i :: 0 <= i < |topics| ==> |acked[i].parts| == |topics[i].parts|
  {
  }

  /** The bytes a fetch may be served for partition `b` of topic `a`, after what it was served before. */
  ghost function Left(maxBytes: int, fetches: seq<Topic<FetchPart>>, resp: seq<TopicResp>, a: nat, b: nat): int
    requires a < |fetches| == |resp| && b < |fetches[a].parts| == |resp[a].parts|
  {
    var left := maxBytes - BytesOf(resp[..a]) - BytesIn(resp[a].parts[..b]);
    if left < fetches[a].parts[b].maxBytes then left else fetches[a].parts[b].maxBytes
  }

  /**
   * A produce request, then a fetch request: a partition of the fetch that asks for the offset a batch
   * of that partition was acknowledged at is served that batch first, rebased and otherwise unchanged,
   * as long as the batch is still in the active segment and within the budget.
   */
  lemma ProducedIsServed(env: Env, crc: bytes -> nat, before: Stores, after: Stores, topics: seq<Topic<ProducePart>>,
      acked: seq<Topic<Ack>>, i: nat, j: nat, chain: seq<Link>, maxBytes: int, fetches: seq<Topic<FetchPart>>,
      resp: seq<TopicResp>, a: nat, b: nat)
    requires RequestProduced(env, crc, before, after, topics, acked)
    requires i < |topics| && j < |topics[i].parts| && acked[i].parts[j].code == 0 && IsBatch(topics[i].parts[j].batch)
    requires RequestServed(env, after, maxBytes, fetches, resp) && a < |fetches| && b < |fetches[a].parts|
    requires fetches[a].name == topics[i].name && fetches[a].parts[b].partition == topics[i].parts[j].partition
    requires fetches[a].parts[b].fetchOffset == acked[i].parts[j].baseOffset
    requires var key := PartitionKey(TopicPartition(topics[i].name, topics[i].parts[j].partition));
             && ChainHolds(StoreFor(before, key, env.cfg), chain)
             && StoreFor(after, key, env.cfg).base + acked[i].parts[j].baseOffset
                == |Frames(AllRecs(chain) + TakenBefore(topics, acked, key, i, j))|
    requires |topics[i].parts[j].batch| <= Left(maxBytes, fetches, resp, a, b) <= 0x7fff_fffb
    ensures var batch, r := topics[i].parts[j].batch, resp[a].parts[b];
            && r.partition == topics[i].parts[j].partition && r.code == 0 && r.batch.Some?
            && Rebase(batch, acked[i].parts[j].baseOffset + 4 + |batch|) <= r.batch.value
  {
    hide RequestProduced, RequestServed, Holds, AllRecs, PartitionKey, StoreFor, ChainHolds, Rebase, IsBatch,
        TakenBefore, Frames, PlacedAt, LogServed, Left, Start;
    var key := PartitionKey(TopicPartition(topics[i].name, topics[i].parts[j].partition));
    var d := AckedPlace(env, crc, before, after, topics, acked, i, j, chain);
    var k := ActiveRecord(after, key, env.cfg, d, topics[i].parts[j].batch, acked[i].parts[j].baseOffset);
    var recs := d[|d| - 1].recs;
    ServedFromLog(env, after, maxBytes, fetches, resp, a, b, recs);
    ServedFirst(recs, k, fetches[a].parts[b], Left(maxBytes, fetches, resp, a, b), resp[a].parts[b]);
  }

  /** Where an acknowledged batch is. */
  lemma AckedPlace(env: Env, crc: bytes -> nat, before: Stores, after: Stores, topics: seq<Topic<ProducePart>>,
      acked: seq<Topic<Ack>>, i: nat, j: nat, chain: seq<Link>) returns (d: seq<Link>)
    requires RequestProduced(env, crc, before, after, topics, acked)
    requires i < |topics| && j < |topics[i].parts| && acked[i].parts[j].code == 0
    requires ChainHolds(StoreFor(before, PartitionKey(TopicPartition(topics[i].name, topics[i].parts[j].partition)),
                                 env.cfg), chain)
    ensures |acked| == |topics| && |acked[i].parts| == |topics[i].parts|
    ensures var key := PartitionKey(TopicPartition(topics[i].name, topics[i].parts[j].partition));
            && ChainHolds(StoreFor(after, key, env.cfg), d)
            && PlacedAt(d, topics[i].parts[j].batch, acked[i].parts[j].baseOffset,
                        |Frames(AllRecs(chain) + TakenBefore(topics, acked, key, i, j))|)
  {
    hide AllRecs, PartitionKey, StoreFor, ChainHolds, PartAcked, TakenBefore, Taken, Frames, PlacedAt;
    var key := PartitionKey(TopicPartition(topics[i].name, topics[i].parts[j].partition));
    assert PartitionGrew(StoreFor(after, key, env.cfg), AllRecs(chain), topics, acked, key);
    d :| ChainHolds(StoreFor(after, key, env.cfg), d) && AllRecs(d) == AllRecs(chain) + Taken(topics, acked, key)
         && forall x, y :: 0 <= x < |topics| && 0 <= y < |topics[x].parts| ==>
              AckTrue(topics, acked, key, x, y, AllRecs(chain), d);
    assert AckTrue(topics, acked, key, i, j, AllRecs(chain), d);
  }

  lemma ServedFromLog(env: Env, stores: Stores, maxBytes: int, fetches: seq<Topic<FetchPart>>, resp: seq<TopicResp>,
      a: nat, b: nat, recs: seq<bytes>)
    requires RequestServed(env, stores, maxBytes, fetches, resp) && a < |fetches| && b < |fetches[a].parts|
    requires var key := PartitionKey(TopicPartition(fetches[a].name, fetches[a].parts[b].partition));
             key in stores && Holds(stores[key].active, recs)
    ensures |resp| == |fetches| && |resp[a].parts| == |fetches[a].parts|
    ensures LogServed(recs, fetches[a].parts[b], Left(maxBytes, fetches, resp, a, b), resp[a].parts[b])
    ensures resp[a].parts[b].partition == fetches[a].parts[b].partition
  {
    hide PartitionKey, Holds, LogServed, BytesOf, BytesIn;
    assert PartServed(env, stores, maxBytes - BytesOf(resp[..a]) - BytesIn(resp[a].parts[..b]), fetches[a].name,
                      fetches[a].parts[b], resp[a].parts[b]);
  }

  /** A record placed in the active segment is a record of it. */
  lemma ActiveRecord(stores: Stores, key: bytes, cfg: int64, d: seq<Link>, data: bytes, off: int) returns (k: nat)
    requires ChainHolds(StoreFor(stores, key, cfg), d)
    requires PlacedAt(d, data, off, StoreFor(stores, key, cfg).base + off)
    ensures d != [] && k < |d[|d| - 1].recs| && d[|d| - 1].recs[k] == data && Start(d[|d| - 1].recs, k) == off
    ensures key in stores && Holds(stores[key].active, d[|d| - 1].recs)
  {
    hide Frames, Holds, AllRecs, Tiles, OpenAt;
    var p := StoreFor(stores, key, cfg);
    var l, m :| 0 <= l < |d| && 0 <= m < |d[l].recs| && d[l].recs[m] == data && Start(d[l].recs, m) == off
                && d[l].base + off == p.base + off;
    if l < |d| - 1 {
      BasesIncrease(p, d, l);
    }
    k := m;
    HoldsSize(p.active, d[l].recs);
    NewSize(cfg);
  }

  lemma ServedFirst(recs: seq<bytes>, k: nat, req: FetchPart, cap: int, r: PartResp)
    requires k < |recs| && IsBatch(recs[k]) && LogServed(recs, req, cap, r) && req.fetchOffset == Start(recs, k)
    requires |recs[k]| <= cap <= 0x7fff_fffb
    ensures r.code == 0 && r.batch.Some?
    ensures Rebase(recs[k], Start(recs, k) + 4 + |recs[k]|) <= r.batch.value
  {
    hide Frames, Rebase, Total;
    WholeBatch(recs[k]);
    assert RecordServed(recs, k, cap, r);
    FrameAt(recs, k);
  }

  class Producer {
    var stores: Stores

    /**
     * Stores every batch of a request in turn. `crashed` tells that the check of some
     * batch panicked; otherwise every partition is answered, if the client asked for it.
     */
    method HandleProduce(env: Env, crc: bytes -> nat, acks: int16, topics: seq<Topic<ProducePart>>)
      returns (resp: Option<seq<Topic<Ack>>>, crashed: bool, ghost acked: seq<Topic<Ack>>)
      modifies this
      ensures crashed <==> exists i :: 0 <= i < |topics| && TopicCrashes(topics[i])
      ensures !crashed ==> stores == StoredAll(env, crc, old(stores), BatchesIn(topics))
      ensures resp.Some? <==> !crashed && acks != 0
      ensures resp.Some? ==> resp.value == acked
      ensures !crashed ==> Acked(env, crc, old(stores), topics, acked)
      ensures !crashed ==> RequestProduced(env, crc, old(stores), stores, topics, acked)
    {
      hide StoredAll, BatchesIn, BatchesOf, Acks, TopicCrashes, RequestProduced;
      ghost var s0 := stores;
      NothingStored(env, crc, s0);
      var out: seq<Topic<Ack>> := [];
      for i := 0 to |topics|
        invariant stores == StoredAll(env, crc, s0, BatchesIn(topics[..i]))
        invariant |out| == i
        invariant forall k :: 0 <= k < i ==>
                    && out[k].name == topics[k].name
                    && Acks(env, crc, StoredAll(env, crc, s0, BatchesIn(topics[..k])), topics[k], out[k].parts)
        invariant forall k :: 0 <= k < i ==> !TopicCrashes(topics[k])
      {
        StoredTopicMore(env, crc, s0, topics, i);
        var parts;
        parts, crashed := ProduceTopic(env, crc, topics[i]);
        if crashed {
          return None, true, [];
        }
        out := out + [Topic(topics[i].name, parts)];
      }
      assert topics[..|topics|] == topics;
      crashed, acked := false, out;
      HandledProduces(env, crc, s0, topics, out);
      resp := if acks == ACKS_NONE then None else Some(out);
    }

    /** The inner loop over one topic's partitions. */
    method ProduceTopic(env: Env, crc: bytes -> nat, topic: Topic<ProducePart>) returns (resp: seq<Ack>, crashed: bool)
      modifies this
      ensures crashed <==> TopicCrashes(topic)
      ensures !crashed ==> stores == StoredAll(env, crc, old(stores), BatchesOf(topic))
      ensures !crashed ==> Acks(env, crc, old(stores), topic, resp)
    {
      hide StoredAll, Validate, PartAppended, PartOffset, PartitionKey, Get;
      ghost var s0, bs := stores, BatchesOf(topic);
      NothingStored(env, crc, s0);
      resp, crashed := [], false;
      for j := 0 to |topic.parts|
        invariant !crashed
        invariant stores == StoredAll(env, crc, s0, bs[..j])
        invariant |resp| == j
        invariant forall k :: 0 <= k < j ==> resp[k] == AckFor(env, crc, StoredAll(env, crc, s0, bs[..k]), bs[k])
        invariant forall k :: 0 <= k < j ==> !NoRoomForSum(topic.parts[k].batch)
      {
        StoredMore(env, crc, s0, bs, j);
        var part := topic.parts[j];
        var key := PartitionKey(TopicPartition(topic.name, part.partition));
        if |part.batch| > 0 {
          var verdict := Validate(part.batch, crc);
          PanicsIff(part.batch, crc);
          if verdict.Panics? {
            crashed := true;
            return;
          }
          if !verdict.Valid? {
            resp := resp + [Ack(part.partition, ERR_CORRUPT_MESSAGE, -1)];
            continue;
          }
        }
        if key !in stores && key in env.failing {
          resp := resp + [Ack(part.partition, ERR_STORAGE, -1)];
          continue;
        }
        var ps := StoreFor(stores, key, env.cfg);
        var offset := PartOffset(ps, part.batch);
        stores := stores[key := PartAppended(ps, part.batch)];
        if offset == None {
          resp := resp + [Ack(part.partition, ERR_STORAGE, -1)];
        } else {
          resp := resp + [Ack(part.partition, ERR_NONE, ToInt64(offset.value))];
        }
      }
      assert bs[..|bs|] == bs;
    }
  }
}
