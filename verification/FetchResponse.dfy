/** The fetch response frame: a length announced before the bytes it counts are written. */
module FetchResponse {
  import opened Bytes
  import opened Outcomes
  import opened Seqs
  import opened Messages
  import opened Wire
  import opened Encoder
  import opened FetchHandler

  // ------------------------------------------------------------ wire layout

  /** The fixed fields of one partition, in wire order. */
  function EncMeta(p: PartResp): (b: bytes)
    ensures |b| == META
  {
    PutU32(p.partition) + PutU16(p.code) + PutU64(p.highWatermark) + PutU64(p.highWatermark) + PutU32(0)
        + PutU32(p.batchSize)
  }

  const META: nat := 30

  /** The record batch bytes copied out behind the fixed fields. */
  function BatchOf(p: PartResp): bytes {
    if p.batch.Some? && p.batchSize > 0 then p.batch.value else []
  }

  function EncPart(p: PartResp): bytes {
    EncMeta(p) + BatchOf(p)
  }

  /** Everything behind the length prefix. */
  function Payload(correlationID: int32, throttle: int32, topics: seq<TopicResp>): bytes {
    PutU32(correlationID) + (PutU32(throttle) + EncTopics(EncPart, topics))
  }

  // -------------------------------------------------------- announced length

  function SizeOfParts(parts: seq<PartResp>): nat {
    if parts == [] then 0
    else META + (if parts[0].batchSize > 0 then parts[0].batchSize else 0) + SizeOfParts(parts[1..])
  }

  function SizeOfTopics(topics: seq<TopicResp>): nat {
    if topics == [] then 0
    else 2 + |topics[0].name| + 4 + SizeOfParts(topics[0].parts) + SizeOfTopics(topics[1..])
  }

  /** The size predicted from the batch sizes alone, before 32-bit wrap-around. */
  function Predicted(topics: seq<TopicResp>): nat {
    12 + SizeOfTopics(topics)
  }

  function FetchFrame(correlationID: int32, throttle: int32, topics: seq<TopicResp>): bytes {
    PutU32(Predicted(topics)) + Payload(correlationID, throttle, topics)
  }

  /** The reader behind a positive batch size yields exactly that many bytes. */
  predicate ReaderOk(p: PartResp) {
    p.batchSize > 0 ==> p.batch.Some? && |p.batch.value| == p.batchSize
  }

  ghost predicate ReadersOk(topics: seq<TopicResp>) {
    forall i, j :: 0 <= i < |topics| && 0 <= j < |topics[i].parts| ==> ReaderOk(topics[i].parts[j])
  }

  lemma {:induction false} PartsSize(parts: seq<PartResp>)
    requires forall j :: 0 <= j < |parts| ==> ReaderOk(parts[j])
    ensures |EncAll(EncPart, parts)| == SizeOfParts(parts)
  {
    hide EncMeta;
    if parts != [] {
      assert ReaderOk(parts[0]);
      PartsSize(parts[1..]);
    }
  }

  lemma {:induction false} TopicsSize(topics: seq<TopicResp>)
    requires ReadersOk(topics)
    ensures |EncAll(TopicWriter(EncPart), topics)| == SizeOfTopics(topics)
  {
    hide EncAll, SizeOfParts, ReaderOk;
    if topics == [] {
      NoTopics();
    } else {
      PartsSize(topics[0].parts);
      TopicsSize(topics[1..]);
      FirstTopic(topics);
    }
  }

  lemma NoTopics()
    ensures EncAll(TopicWriter(EncPart), []) == []
  {
  }

  lemma FirstTopic(topics: seq<TopicResp>)
    requires topics != []
    ensures EncAll(TopicWriter(EncPart), topics)
            == EncTopic(EncPart, topics[0]) + EncAll(TopicWriter(EncPart), topics[1..])
  {
  }

  /** The predicted size is the length of what is written, for any nesting of topics and partitions. */
  lemma PredictedExact(correlationID: int32, throttle: int32, topics: seq<TopicResp>)
    requires ReadersOk(topics)
    ensures |Payload(correlationID, throttle, topics)| == Predicted(topics)
  {
    hide EncAll, SizeOfTopics, ReadersOk, EncPart, TopicWriter;
    TopicsSize(topics);
  }

  /** The prefix a client reads counts the bytes behind it exactly while they are fewer than 2^31. */
  lemma AnnouncedIff(correlationID: int32, throttle: int32, topics: seq<TopicResp>)
    requires ReadersOk(topics)
    ensures var payload := Payload(correlationID, throttle, topics);
            var prefix := ReadInt32(FetchFrame(correlationID, throttle, topics));
            && prefix.Got? && prefix.rest == payload
            && (prefix.value == |payload| <==> |payload| < TWO31)
  {
    hide Payload, Predicted, ReadersOk, PutU32, ReadInt32;
    PredictedExact(correlationID, throttle, topics);
    var n := Predicted(topics);
    SameU32(n, ToInt32(n));
    Int32Back(ToInt32(n), Payload(correlationID, throttle, topics));
  }

  /** With every other reader exact, the size is exact if and only if this reader is. */
  lemma {:induction false} PartsSizeOff(parts: seq<PartResp>, k: nat)
    requires k < |parts| && forall j :: 0 <= j < |parts| && j != k ==> ReaderOk(parts[j])
    ensures |EncAll(EncPart, parts)| == SizeOfParts(parts) <==> ReaderOk(parts[k])
  {
    hide EncMeta;
    if k == 0 {
      PartsSize(parts[1..]);
    } else {
      assert ReaderOk(parts[0]);
      PartsSizeOff(parts[1..], k - 1);
    }
  }

  /** Every reader but the one of partition `k` of topic `i` is exact. */
  ghost predicate OthersOk(topics: seq<TopicResp>, i: nat, k: nat) {
    forall a, b :: 0 <= a < |topics| && 0 <= b < |topics[a].parts| && (a, b) != (i, k) ==> ReaderOk(topics[a].parts[b])
  }

  lemma {:induction false} TopicsSizeOff(topics: seq<TopicResp>, i: nat, k: nat)
    requires i < |topics| && k < |topics[i].parts| && OthersOk(topics, i, k)
    ensures |EncAll(TopicWriter(EncPart), topics)| == SizeOfTopics(topics) <==> ReaderOk(topics[i].parts[k])
    decreases i
  {
    hide EncAll, SizeOfParts, ReaderOk;
    FirstTopic(topics);
    if i == 0 {
      OthersInTopic(topics, k);
      PartsSizeOff(topics[0].parts, k);
      TopicsSize(topics[1..]);
    } else {
      OthersInRest(topics, i, k);
      PartsSize(topics[0].parts);
      TopicsSizeOff(topics[1..], i - 1, k);
    }
  }

  lemma OthersInTopic(topics: seq<TopicResp>, k: nat)
    requires topics != [] && OthersOk(topics, 0, k)
    ensures forall j :: 0 <= j < |topics[0].parts| && j != k ==> ReaderOk(topics[0].parts[j])
    ensures ReadersOk(topics[1..])
  {
    hide ReaderOk;
  }

  lemma OthersInRest(topics: seq<TopicResp>, i: nat, k: nat)
    requires 0 < i < |topics| && OthersOk(topics, i, k)
    ensures forall j :: 0 <= j < |topics[0].parts| ==> ReaderOk(topics[0].parts[j])
    ensures OthersOk(topics[1..], i - 1, k)
  {
    hide ReaderOk;
    forall a, b | 0 <= a < |topics[1..]| && 0 <= b < |topics[1..][a].parts| && (a, b) != (i - 1, k)
      ensures ReaderOk(topics[1..][a].parts[b])
    {
      assert topics[1..][a] == topics[a + 1];
    }
  }

  /**
   * With every other reader of the response exact, the frame is as long as predicted if and
   * only if this one yields the bytes it announces.
   */
  lemma PredictedOff(correlationID: int32, throttle: int32, topics: seq<TopicResp>, i: nat, k: nat)
    requires i < |topics| && k < |topics[i].parts| && OthersOk(topics, i, k)
    ensures |Payload(correlationID, throttle, topics)| == Predicted(topics) <==> ReaderOk(topics[i].parts[k])
  {
    hide EncAll, SizeOfTopics, OthersOk, EncPart, TopicWriter, ReaderOk;
    TopicsSizeOff(topics, i, k);
  }

  // ------------------------------------------------------- reading it back

  /**
   * A client reading one partition in the documented layout. The last stable offset
   * equals the high watermark and no transaction is aborted, or the reply is refused.
   */
  function ReadPart(s: bytes): Parsed<PartResp> {
    var (partition, s1) :- ReadInt32(s);
    var (code, s2) :- ReadInt16(s1);
    var (highWatermark, s3) :- ReadInt64(s2);
    var (lastStable, s4) :- ReadInt64(s3);
    var (aborted, s5) :- ReadInt32(s4);
    var (batchSize, s6) :- ReadInt32(s5);
    var (batch, s7) :- ReadBytes(batchSize, s6);
    if lastStable != highWatermark || aborted != 0 then Failed
    else Got(PartResp(partition, code, highWatermark, batchSize, if batchSize == -1 then None else Some(batch)), s7)
  }

  datatype Response = Response(size: int32, correlationID: int32, throttle: int32, topics: seq<TopicResp>)

  function ReadFetchResponse(s: bytes): Parsed<Response> {
    var (size, s1) :- ReadInt32(s);
    var (correlationID, s2) :- ReadInt32(s1);
    var (throttle, s3) :- ReadInt32(s2);
    var (topics, s4) :- ReadTopics(Unchecked, ReadPart, s3);
    Got(Response(size, correlationID, throttle, topics), s4)
  }

  /** Size -1 stands for no batch; any other size is the batch's own length. */
  predicate PartOk(p: PartResp) {
    && -TWO63 <= p.highWatermark < TWO63
    && p.batchSize == (if p.batch.None? then -1 else |p.batch.value|)
  }

  ghost predicate ResponseOk(topics: seq<TopicResp>) {
    && |topics| < TWO31
    && forall i :: 0 <= i < |topics| ==> TopicRespOk(topics[i])
  }

  ghost predicate TopicRespOk(t: TopicResp) {
    StrOk(t.name) && |t.parts| < TWO31 && forall j :: 0 <= j < |t.parts| ==> PartOk(t.parts[j])
  }

  lemma BatchBack(p: PartResp, rest: bytes)
    requires PartOk(p)
    ensures ReadBytes(p.batchSize, BatchOf(p) + rest) == Got(if p.batch.None? then [] else p.batch.value, rest)
  {
    if p.batchSize > 0 {
      assert (BatchOf(p) + rest)[..p.batchSize] == BatchOf(p);
      assert (BatchOf(p) + rest)[p.batchSize..] == rest;
    } else {
      assert BatchOf(p) + rest == rest;
    }
  }

  lemma MetaSplits(p: PartResp, rest: bytes)
    ensures EncMeta(p) + rest
            == PutU32(p.partition) + (PutU16(p.code) + (PutU64(p.highWatermark) + (PutU64(p.highWatermark)
               + (PutU32(0) + (PutU32(p.batchSize) + rest)))))
  {
    hide PutU16, PutU32, PutU64;
  }

  lemma PartBack(p: PartResp, rest: bytes)
    requires PartOk(p)
    ensures ReadPart(EncPart(p) + rest) == Got(p, rest)
  {
    hide ReadInt16, ReadInt32, ReadInt64, ReadBytes, PutU16, PutU32, PutU64, EncMeta, BatchOf;
    var t := BatchOf(p) + rest;
    Assoc(EncMeta(p), BatchOf(p), rest);
    MetaSplits(p, t);
    PrimitivesBack();
    BatchBack(p, rest);
  }

  lemma PartReadsBack(p: PartResp)
    requires PartOk(p)
    ensures ReadsBack(ReadPart, EncPart, p)
  {
    hide ReadPart, EncPart, PartOk;
    forall rest
      ensures ReadPart(EncPart(p) + rest) == Got(p, rest)
    {
      PartBack(p, rest);
    }
  }

  lemma TopicRespReadsBack(t: TopicResp)
    requires TopicRespOk(t)
    ensures TopicOk(Unchecked, ReadPart, EncPart, t)
  {
    hide ReadPart, EncPart, PartOk, ReadsBack;
    forall j | 0 <= j < |t.parts|
      ensures ReadsBack(ReadPart, EncPart, t.parts[j])
    {
      PartReadsBack(t.parts[j]);
    }
  }

  lemma {:induction false} OkReaders(topics: seq<TopicResp>)
    requires ResponseOk(topics)
    ensures ReadersOk(topics)
  {
    forall i, j | 0 <= i < |topics| && 0 <= j < |topics[i].parts|
      ensures ReaderOk(topics[i].parts[j])
    {
      assert TopicRespOk(topics[i]);
    }
  }

  /** Decoding the frame in the documented layout gives the response back and ends where the frame ends. */
  lemma ResponseRoundTrip(correlationID: int32, throttle: int32, topics: seq<TopicResp>, rest: bytes)
    requires ResponseOk(topics)
    ensures ReadFetchResponse(FetchFrame(correlationID, throttle, topics) + rest)
            == Got(Response(ToInt32(Predicted(topics)), correlationID, throttle, topics), rest)
  {
    hide ReadInt32, PutU32, ReadTopics, EncTopics, TopicOk, ToInt32, Predicted;
    var n := ToInt32(Predicted(topics));
    SameU32(Predicted(topics), n);
    var ts := EncTopics(EncPart, topics);
    assert FetchFrame(correlationID, throttle, topics) + rest
        == PutU32(n) + (PutU32(correlationID) + (PutU32(throttle) + (ts + rest)));
    Int32Back(n, PutU32(correlationID) + (PutU32(throttle) + (ts + rest)));
    Int32Back(correlationID, PutU32(throttle) + (ts + rest));
    Int32Back(throttle, ts + rest);
    forall i | 0 <= i < |topics|
      ensures TopicOk(Unchecked, ReadPart, EncPart, topics[i])
    {
      TopicRespReadsBack(topics[i]);
    }
    TopicsBack(Unchecked, ReadPart, EncPart, topics, rest);
  }

  // ------------------------------------------------ what the handler answers

  /** Every answer of the fetch handler can be written and read back. */
  lemma AnswerOk(env: Env, s: FetchState, item: Item)
    requires SizesFit(s.stores)
    ensures PartOk(Answer(env, s, item))
  {
    hide WindowFor, KeyOf, Fetched;
    AnswerBound(env, s, item);
  }

  /** A request the parser can deliver: names behind 16-bit lengths, counts in 32 bits. */
  ghost predicate Deliverable(topics: seq<Topic<FetchPart>>) {
    |topics| < TWO31 && forall i :: 0 <= i < |topics| ==> StrOk(topics[i].name) && |topics[i].parts| < TWO31
  }

  lemma HandledTopicOk(env: Env, s: FetchState, topics: seq<Topic<FetchPart>>, resp: seq<TopicResp>, i: nat)
    requires SizesFit(s.stores) && Deliverable(topics) && Handled(env, s, topics, resp) && i < |topics|
    ensures TopicRespOk(resp[i])
  {
    hide SizesFit, FetchedAll, AllItems, PartOk, Answer, ItemsOf;
    var s1 := FetchedAll(env, s, AllItems(topics[..i]));
    BudgetConserved(env, s, AllItems(topics[..i]));
    var parts, items := resp[i].parts, ItemsOf(topics[i]);
    assert Answers(env, s1, topics[i], parts);
    forall j | 0 <= j < |parts|
      ensures PartOk(parts[j])
    {
      BudgetConserved(env, s1, items[..j]);
      AnswerOk(env, FetchedAll(env, s1, items[..j]), items[j]);
    }
  }

  /**
   * The frame written for what the handler answered: a client reads back that answer
   * and stops at the frame's end, and the announced length is right below 2^31.
   */
  lemma HandledFrame(env: Env, s: FetchState, topics: seq<Topic<FetchPart>>, resp: seq<TopicResp>, correlationID: int32,
      rest: bytes)
    requires SizesFit(s.stores) && Deliverable(topics) && Handled(env, s, topics, resp)
    ensures var n := |Payload(correlationID, 0, resp)|;
            ReadFetchResponse(FetchFrame(correlationID, 0, resp) + rest)
            == Got(Response(ToInt32(n), correlationID, 0, resp), rest)
            && (ToInt32(n) == n <==> n < TWO31)
  {
    hide Payload, FetchFrame, ReadFetchResponse, Handled, Predicted, ReadersOk, TopicRespOk;
    assert |resp| == |topics| by { HandledCount(env, s, topics, resp); }
    forall i | 0 <= i < |resp|
      ensures TopicRespOk(resp[i])
    {
      HandledTopicOk(env, s, topics, resp, i);
    }
    OkReaders(resp);
    PredictedExact(correlationID, 0, resp);
    ResponseRoundTrip(correlationID, 0, resp, rest);
  }

  lemma HandledCount(env: Env, s: FetchState, topics: seq<Topic<FetchPart>>, resp: seq<TopicResp>)
    requires Handled(env, s, topics, resp)
    ensures |resp| == |topics|
  {
    hide Answers, FetchedAll, AllItems;
  }

  // ------------------------------------------------------------- the writer

  lemma BorrowedByte(q: int, m: int)
    ensures (q - 256 * m) % 256 == q % 256
  {
    assert (q - 256 * m) % 256 == (q % 256 - 256 * m % 256) % 256;
  }

  /** A negative integer and its two's complement pattern agree on every byte. */
  lemma SignedBytes(v: int32, w: nat)
    requires v == w || v == w - TWO32
    ensures v / 0x100_0000 % 256 == w / 0x100_0000 % 256
    ensures v / 0x1_0000 % 256 == w / 0x1_0000 % 256
    ensures v / 0x100 % 256 == w / 0x100 % 256
    ensures v % 256 == w % 256
  {
    if v != w {
      BorrowedByte(w / 0x100_0000, 1);
      BorrowedByte(w / 0x1_0000, 0x100);
      BorrowedByte(w / 0x100, 0x1_0000);
      BorrowedByte(w, 0x100_0000);
    }
  }

  /** The four bytes of a 32-bit integer, taken by arithmetic shifts. */
  lemma ShiftedBytes(v: int32)
    ensures PutU32(v) == [v / 0x100_0000 % 256, v / 0x1_0000 % 256, v / 0x100 % 256, v % 256]
  {
    hide Put, Get;
    var w := v % TWO32;
    assert v == w || v == w - TWO32;
    PutFour(w);
    SignedBytes(v, w);
  }

  /** 32-bit addition: what was lost to an earlier wrap does not matter later. */
  lemma WrapsOnce(a: int, b: int, c: int)
    requires a % TWO32 == b % TWO32
    ensures ToInt32(a + c) == ToInt32(b + c)
  {
  }

  /** The inner loop of the size computation, adding to `before`. */
  method PredictParts(parts: seq<PartResp>, before: int32) returns (total: int32)
    ensures total == ToInt32(before + SizeOfParts(parts))
  {
    hide ToInt32;
    total := before;
    ghost var sum: int := before;
    assert total == ToInt32(sum) by { Unwrapped(before); }
    for j := 0 to |parts|
      invariant total == ToInt32(sum) && sum + SizeOfParts(parts[j..]) == before + SizeOfParts(parts)
    {
      assert parts[j..][1..] == parts[j + 1..];
      WrapsOnce(total, sum, META);
      total := ToInt32(total + META);
      sum := sum + META;
      if parts[j].batchSize > 0 {
        WrapsOnce(total, sum, parts[j].batchSize);
        total := ToInt32(total + parts[j].batchSize);
        sum := sum + parts[j].batchSize;
      }
    }
  }

  lemma Unwrapped(v: int32)
    ensures ToInt32(v) == v
  {
  }

  /** The size, summed in 32 bits over the nested loops before anything is written. */
  method PredictSize(topics: seq<TopicResp>) returns (total: int32)
    ensures total == ToInt32(Predicted(topics))
  {
    hide ToInt32, SizeOfParts;
    total := 12;
    ghost var sum := 12;
    Unwrapped(12);
    for i := 0 to |topics|
      invariant total == ToInt32(sum) && sum + SizeOfTopics(topics[i..]) == Predicted(topics)
    {
      var n := |topics[i].name|;
      assert topics[i..][1..] == topics[i + 1..];
      WrapsOnce(ToInt32(2 + n + 4), 2 + n + 4, total);
      WrapsOnce(total, sum, 2 + n + 4);
      total := ToInt32(total + ToInt32(2 + n + 4));
      sum := sum + (2 + n + 4);
      WrapsOnce(total, sum, SizeOfParts(topics[i].parts));
      sum := sum + SizeOfParts(topics[i].parts);
      total := PredictParts(topics[i].parts, total);
    }
  }

  method WritePartition(p: PartResp) returns (w: bytes)
    ensures w == EncPart(p)
  {
    hide PutU16, PutU32, PutU64;
    var partEnc := new Encoder();
    partEnc.WriteInt32(p.partition);
    partEnc.WriteInt16(p.code);
    SameU64(p.highWatermark, ToInt64(p.highWatermark));
    partEnc.WriteInt64(ToInt64(p.highWatermark));
    partEnc.WriteInt64(ToInt64(p.highWatermark));
    partEnc.WriteInt32(0);
    partEnc.WriteInt32(p.batchSize);
    w := partEnc.buffer;
    if p.batch.Some? && p.batchSize > 0 {
      w := w + p.batch.value;
    }
  }

  method WriteTopic(t: TopicResp) returns (w: bytes)
    ensures w == EncTopic(EncPart, t)
  {
    hide EncPart, PutU32, EncStr;
    var topicEnc := new Encoder();
    topicEnc.WriteString(t.name);
    SameU32(|t.parts|, ToInt32(|t.parts|));
    topicEnc.WriteInt32(ToInt32(|t.parts|));
    w := topicEnc.buffer;
    ghost var head := w;
    for j := 0 to |t.parts|
      invariant w + EncAll(EncPart, t.parts[j..]) == head + EncAll(EncPart, t.parts)
    {
      var part := WritePartition(t.parts[j]);
      assert t.parts[j..][1..] == t.parts[j + 1..];
      Assoc(w, part, EncAll(EncPart, t.parts[j + 1..]));
      w := w + part;
    }
    assert t.parts[|t.parts|..] == [] && w + [] == w;
    Assoc(EncStr(t.name), PutU32(|t.parts|), EncAll(EncPart, t.parts));
  }

  /** The whole frame: length, header, then each topic with its batches in place. */
  method WriteFetchResponse(correlationID: int32, throttle: int32, topics: seq<TopicResp>) returns (w: bytes)
    ensures w == FetchFrame(correlationID, throttle, topics)
  {
    hide PutU32, Predicted, EncTopic;
    var total := PredictSize(topics);
    ShiftedBytes(total);
    w := [total / 0x100_0000 % 256, total / 0x1_0000 % 256, total / 0x100 % 256, total % 256];
    SameU32(Predicted(topics), total);

    var hdr := new Encoder();
    hdr.WriteInt32(correlationID);
    hdr.WriteInt32(throttle);
    SameU32(|topics|, ToInt32(|topics|));
    hdr.WriteInt32(ToInt32(|topics|));
    w := w + hdr.buffer;
    ghost var head := w;
    var e := TopicWriter(EncPart);
    for i := 0 to |topics|
      invariant w + EncAll(e, topics[i..]) == head + EncAll(e, topics)
    {
      var topic := WriteTopic(topics[i]);
      assert topics[i..][1..] == topics[i + 1..];
      Assoc(w, topic, EncAll(e, topics[i + 1..]));
      w := w + topic;
    }
    assert topics[|topics|..] == [] && w + [] == w;
    FrameSplits(correlationID, throttle, topics);
  }

  lemma FrameSplits(correlationID: int32, throttle: int32, topics: seq<TopicResp>)
    ensures FetchFrame(correlationID, throttle, topics)
            == PutU32(Predicted(topics)) + (PutU32(correlationID) + PutU32(throttle) + PutU32(|topics|))
               + EncAll(TopicWriter(EncPart), topics)
  {
    hide PutU32, Predicted, EncAll, TopicWriter;
    var c, t, n, all := PutU32(correlationID), PutU32(throttle), PutU32(|topics|), EncAll(TopicWriter(EncPart), topics);
    Assoc(c, t, n + all);
    Assoc(c + t, n, all);
    Assoc(PutU32(Predicted(topics)), c + t + n, all);
  }
}
