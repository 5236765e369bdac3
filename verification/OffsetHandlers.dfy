/** The handlers for consumer offsets: commit, fetch, and the load at startup. */
module OffsetHandlers {
  import opened Bytes
  import opened Outcomes
  import opened Seqs
  import opened RecordLog
  import opened Segments
  import opened Partitions
  import opened OffsetRecords
  import opened Messages
  import opened Names

  const MAX_INT32: int := 0x7fff_ffff
  const OFFSET_UNKNOWN: int64 := -1

  /** The partition that holds the commits: "__consumer_offsets", 0. */
  const OFFSETS: TopicPartition := TopicPartition(
    [95, 95, 99, 111, 110, 115, 117, 109, 101, 114, 95, 111, 102, 102, 115, 101, 116, 115], 0)

  datatype PartCode = PartCode(partition: int32, code: int16)
  datatype PartOffsetResp = PartOffsetResp(partition: int32, offset: int64)

  /** The offsets partition and the cache. */
  datatype OffsetState = OffsetState(part: PartState, cache: Cache)

  /** Append the record; cache the offset only when the append took it. */
  function Committed(s: OffsetState, c: Commit): OffsetState {
    var rec := RecordBytes(c);
    OffsetState(PartAppended(s.part, rec),
                if PartOffset(s.part, rec).Some? then s.cache[c.key := c.offset] else s.cache)
  }

  /** A commit the handler is asked for, and whether the offsets partition opens when it comes to it. */
  datatype Attempt = Attempt(c: Commit, opens: bool)

  function Tried(s: OffsetState, a: Attempt): OffsetState {
    if a.opens then Committed(s, a.c) else s
  }

  function CodeOf(s: OffsetState, a: Attempt): int16 {
    if a.opens && PartOffset(s.part, RecordBytes(a.c)).Some? then 0 else 1
  }

  function CommittedAll(s: OffsetState, cs: seq<Attempt>): OffsetState {
    if cs == [] then s else Tried(CommittedAll(s, cs[..|cs| - 1]), cs[|cs| - 1])
  }

  /** The commits one topic of a request asks for, in the order the handler makes them. */
  function CommitsOf(group: bytes, topic: Topic<CommitPart>, opens: nat -> bool): (r: seq<Attempt>)
    ensures |r| == |topic.parts|
  {
    seq(|topic.parts|, j requires 0 <= j < |topic.parts| =>
      Attempt(Commit(OffsetKey(group, topic.name, topic.parts[j].partition), topic.parts[j].offset), opens(j)))
  }

  /** Whether the partition opens for each commit of topic `i`. */
  function ForTopic(opens: (nat, nat) -> bool, i: nat): nat -> bool {
    (j: nat) => opens(i, j)
  }

  function AllCommits(group: bytes, topics: seq<Topic<CommitPart>>, opens: (nat, nat) -> bool): seq<Attempt> {
    if topics == [] then []
    else
      var n := |topics| - 1;
      AllCommits(group, topics[..n], opens) + CommitsOf(group, topics[n], ForTopic(opens, n))
  }

  /** The partition holds the chain, and the cache is the replay of all its records. */
  ghost predicate Agrees(s: OffsetState, chain: seq<Link>) {
    chain != [] && ChainHolds(s.part, chain) && s.cache == Replay(map[], AllRecs(chain))
  }

  /** A commit, stored in place, stored after a rollover or refused, keeps cache and partition in agreement. */
  lemma CommitKeepsAgreement(s: OffsetState, chain: seq<Link>, c: Commit)
    requires Agrees(s, chain) && FitsKey(c.key)
    ensures Agrees(Committed(s, c), ChainAfter(s.part, chain, RecordBytes(c)))
  {
    hide ChainHolds, RecordBytes, Decode, PartAppended, PartOffset, AllRecs, ChainAfter;
    var recs, rec := AllRecs(chain), RecordBytes(c);
    AppendKeepsChain(s.part, chain, rec);
    RecordRoundTrip(c);
    assert (recs + [rec])[..|recs|] == recs;
  }

  /**
   * Producers can write to the offsets partition too. A produced batch keeps the agreement
   * exactly when it is refused, or means nothing to a replay: it does not decode, or decodes
   * to what the cache already says.
   */
  lemma ProduceAgreesIff(s: OffsetState, chain: seq<Link>, batch: bytes)
    requires Agrees(s, chain)
    ensures var after := s.(part := PartAppended(s.part, batch));
            Agrees(after, ChainAfter(s.part, chain, batch))
            <==> PartOffset(s.part, batch).None? || Apply(s.cache, batch) == s.cache
  {
    hide ChainHolds, Apply, PartAppended, PartOffset, AllRecs, ChainAfter;
    AppendKeepsChain(s.part, chain, batch);
    ReplayMore(map[], AllRecs(chain), batch);
  }

  function ChainAll(s: OffsetState, chain: seq<Link>, cs: seq<Attempt>): (r: seq<Link>)
    requires chain != []
    ensures r != []
  {
    if cs == [] then chain
    else
      var n := |cs| - 1;
      var before := ChainAll(s, chain, cs[..n]);
      if cs[n].opens then ChainAfter(CommittedAll(s, cs[..n]).part, before, RecordBytes(cs[n].c)) else before
  }

  /** Any row of commits keeps the agreement, whichever of them find the partition open. */
  lemma {:induction false} CommitsKeepAgreement(s: OffsetState, chain: seq<Link>, cs: seq<Attempt>)
    requires Agrees(s, chain) && forall i :: 0 <= i < |cs| ==> FitsKey(cs[i].c.key)
    ensures Agrees(CommittedAll(s, cs), ChainAll(s, chain, cs))
  {
    hide ChainHolds, AllRecs, Replay, Committed, ChainAfter, RecordBytes, FitsKey;
    if cs != [] {
      var n := |cs| - 1;
      CommitsKeepAgreement(s, chain, cs[..n]);
      CommitKeepsAgreement(CommittedAll(s, cs[..n]), ChainAll(s, chain, cs[..n]), cs[n].c);
    }
  }

  lemma {:induction false} CommitsConcat(s: OffsetState, a: seq<Attempt>, b: seq<Attempt>)
    ensures CommittedAll(s, a + b) == CommittedAll(CommittedAll(s, a), b)
  {
    hide Tried;
    if b == [] {
      assert a + b == a;
    } else {
      CommitsConcat(s, a, b[..|b| - 1]);
      assert (a + b)[..|a + b| - 1] == a + b[..|b| - 1];
    }
  }

  lemma CommittedMore(s: OffsetState, cs: seq<Attempt>, j: nat)
    requires j < |cs|
    ensures CommittedAll(s, cs[..j + 1]) == Tried(CommittedAll(s, cs[..j]), cs[j])
  {
    hide Tried;
    assert cs[..j + 1][..j] == cs[..j];
  }

  lemma CommittedTopicMore(s: OffsetState, group: bytes, topics: seq<Topic<CommitPart>>, opens: (nat, nat) -> bool,
      i: nat)
    requires i < |topics|
    ensures CommittedAll(s, AllCommits(group, topics[..i + 1], opens))
            == CommittedAll(CommittedAll(s, AllCommits(group, topics[..i], opens)),
                            CommitsOf(group, topics[i], ForTopic(opens, i)))
  {
    hide CommittedAll, CommitsOf, ForTopic;
    assert topics[..i + 1][..i] == topics[..i];
    CommitsConcat(s, AllCommits(group, topics[..i], opens), CommitsOf(group, topics[i], ForTopic(opens, i)));
  }

  lemma NoCommits(s: OffsetState, group: bytes, opens: (nat, nat) -> bool)
    ensures CommittedAll(s, []) == s
    ensures AllCommits(group, [], opens) == []
  {
  }

  // -------------------------------------------- the outcome, from the request

  /** Every partition of the request has its answer, in its place. */
  ghost predicate Paired(topics: seq<Topic<CommitPart>>, resp: seq<Topic<PartCode>>) {
    && |resp| == |topics|
    && forall i :: 0 <= i < |topics| ==> resp[i].name == topics[i].name && |resp[i].parts| == |topics[i].parts|
  }

  /** The offset of the last commit of the row for `key` that was answered without error. */
  function LastPart(group: bytes, name: bytes, parts: seq<CommitPart>, codes: seq<PartCode>, key: OffsetKey):
      Option<int64>
    requires |codes| == |parts|
  {
    if parts == [] then None
    else
      var n := |parts| - 1;
      if codes[n].code == 0 && OffsetKey(group, name, parts[n].partition) == key then Some(parts[n].offset)
      else LastPart(group, name, parts[..n], codes[..n], key)
  }

  ghost function LastCommit(group: bytes, topics: seq<Topic<CommitPart>>, resp: seq<Topic<PartCode>>, key: OffsetKey):
      Option<int64>
    requires Paired(topics, resp)
  {
    if topics == [] then None
    else
      var n := |topics| - 1;
      var last := LastPart(group, topics[n].name, topics[n].parts, resp[n].parts, key);
      if last.Some? then last else LastCommit(group, topics[..n], resp[..n], key)
  }

  /** The records of the commits of the row that were answered without error, in order. */
  function RowRecords(group: bytes, name: bytes, parts: seq<CommitPart>, codes: seq<PartCode>): seq<bytes>
    requires |codes| == |parts|
  {
    if parts == [] then []
    else
      var n := |parts| - 1;
      RowRecords(group, name, parts[..n], codes[..n])
      + (if codes[n].code == 0 then [RecordBytes(Commit(OffsetKey(group, name, parts[n].partition), parts[n].offset))]
         else [])
  }

  ghost function CommitRecords(group: bytes, topics: seq<Topic<CommitPart>>, resp: seq<Topic<PartCode>>): seq<bytes>
    requires Paired(topics, resp)
  {
    if topics == [] then []
    else
      var n := |topics| - 1;
      CommitRecords(group, topics[..n], resp[..n]) + RowRecords(group, topics[n].name, topics[n].parts, resp[n].parts)
  }

  /** The entry of `key` is the last offset committed for it, and what it was if there is none. */
  ghost predicate EntryIs(after: Cache, before: Cache, key: OffsetKey, last: Option<int64>) {
    match last
    case Some(v) => key in after && after[key] == v
    case None => (key in after <==> key in before) && (key in before ==> after[key] == before[key])
  }

  /** The answer for one partition: 0 exactly when the offsets partition opens and takes the record. */
  ghost predicate PartCommitted(opens: bool, group: bytes, before: PartState, name: bytes, part: CommitPart,
      r: PartCode)
  {
    var size := |RecordBytes(Commit(OffsetKey(group, name, part.partition), part.offset))|;
    && r.partition == part.partition && (r.code == 0 || r.code == 1)
    && (!opens ==> r.code == 1)
    && (forall chain :: ChainHolds(before, chain) ==>
          (r.code == 0 <==> opens && 4 + size <= (if before.cfg > 0 then before.cfg else 0x4000_0000)))
  }

  /** The partition holds a chain that adds exactly `more` to the records `was`. */
  ghost predicate HoldsAfter(p: PartState, was: seq<bytes>, more: seq<bytes>) {
    exists chain :: ChainHolds(p, chain) && AllRecs(chain) == was + more
  }

  /** What a commit request is to be answered, and what it is to leave in the cache and in the partition. */
  ghost predicate RequestCommitted(opens: (nat, nat) -> bool, group: bytes, before: OffsetState, after: OffsetState,
      topics: seq<Topic<CommitPart>>, resp: seq<Topic<PartCode>>)
  {
    && Paired(topics, resp)
    && (forall i, j :: 0 <= i < |topics| && 0 <= j < |topics[i].parts| ==>
          PartCommitted(opens(i, j), group, before.part, topics[i].name, topics[i].parts[j], resp[i].parts[j]))
    && (forall key :: EntryIs(after.cache, before.cache, key, LastCommit(group, topics, resp, key)))
    && (forall chain :: ChainHolds(before.part, chain) ==>
          HoldsAfter(after.part, AllRecs(chain), CommitRecords(group, topics, resp)))
  }

  /** What a fetch request is to be answered from the cache: -1 for a key it does not have. */
  ghost predicate RequestAnswered(cache: Cache, group: bytes, topics: seq<Topic<int32>>,
      resp: seq<Topic<PartOffsetResp>>)
  {
    && |resp| == |topics|
    && (forall i :: 0 <= i < |topics| ==> resp[i].name == topics[i].name && |resp[i].parts| == |topics[i].parts|)
    && (forall i, j :: 0 <= i < |topics| && 0 <= j < |topics[i].parts| ==>
          PartAnswered(cache, OffsetKey(group, topics[i].name, topics[i].parts[j]), resp[i].parts[j]))
  }

  ghost predicate PartAnswered(cache: Cache, key: OffsetKey, r: PartOffsetResp) {
    r.partition == key.partition && r.offset == if key in cache then cache[key] else -1
  }

  /** The first `n` commits of one topic, seen from one key. */
  lemma {:induction false} RowEntry(s: OffsetState, group: bytes, t: Topic<CommitPart>, opens: nat -> bool,
      codes: seq<PartCode>, key: OffsetKey, n: nat)
    requires CodesOf(s, t, CommitsOf(group, t, opens), codes) && n <= |codes|
    ensures EntryIs(CommittedAll(s, CommitsOf(group, t, opens)[..n]).cache, s.cache, key,
                    LastPart(group, t.name, t.parts[..n], codes[..n], key))
    decreases n
  {
    hide RecordBytes, PartAppended, PartOffset, CommittedAll;
    var cs := CommitsOf(group, t, opens);
    if n == 0 {
      assert CommittedAll(s, cs[..0]) == s by { NoCommits(s, group, (i, j) => true); }
    } else {
      var m := n - 1;
      RowEntry(s, group, t, opens, codes, key, m);
      CommittedMore(s, cs, m);
      assert t.parts[..n][..m] == t.parts[..m] && codes[..n][..m] == codes[..m];
    }
  }

  lemma RowEntryAll(s: OffsetState, group: bytes, t: Topic<CommitPart>, opens: nat -> bool, codes: seq<PartCode>,
      key: OffsetKey)
    requires CodesOf(s, t, CommitsOf(group, t, opens), codes)
    ensures |codes| == |t.parts|
    ensures EntryIs(CommittedAll(s, CommitsOf(group, t, opens)).cache, s.cache, key,
                    LastPart(group, t.name, t.parts, codes, key))
  {
    hide CommittedAll, EntryIs, LastPart, CodeOf;
    var n, cs := |codes|, CommitsOf(group, t, opens);
    RowEntry(s, group, t, opens, codes, key, n);
    assert cs[..n] == cs && t.parts[..n] == t.parts && codes[..n] == codes;
  }

  /** The first `n` commits of one topic, seen from the offsets partition. */
  lemma {:induction false} RowStores(s: OffsetState, group: bytes, t: Topic<CommitPart>, opens: nat -> bool,
      codes: seq<PartCode>, chain: seq<Link>, n: nat) returns (d: seq<Link>)
    requires CodesOf(s, t, CommitsOf(group, t, opens), codes) && n <= |codes| && ChainHolds(s.part, chain)
    ensures ChainHolds(CommittedAll(s, CommitsOf(group, t, opens)[..n]).part, d)
    ensures CommittedAll(s, CommitsOf(group, t, opens)[..n]).part.cfg == s.part.cfg
    ensures AllRecs(d) == AllRecs(chain) + RowRecords(group, t.name, t.parts[..n], codes[..n])
    decreases n
  {
    hide RecordBytes, ChainHolds, ChainAfter, AllRecs, PartAppended, PartOffset, CommittedAll;
    var cs := CommitsOf(group, t, opens);
    if n == 0 {
      assert CommittedAll(s, cs[..0]) == s by { NoCommits(s, group, (i, j) => true); }
      assert AllRecs(chain) + [] == AllRecs(chain);
      d := chain;
    } else {
      var m := n - 1;
      d := RowStores(s, group, t, opens, codes, chain, m);
      var p, rec := CommittedAll(s, cs[..m]).part, RecordBytes(cs[m].c);
      CommittedMore(s, cs, m);
      assert t.parts[..n][..m] == t.parts[..m] && codes[..n][..m] == codes[..m];
      Assoc(AllRecs(chain), RowRecords(group, t.name, t.parts[..m], codes[..m]), [rec]);
      if cs[m].opens {
        NonEmpty(p, d);
        AppendKeepsChain(p, d, rec);
        SameCfg(p, rec);
        d := ChainAfter(p, d, rec);
      }
      assert AllRecs(chain) + (RowRecords(group, t.name, t.parts[..m], codes[..m]) + [])
             == AllRecs(chain) + RowRecords(group, t.name, t.parts[..m], codes[..m]);
    }
  }

  /** The answers are those of the handler's loops. */
  ghost predicate Coded(opens: (nat, nat) -> bool, group: bytes, s: OffsetState, topics: seq<Topic<CommitPart>>,
      resp: seq<Topic<PartCode>>)
  {
    && |resp| == |topics|
    && forall i :: 0 <= i < |topics| ==>
         && resp[i].name == topics[i].name
         && CodesOf(CommittedAll(s, AllCommits(group, topics[..i], opens)), topics[i],
                    CommitsOf(group, topics[i], ForTopic(opens, i)), resp[i].parts)
  }

  lemma CodedPairs(opens: (nat, nat) -> bool, group: bytes, s: OffsetState, topics: seq<Topic<CommitPart>>,
      resp: seq<Topic<PartCode>>)
    requires Coded(opens, group, s, topics, resp)
    ensures Paired(topics, resp)
  {
    hide CommittedAll, AllCommits, CodeOf;
  }

  lemma CodedPrefix(opens: (nat, nat) -> bool, group: bytes, s: OffsetState, topics: seq<Topic<CommitPart>>,
      resp: seq<Topic<PartCode>>, n: nat)
    requires Coded(opens, group, s, topics, resp) && n <= |topics|
    ensures Coded(opens, group, s, topics[..n], resp[..n])
  {
    hide CommittedAll, AllCommits, CodesOf, CommitsOf, ForTopic;
    assert forall i :: 0 <= i < n ==> topics[..n][..i] == topics[..i];
  }

  lemma {:induction false} TopicsEntry(opens: (nat, nat) -> bool, group: bytes, s: OffsetState,
      topics: seq<Topic<CommitPart>>, resp: seq<Topic<PartCode>>, key: OffsetKey)
    requires Paired(topics, resp) && Coded(opens, group, s, topics, resp)
    ensures EntryIs(CommittedAll(s, AllCommits(group, topics, opens)).cache, s.cache, key,
                    LastCommit(group, topics, resp, key))
    decreases |topics|
  {
    hide CommittedAll, AllCommits, CodesOf, CommitsOf, ForTopic, LastPart;
    NoCommits(s, group, opens);
    if topics != [] {
      var n := |topics| - 1;
      CodedPrefix(opens, group, s, topics, resp, n);
      TopicsEntry(opens, group, s, topics[..n], resp[..n], key);
      CommittedTopicMore(s, group, topics, opens, n);
      assert topics[..n + 1] == topics;
      RowEntryAll(CommittedAll(s, AllCommits(group, topics[..n], opens)), group, topics[n], ForTopic(opens, n),
                  resp[n].parts, key);
    }
  }

  lemma {:induction false} TopicsStore(opens: (nat, nat) -> bool, group: bytes, s: OffsetState,
      topics: seq<Topic<CommitPart>>, resp: seq<Topic<PartCode>>, chain: seq<Link>) returns (d: seq<Link>)
    requires Paired(topics, resp) && Coded(opens, group, s, topics, resp) && ChainHolds(s.part, chain)
    ensures ChainHolds(CommittedAll(s, AllCommits(group, topics, opens)).part, d)
    ensures CommittedAll(s, AllCommits(group, topics, opens)).part.cfg == s.part.cfg
    ensures AllRecs(d) == AllRecs(chain) + CommitRecords(group, topics, resp)
    decreases |topics|
  {
    hide CommittedAll, AllCommits, CodesOf, CommitsOf, ForTopic, RowRecords, ChainHolds, AllRecs;
    NoCommits(s, group, opens);
    if topics == [] {
      assert AllRecs(chain) + [] == AllRecs(chain);
      d := chain;
    } else {
      var n := |topics| - 1;
      CodedPrefix(opens, group, s, topics, resp, n);
      var e := TopicsStore(opens, group, s, topics[..n], resp[..n], chain);
      CommittedTopicMore(s, group, topics, opens, n);
      assert topics[..n + 1] == topics;
      var t, codes, m := topics[n], resp[n].parts, |topics[n].parts|;
      d := RowStores(CommittedAll(s, AllCommits(group, topics[..n], opens)), group, t, ForTopic(opens, n), codes, e, m);
      var cs := CommitsOf(group, t, ForTopic(opens, n));
      assert cs[..m] == cs && t.parts[..m] == t.parts && codes[..m] == codes;
      Assoc(AllRecs(chain), CommitRecords(group, topics[..n], resp[..n]),
            RowRecords(group, t.name, t.parts, codes));
    }
  }

  /** The answer for partition `j` of topic `i`. */
  lemma CodeIs(opens: (nat, nat) -> bool, group: bytes, s: OffsetState, topics: seq<Topic<CommitPart>>,
      resp: seq<Topic<PartCode>>, i: nat, j: nat)
    requires Paired(topics, resp) && Coded(opens, group, s, topics, resp) && i < |topics| && j < |topics[i].parts|
    ensures PartCommitted(opens(i, j), group, s.part, topics[i].name, topics[i].parts[j], resp[i].parts[j])
  {
    hide RecordBytes, CommittedAll, AllCommits, ChainHolds, AllRecs, PartOffset, RowRecords, CommitRecords;
    var t, codes, op := topics[i], resp[i].parts, ForTopic(opens, i);
    var cs := CommitsOf(group, t, op);
    var s1 := CommittedAll(s, AllCommits(group, topics[..i], opens));
    var p, rec := CommittedAll(s1, cs[..j]).part, RecordBytes(cs[j].c);
    assert codes[j] == PartCode(t.parts[j].partition, CodeOf(CommittedAll(s1, cs[..j]), cs[j]));
    forall chain | ChainHolds(s.part, chain)
      ensures PartOffset(p, rec).Some? <==> 4 + |rec| <= (if s.part.cfg > 0 then s.part.cfg else 0x4000_0000)
    {
      CodedPrefix(opens, group, s, topics, resp, i);
      var d := TopicsStore(opens, group, s, topics[..i], resp[..i], chain);
      var e := RowStores(s1, group, t, op, codes, d, j);
      RefusedIffOversize(p, e, rec);
    }
  }

  /** The handler answers and stores every commit of a request as it is to. */
  lemma HandledCommits(opens: (nat, nat) -> bool, group: bytes, s: OffsetState, topics: seq<Topic<CommitPart>>,
      resp: seq<Topic<PartCode>>)
    requires Coded(opens, group, s, topics, resp)
    ensures RequestCommitted(opens, group, s, CommittedAll(s, AllCommits(group, topics, opens)), topics, resp)
  {
    hide Coded, CommittedAll, AllCommits, ChainHolds, AllRecs, CommitRecords, LastCommit, PartCommitted, EntryIs;
    CodedPairs(opens, group, s, topics, resp);
    forall i, j | 0 <= i < |topics| && 0 <= j < |topics[i].parts|
      ensures PartCommitted(opens(i, j), group, s.part, topics[i].name, topics[i].parts[j], resp[i].parts[j])
    {
      CodeIs(opens, group, s, topics, resp, i, j);
    }
    forall key: OffsetKey
      ensures EntryIs(CommittedAll(s, AllCommits(group, topics, opens)).cache, s.cache, key,
                      LastCommit(group, topics, resp, key))
    {
      TopicsEntry(opens, group, s, topics, resp, key);
    }
    forall chain | ChainHolds(s.part, chain)
      ensures HoldsAfter(CommittedAll(s, AllCommits(group, topics, opens)).part, AllRecs(chain),
                         CommitRecords(group, topics, resp))
    {
      var d := TopicsStore(opens, group, s, topics, resp, chain);
    }
  }

  /** Part `y` of topic `x` is for the same key as part `j` of topic `i`. */
  predicate SamePart(topics: seq<Topic<CommitPart>>, i: nat, j: nat, x: nat, y: nat)
    requires i < |topics| && j < |topics[i].parts| && x < |topics| && y < |topics[x].parts|
  {
    topics[x].name == topics[i].name && topics[x].parts[y].partition == topics[i].parts[j].partition
  }

  lemma {:induction false} LastPartIs(group: bytes, name: bytes, parts: seq<CommitPart>, codes: seq<PartCode>,
      key: OffsetKey, j: nat)
    requires |codes| == |parts| && j < |parts|
    requires codes[j].code == 0 && OffsetKey(group, name, parts[j].partition) == key
    requires forall y :: j < y < |parts| ==> OffsetKey(group, name, parts[y].partition) != key
    ensures LastPart(group, name, parts, codes, key) == Some(parts[j].offset)
    decreases |parts|
  {
    var n := |parts| - 1;
    if j < n {
      assert OffsetKey(group, name, parts[n].partition) != key;
      LastPartIs(group, name, parts[..n], codes[..n], key, j);
    }
  }

  lemma {:induction false} NoPart(group: bytes, name: bytes, parts: seq<CommitPart>, codes: seq<PartCode>,
      key: OffsetKey)
    requires |codes| == |parts|
    requires forall y :: 0 <= y < |parts| ==> OffsetKey(group, name, parts[y].partition) != key
    ensures LastPart(group, name, parts, codes, key) == None
    decreases |parts|
  {
    if parts != [] {
      var n := |parts| - 1;
      assert OffsetKey(group, name, parts[n].partition) != key;
      NoPart(group, name, parts[..n], codes[..n], key);
    }
  }

  lemma {:induction false} LastCommitIs(group: bytes, topics: seq<Topic<CommitPart>>, resp: seq<Topic<PartCode>>,
      i: nat, j: nat)
    requires Paired(topics, resp) && i < |topics| && j < |topics[i].parts| && resp[i].parts[j].code == 0
    requires forall x, y :: 0 <= x < |topics| && 0 <= y < |topics[x].parts| && (i < x || (i == x && j < y)) ==>
               !SamePart(topics, i, j, x, y)
    ensures LastCommit(group, topics, resp, OffsetKey(group, topics[i].name, topics[i].parts[j].partition))
            == Some(topics[i].parts[j].offset)
    decreases |topics|
  {
    hide LastPart;
    var n, key := |topics| - 1, OffsetKey(group, topics[i].name, topics[i].parts[j].partition);
    if i == n {
      forall y | j < y < |topics[n].parts|
        ensures OffsetKey(group, topics[n].name, topics[n].parts[y].partition) != key
      {
        assert !SamePart(topics, i, j, n, y);
      }
      LastPartIs(group, topics[n].name, topics[n].parts, resp[n].parts, key, j);
    } else {
      forall y | 0 <= y < |topics[n].parts|
        ensures OffsetKey(group, topics[n].name, topics[n].parts[y].partition) != key
      {
        assert !SamePart(topics, i, j, n, y);
      }
      NoPart(group, topics[n].name, topics[n].parts, resp[n].parts, key);
      forall x, y | 0 <= x < n && 0 <= y < |topics[..n][x].parts| && (i < x || (i == x && j < y))
        ensures !SamePart(topics[..n], i, j, x, y)
      {
        assert !SamePart(topics, i, j, x, y);
      }
      LastCommitIs(group, topics[..n], resp[..n], i, j);
    }
  }

  /** No part of the request is for `key`. */
  ghost predicate Unnamed(group: bytes, topics: seq<Topic<CommitPart>>, key: OffsetKey) {
    forall x, y :: 0 <= x < |topics| && 0 <= y < |topics[x].parts| ==>
      group != key.group || topics[x].name != key.topic || topics[x].parts[y].partition != key.partition
  }

  lemma {:induction false} NoCommit(group: bytes, topics: seq<Topic<CommitPart>>, resp: seq<Topic<PartCode>>,
      key: OffsetKey)
    requires Paired(topics, resp) && Unnamed(group, topics, key)
    ensures LastCommit(group, topics, resp, key) == None
    decreases |topics|
  {
    hide LastPart;
    if topics != [] {
      var n := |topics| - 1;
      NoPart(group, topics[n].name, topics[n].parts, resp[n].parts, key);
      NoCommit(group, topics[..n], resp[..n], key);
    }
  }

  /**
   * A commit request, then a fetch request of the same group: a partition whose commit was answered
   * without error, and that no later part of the request commits again, is answered with its offset.
   */
  lemma CommitThenFetch(opens: (nat, nat) -> bool, group: bytes, before: OffsetState, after: OffsetState,
      topics: seq<Topic<CommitPart>>, resp: seq<Topic<PartCode>>, i: nat, j: nat, fetches: seq<Topic<int32>>,
      answers: seq<Topic<PartOffsetResp>>, a: nat, b: nat)
    requires RequestCommitted(opens, group, before, after, topics, resp)
    requires RequestAnswered(after.cache, group, fetches, answers)
    requires i < |topics| && j < |topics[i].parts| && resp[i].parts[j].code == 0
    requires forall x, y :: 0 <= x < |topics| && 0 <= y < |topics[x].parts| && (i < x || (i == x && j < y)) ==>
               !SamePart(topics, i, j, x, y)
    requires a < |fetches| && b < |fetches[a].parts|
    requires fetches[a].name == topics[i].name && fetches[a].parts[b] == topics[i].parts[j].partition
    ensures answers[a].parts[b] == PartOffsetResp(topics[i].parts[j].partition, topics[i].parts[j].offset)
  {
    hide LastCommit, PartCommitted, HoldsAfter;
    var key := OffsetKey(group, topics[i].name, topics[i].parts[j].partition);
    LastCommitIs(group, topics, resp, i, j);
    assert EntryIs(after.cache, before.cache, key, LastCommit(group, topics, resp, key));
    assert PartAnswered(after.cache, key, answers[a].parts[b]);
  }

  /** What a request does not name, or commits for another group, is answered as before. */
  lemma CommitLeavesOthers(opens: (nat, nat) -> bool, group: bytes, before: OffsetState, after: OffsetState,
      topics: seq<Topic<CommitPart>>, resp: seq<Topic<PartCode>>, other: bytes, fetches: seq<Topic<int32>>,
      was: seq<Topic<PartOffsetResp>>, answers: seq<Topic<PartOffsetResp>>, a: nat, b: nat)
    requires RequestCommitted(opens, group, before, after, topics, resp)
    requires RequestAnswered(before.cache, other, fetches, was) && RequestAnswered(after.cache, other, fetches, answers)
    requires a < |fetches| && b < |fetches[a].parts|
    requires Unnamed(group, topics, OffsetKey(other, fetches[a].name, fetches[a].parts[b]))
    ensures answers[a].parts[b] == was[a].parts[b]
  {
    hide LastCommit, PartCommitted, HoldsAfter, Unnamed;
    var key := OffsetKey(other, fetches[a].name, fetches[a].parts[b]);
    NoCommit(group, topics, resp, key);
    assert EntryIs(after.cache, before.cache, key, LastCommit(group, topics, resp, key));
    assert PartAnswered(after.cache, key, answers[a].parts[b]) && PartAnswered(before.cache, key, was[a].parts[b]);
  }

  class OffsetManager {
    var offsetCache: Cache
    var offsets: PartState

    ghost function State(): OffsetState
      reads this
    {
      OffsetState(offsets, offsetCache)
    }

    /**
     * Commits every partition of the request in turn. A refused append is reported and not
     * cached, and so is a commit that does not find the offsets partition open.
     */
    method HandleOffsetCommit(opens: (nat, nat) -> bool, group: bytes, topics: seq<Topic<CommitPart>>)
      returns (resp: seq<Topic<PartCode>>)
      modifies this
      ensures State() == CommittedAll(old(State()), AllCommits(group, topics, opens))
      ensures Coded(opens, group, old(State()), topics, resp)
      ensures RequestCommitted(opens, group, old(State()), State(), topics, resp)
    {
      hide RequestCommitted, CommittedAll, CommitsOf, AllCommits, CodesOf, ForTopic;
      ghost var s0 := State();
      NoCommits(s0, group, opens);
      resp := [];
      for i := 0 to |topics|
        invariant State() == CommittedAll(s0, AllCommits(group, topics[..i], opens))
        invariant |resp| == i
        invariant forall k :: 0 <= k < i ==>
                    && resp[k].name == topics[k].name
                    && CodesOf(CommittedAll(s0, AllCommits(group, topics[..k], opens)), topics[k],
                               CommitsOf(group, topics[k], ForTopic(opens, k)), resp[k].parts)
      {
        CommittedTopicMore(s0, group, topics, opens, i);
        var parts := CommitTopicParts(ForTopic(opens, i), group, topics[i]);
        resp := resp + [Topic(topics[i].name, parts)];
      }
      assert topics[..|topics|] == topics;
      HandledCommits(opens, group, s0, topics, resp);
    }

    /** The inner loop over one topic's partitions. */
    method CommitTopicParts(opens: nat -> bool, group: bytes, topic: Topic<CommitPart>) returns (resp: seq<PartCode>)
      modifies this
      ensures State() == CommittedAll(old(State()), CommitsOf(group, topic, opens))
      ensures CodesOf(old(State()), topic, CommitsOf(group, topic, opens), resp)
    {
      hide RecordBytes, PartAppended, PartOffset, CommittedAll;
      ghost var s0 := State();
      ghost var cs := CommitsOf(group, topic, opens);
      assert CommittedAll(s0, cs[..0]) == s0 by { NoCommits(s0, group, (i, j) => true); }
      resp := [];
      for j := 0 to |topic.parts|
        invariant State() == CommittedAll(s0, cs[..j])
        invariant |resp| == j
        invariant forall k :: 0 <= k < j ==>
                    resp[k] == PartCode(topic.parts[k].partition, CodeOf(CommittedAll(s0, cs[..k]), cs[k]))
      {
        var part := topic.parts[j];
        var c := Commit(OffsetKey(group, topic.name, part.partition), part.offset);
        CommittedMore(s0, cs, j);
        var record := RecordBytes(c);
        if !opens(j) {
          resp := resp + [PartCode(part.partition, 1)];
          continue;
        }
        var offset := PartOffset(offsets, record);
        offsets := PartAppended(offsets, record);
        if offset == None {
          resp := resp + [PartCode(part.partition, 1)];
          continue;
        }
        offsetCache := offsetCache[c.key := part.offset];
        resp := resp + [PartCode(part.partition, 0)];
      }
      assert cs[..|cs|] == cs;
    }

    /** Answers from the cache alone; -1 stands for a key never committed. */
    method HandleOffsetFetch(group: bytes, topics: seq<Topic<int32>>) returns (resp: seq<Topic<PartOffsetResp>>)
      ensures RequestAnswered(offsetCache, group, topics, resp)
    {
      resp := [];
      for i := 0 to |topics|
        invariant RequestAnswered(offsetCache, group, topics[..i], resp)
      {
        var parts := [];
        for j := 0 to |topics[i].parts|
          invariant |parts| == j
          invariant forall k :: 0 <= k < j ==>
                      PartAnswered(offsetCache, OffsetKey(group, topics[i].name, topics[i].parts[k]), parts[k])
        {
          var key := OffsetKey(group, topics[i].name, topics[i].parts[j]);
          var offset := OFFSET_UNKNOWN;
          if key in offsetCache {
            offset := offsetCache[key];
          }
          parts := parts + [PartOffsetResp(topics[i].parts[j], offset)];
        }
        resp := resp + [Topic(topics[i].name, parts)];
      }
      assert topics[..|topics|] == topics;
    }

    /**
     * Rebuilds the cache from the offsets segment, reading at most 2^31 - 1 bytes
     * of it; `ok` is false when the last record read is cut off in its body.
     */
    method LoadOffsetsCache() returns (ok: bool)
      requires offsets.active.size == |offsets.active.file| + |offsets.active.buf| < TWO63
      modifies this
      ensures (offsetCache, ok) == Hydrate(old(offsetCache), LoadWindow(old(offsets.active)))
      ensures forall recs :: Holds(old(offsets.active), recs) && Fits(recs) ==>
                LoadedFrom(recs, old(offsetCache), offsetCache, ok)
      ensures offsets == old(offsets).(active := Visible(old(offsets.active)))
    {
      LoadsRecords(offsets.active, offsetCache);
      hide Hydrate, PartRead, LoadedFrom;
      var size := offsets.active.size;
      if size == 0 {
        HydrateNothing(offsetCache);
        return true;
      }
      var maxBytes: int32 := if size > MAX_INT32 then MAX_INT32 else size;
      var r := PartRead(offsets.active, 0, maxBytes);
      PartReadServes(offsets.active, 0, maxBytes);
      offsets := offsets.(active := Visible(offsets.active));
      var data := offsets.active.file[r.value.off..r.value.off + r.value.n];
      assert data == LoadWindow(old(offsets.active));
      ok := ReplayRecords(data);
    }

    /** The loop over the records of the window. */
    method ReplayRecords(data: bytes) returns (ok: bool)
      modifies `offsetCache
      ensures (offsetCache, ok) == Hydrate(old(offsetCache), data)
    {
      hide GetU32, Apply;
      ghost var c0 := offsetCache;
      var pos := 0;
      assert data[0..] == data;
      while true
        invariant 0 <= pos <= |data|
        invariant Hydrate(c0, data) == Hydrate(offsetCache, data[pos..])
        decreases |data| - pos
      {
        if pos + HEADER > |data| {
          break;
        }
        assert data[pos..][..HEADER] == data[pos..pos + HEADER];
        var recLen := GetU32(data[pos..pos + HEADER]);
        pos := pos + HEADER;
        if pos + recLen > |data| {
          return false;
        }
        var rec := data[pos..pos + recLen];
        assert data[pos - HEADER..][HEADER..HEADER + recLen] == rec;
        assert data[pos - HEADER..][HEADER + recLen..] == data[pos + recLen..];
        pos := pos + recLen;
        ApplyIs(offsetCache, rec);
        var c := DecodeOffsetRecord(rec);
        if c == None {
          continue;
        }
        offsetCache := offsetCache[c.value.key := c.value.offset];
      }
      return true;
    }
  }

  lemma HydrateNothing(cache: Cache)
    ensures Hydrate(cache, []) == (cache, true)
  {
  }

  lemma ApplyIs(cache: Cache, rec: bytes)
    ensures Decode(rec).None? ==> Apply(cache, rec) == cache
    ensures Decode(rec).Some? ==> Apply(cache, rec) == cache[Decode(rec).value.key := Decode(rec).value.offset]
  {
  }

  /** Partition `k` of the topic is answered with the outcome of its own commit. */
  ghost predicate CodesOf(s: OffsetState, topic: Topic<CommitPart>, cs: seq<Attempt>, codes: seq<PartCode>) {
    && |codes| == |topic.parts| == |cs|
    && forall k :: 0 <= k < |codes| ==>
         codes[k] == PartCode(topic.parts[k].partition, CodeOf(CommittedAll(s, cs[..k]), cs[k]))
  }

  /** The bytes the load looks at. */
  function LoadWindow(s: SegState): bytes {
    Loadable(s.file + s.buf)
  }

  function Loadable(log: bytes): bytes {
    if |log| > MAX_INT32 then log[..MAX_INT32] else log
  }

  /** The load restores the replay of every record of a segment of at most 2^31 - 1 bytes. */
  lemma LoadIsReplay(s: SegState, recs: seq<bytes>, cache: Cache)
    requires Holds(s, recs) && s.size <= 0x7fff_ffff
    ensures Hydrate(cache, LoadWindow(s)) == (Replay(cache, recs), true)
  {
    hide Frames, IndexHolds, Hydrate;
    SmallLogFits(recs);
    HydrateLog(cache, recs);
  }

  /** The record in which position `w` of the log lies. */
  lemma {:induction false} RecordUnder(recs: seq<bytes>, w: nat, j: nat) returns (i: nat)
    requires 0 < j <= |recs| && w < Start(recs, j)
    ensures i < j && Start(recs, i) <= w < Start(recs, i + 1)
    decreases j
  {
    hide Frames;
    EmptyLog();
    assert recs[..0] == [];
    if Start(recs, j - 1) <= w {
      i := j - 1;
    } else {
      i := RecordUnder(recs, w, j - 1);
    }
  }

  /** What a load makes of the first 2^31 - 1 bytes of a longer log. */
  lemma HydratePrefix(recs: seq<bytes>, cache: Cache) returns (i: nat)
    requires Fits(recs) && |Frames(recs)| > MAX_INT32
    ensures i < |recs| && Start(recs, i) <= MAX_INT32 < Start(recs, i + 1)
    ensures Hydrate(cache, Frames(recs)[..MAX_INT32]) == (Replay(cache, recs[..i]), MAX_INT32 - Start(recs, i) < HEADER)
  {
    hide Frames, Hydrate;
    EmptyLog();
    assert recs[..|recs|] == recs;
    i := RecordUnder(recs, MAX_INT32, |recs|);
    HydrateWindow(cache, recs, i, MAX_INT32);
  }

  /**
   * The load of a longer segment replays the records that end within 2^31 - 1 bytes, and
   * fails exactly when the header of the next one does too.
   */
  lemma LoadIsPrefix(s: SegState, recs: seq<bytes>, cache: Cache) returns (i: nat)
    requires Holds(s, recs) && Fits(recs) && s.size > 0x7fff_ffff
    ensures i < |recs| && Start(recs, i) <= 0x7fff_ffff < Start(recs, i + 1)
    ensures Hydrate(cache, LoadWindow(s)) == (Replay(cache, recs[..i]), 0x7fff_ffff - Start(recs, i) < 4)
  {
    hide Frames, IndexHolds, Hydrate;
    i := HydratePrefix(recs, cache);
  }

  /**
   * A load of the log of `recs` takes in all of them when they are at most 2^31 - 1 bytes, and
   * otherwise those that end within as many; it fails when it has the header of a record and not its end.
   */
  ghost predicate LoadedFrom(recs: seq<bytes>, before: Cache, after: Cache, ok: bool) {
    if |Frames(recs)| <= 0x7fff_ffff then after == Replay(before, recs) && ok
    else
      exists i :: 0 <= i < |recs| && Start(recs, i) <= 0x7fff_ffff < Start(recs, i + 1)
                  && after == Replay(before, recs[..i]) && (ok <==> 0x7fff_ffff < Start(recs, i) + 4)
  }

  lemma LoadsRecords(s: SegState, cache: Cache)
    ensures forall recs :: Holds(s, recs) && Fits(recs) ==>
              LoadedFrom(recs, cache, Hydrate(cache, LoadWindow(s)).0, Hydrate(cache, LoadWindow(s)).1)
  {
    hide Frames, IndexHolds, Hydrate, Replay, LoadWindow;
    forall recs | Holds(s, recs) && Fits(recs)
      ensures LoadedFrom(recs, cache, Hydrate(cache, LoadWindow(s)).0, Hydrate(cache, LoadWindow(s)).1)
    {
      if s.size <= 0x7fff_ffff {
        LoadIsReplay(s, recs, cache);
      } else {
        var i := LoadIsPrefix(s, recs, cache);
      }
    }
  }

  /** The cache a clean restart loads from the reopened offsets partition. */
  function Restarted(p: PartState, cfg: int64): Cache {
    Hydrate(map[], LoadWindow(PartReopened(p, cfg).active)).0
  }

  lemma {:induction false} FirstIsPrefix(chain: seq<Link>, j: nat)
    requires 1 <= j <= |chain|
    ensures chain[0].recs <= AllRecs(chain[..j])
  {
    if j == 1 {
      assert AllRecs(chain[..1]) == AllRecs([]) + chain[0].recs;
    } else {
      FirstIsPrefix(chain, j - 1);
      assert chain[..j][..j - 1] == chain[..j - 1];
    }
  }

  /** The records of the segments behind the first. */
  ghost function LaterRecs(chain: seq<Link>): (r: seq<bytes>)
    requires chain != []
    ensures AllRecs(chain) == chain[0].recs + r
  {
    FirstIsPrefix(chain, |chain|);
    assert chain[..|chain|] == chain;
    AllRecs(chain)[|chain[0].recs|..]
  }

  /**
   * A clean restart opens the first segment of the offsets partition only and loads the
   * replay of its records. A key keeps its cached offset through the restart if and only
   * if no later segment sets it, or the last that does sets what the first segment left.
   */
  lemma RestartLoads(s: OffsetState, chain: seq<Link>, cfg: int64, k: OffsetKey)
    requires Agrees(s, chain) && PartReopened(s.part, cfg).active.size <= MAX_INT32
    ensures var restored, last := Restarted(s.part, cfg), LastSet(LaterRecs(chain), k);
            && restored == Replay(map[], chain[0].recs)
            && (SameEntry(restored, s.cache, k) <==>
                  last.None? || (k in restored && restored[k] == last.value))
  {
    hide ChainHolds, AllRecs, Hydrate, LoadWindow, PartReopened, Replay, Holds, LastSet;
    ReopenServesFirstSegment(s.part, chain, cfg);
    LoadIsReplay(PartReopened(s.part, cfg).active, chain[0].recs, map[]);
    ReplaySets(map[], chain[0].recs, LaterRecs(chain), k);
  }

  /**
   * So a first commit of a key that makes the partition roll over is answered from the
   * cache until the next restart, and is forgotten by it.
   */
  lemma RolloverForgets(s: OffsetState, chain: seq<Link>, c: Commit, cfg: int64)
    requires Agrees(s, chain) && FitsKey(c.key) && c.key !in s.cache
    requires !HasRoom(s.part.active, RecordBytes(c)) && HEADER + |RecordBytes(c)| <= EffectiveMax(s.part.cfg)
    requires s.part.active.size > 0
    requires PartReopened(Committed(s, c).part, cfg).active.size <= MAX_INT32
    ensures c.key in Committed(s, c).cache && c.key !in Restarted(Committed(s, c).part, cfg)
  {
    hide ChainHolds, RecordBytes, Decode, PartAppended, AllRecs, Replay, EffectiveMax, Restarted, LastSet;
    var rec := RecordBytes(c);
    var chain' := ChainAfter(s.part, chain, rec);
    RefusedIffOversize(s.part, chain, rec);
    assert chain'[0] == chain[0];
    CommitKeepsAgreement(s, chain, c);
    RestartLoads(Committed(s, c), chain', cfg, c.key);
    ReplaySets(map[], chain[0].recs, LaterRecs(chain), c.key);
  }
}
