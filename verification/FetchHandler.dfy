/** Fetch: serving stored batches back through a byte budget, with their offsets rewritten for the client. */
module FetchHandler {
  import opened Bytes
  import opened Outcomes
  import opened Seqs
  import opened RecordLog
  import opened Segments
  import opened Partitions
  import opened RecordBatches
  import opened Names
  import opened Messages

  const ERR_NONE: int16 := 0
  const ERR_OFFSET_OUT_OF_RANGE: int16 := 1

  datatype PartResp = PartResp(partition: int32, code: int16, highWatermark: int, batchSize: int32,
      batch: Option<bytes>)
  type TopicResp = Topic<PartResp>

  type Stores = map<bytes, PartState>

  /** The partitions, and the bytes of the budget not yet spent. */
  datatype FetchState = FetchState(stores: Stores, remaining: int32)

  /** One partition of a request, with its topic. */
  datatype Item = Item(topic: bytes, req: FetchPart)

  /** What the environment decides: the segment size for new partitions, and the keys that cannot be opened. */
  datatype Env = Env(cfg: int64, failing: set<bytes>)

  function KeyOf(item: Item): bytes {
    PartitionKey(TopicPartition(item.topic, item.req.partition))
  }

  /** The bytes a partition may be served: its own limit, or what is left of the budget. */
  function Cap(req: FetchPart, remaining: int32): int32 {
    if remaining < req.maxBytes then remaining else req.maxBytes
  }

  /** A cap to which the record header can be added in 32 bits. */
  const MAX_CAP: int := 0x7fff_fffb

  /** Whether the handler gets as far as reading the segment, and the read is granted. */
  predicate ReadGranted(s: SegState, req: FetchPart, remaining: int32) {
    var cap := Cap(req, remaining);
    && req.fetchOffset < s.size && cap > 0
    && PartRead(s, req.fetchOffset % TWO64, ToInt32(cap + RECORD_HEADER)).Ok?
  }

  /** The bytes behind a served partition, record header included; `None` also when the window lies outside the file. */
  function WindowFor(s: SegState, req: FetchPart, remaining: int32): Option<bytes> {
    var cap := Cap(req, remaining);
    if !ReadGranted(s, req, remaining) then None
    else
      var w := PartRead(s, req.fetchOffset % TWO64, ToInt32(cap + RECORD_HEADER)).value;
      if 0 <= w.off <= w.off + w.n <= |s.file + s.buf| then Some((s.file + s.buf)[w.off..w.off + w.n]) else None
  }

  /**
   * The answer when the high watermark was taken from `size` and the read finds the active
   * segment to be `s`: the handler takes the lock for each, and an append or a rollover may
   * come between.
   */
  function ServeSplit(size: nat, s: SegState, req: FetchPart, remaining: int32): PartResp {
    var empty := PartResp(req.partition, ERR_NONE, size, -1, None);
    if req.fetchOffset == size then empty
    else if req.fetchOffset > size then empty.(code := ERR_OFFSET_OUT_OF_RANGE)
    else if Cap(req, remaining) <= 0 then empty
    else
      match WindowFor(s, req, remaining)
      case None => empty.(code := ERR_OFFSET_OUT_OF_RANGE)
      case Some(raw) =>
        if |raw| < RECORD_HEADER then empty.(code := ERR_OFFSET_OUT_OF_RANGE)
        else
          var payload := Patch(raw[RECORD_HEADER..], req.fetchOffset);
          empty.(batchSize := ToInt32(|payload|), batch := Some(payload))
  }

  /** The answer with nothing in between. */
  function ServePart(s: SegState, req: FetchPart, remaining: int32): PartResp {
    ServeSplit(s.size, s, req, remaining)
  }

  /**
   * The store for a key, a new empty partition when there is none. That a new key's
   * directory is empty, and no other key's, is shown with the disk.
   */
  function StoreFor(stores: Stores, key: bytes, cfg: int64): PartState {
    if key in stores then stores[key] else OpenedPart(map[], cfg)
  }

  function Answer(env: Env, s: FetchState, item: Item): PartResp {
    var key := KeyOf(item);
    if key !in s.stores && key in env.failing
    then PartResp(item.req.partition, ERR_OFFSET_OUT_OF_RANGE, 0, -1, None)
    else ServePart(StoreFor(s.stores, key, env.cfg).active, item.req, s.remaining)
  }

  /** A read that succeeded has flushed the segment's buffer. */
  function Fetched(env: Env, s: FetchState, item: Item): FetchState {
    var key, resp := KeyOf(item), Answer(env, s, item);
    if key !in s.stores && key in env.failing then s
    else
      var p := StoreFor(s.stores, key, env.cfg);
      var seen := if ReadGranted(p.active, item.req, s.remaining) then p.(active := Visible(p.active)) else p;
      FetchState(s.stores[key := seen],
                 if resp.batch.Some? then ToInt32(s.remaining - resp.batchSize) else s.remaining)
  }

  function FetchedAll(env: Env, s: FetchState, items: seq<Item>): FetchState {
    if items == [] then s else Fetched(env, FetchedAll(env, s, items[..|items| - 1]), items[|items| - 1])
  }

  /** The payload bytes an answer carries. */
  function Served(r: PartResp): nat {
    match r.batch
    case None => 0
    case Some(b) => |b|
  }

  function TotalServed(env: Env, s: FetchState, items: seq<Item>): nat {
    if items == [] then 0
    else
      TotalServed(env, s, items[..|items| - 1])
      + Served(Answer(env, FetchedAll(env, s, items[..|items| - 1]), items[|items| - 1]))
  }

  // ------------------------------------------------------------------ budget

  /** Every segment is shorter than 2^63 bytes, as its signed size field can say. */
  ghost predicate SizesFit(stores: Stores) {
    forall k :: k in stores ==> stores[k].active.size < TWO63
  }

  /** A window is never longer than the cap plus one record header, however that sum wraps. */
  lemma WindowBound(s: SegState, req: FetchPart, remaining: int32)
    requires s.size < TWO63
    ensures WindowFor(s, req, remaining).Some? ==>
              var cap := Cap(req, remaining);
              cap > 0 && |WindowFor(s, req, remaining).value| <= cap + RECORD_HEADER
  {
  }

  /** What one answer serves is within the partition's limit and the budget, and is announced by its size. */
  lemma ServeBound(s: SegState, req: FetchPart, remaining: int32)
    requires s.size < TWO63
    ensures var r := ServePart(s, req, remaining);
            && (r.batch.Some? ==>
                  r.batchSize == |r.batch.value| <= req.maxBytes && r.batchSize <= remaining && r.code == ERR_NONE)
            && (r.batch.None? ==> r.batchSize == -1)
  {
    hide Patch, WindowFor;
    WindowBound(s, req, remaining);
  }

  lemma AnswerBound(env: Env, s: FetchState, item: Item)
    requires SizesFit(s.stores)
    ensures var r := Answer(env, s, item);
            && Served(r) == (if r.batch.Some? then r.batchSize else 0)
            && (r.batch.None? ==> r.batchSize == -1)
            && (Served(r) > 0 ==> Served(r) <= item.req.maxBytes && Served(r) <= s.remaining)
            && Fetched(env, s, item).remaining == s.remaining - Served(r)
    ensures SizesFit(Fetched(env, s, item).stores)
  {
    hide ServePart, WindowFor, KeyOf;
    ServeBound(StoreFor(s.stores, KeyOf(item), env.cfg).active, item.req, s.remaining);
  }

  /**
   * Over a whole request, in any store state: what remains plus what was served is
   * the budget, and no more than the budget is ever served.
   */
  lemma {:induction false} BudgetConserved(env: Env, s: FetchState, items: seq<Item>)
    requires SizesFit(s.stores)
    ensures FetchedAll(env, s, items).remaining + TotalServed(env, s, items) == s.remaining
    ensures TotalServed(env, s, items) <= if s.remaining > 0 then s.remaining else 0
    ensures SizesFit(FetchedAll(env, s, items).stores)
  {
    hide Answer, Fetched, SizesFit;
    if items != [] {
      var n := |items| - 1;
      BudgetConserved(env, s, items[..n]);
      AnswerBound(env, FetchedAll(env, s, items[..n]), items[n]);
    }
  }

  /** A read is granted a window inside the log exactly for a non-negative offset and a cap that does not overflow. */
  lemma WindowIff(s: SegState, req: FetchPart, remaining: int32)
    requires |s.file + s.buf| == s.size < TWO63 && req.fetchOffset < s.size && 0 < Cap(req, remaining)
    ensures WindowFor(s, req, remaining).Some? <==> 0 <= req.fetchOffset && Cap(req, remaining) <= MAX_CAP
    ensures WindowFor(s, req, remaining).Some? ==>
              var left := s.size - req.fetchOffset;
              |WindowFor(s, req, remaining).value| == if Cap(req, remaining) + RECORD_HEADER > left then left
                  else Cap(req, remaining) + RECORD_HEADER
  {
    if req.fetchOffset < 0 {
      NegativeWindow(s, req, remaining);
    } else {
      hide PartRead;
      var n := Cap(req, remaining) + RECORD_HEADER;
      assert req.fetchOffset % TWO64 == req.fetchOffset;
      assert ToInt32(n) == if n < TWO31 then n else n - TWO32;
      hide ToInt32;
      PartReadServes(s, req.fetchOffset, ToInt32(n));
    }
  }

  /** The window granted for a negative offset lies outside the file. */
  lemma NegativeWindow(s: SegState, req: FetchPart, remaining: int32)
    requires req.fetchOffset < 0
    ensures WindowFor(s, req, remaining).None?
  {
    hide WindowCheck, ToInt32;
    assert ToInt64(req.fetchOffset % TWO64) == req.fetchOffset;
  }

  /**
   * Exactly when anything is served: the offset lies at least a record header before
   * the high watermark, and the cap is positive and does not overflow when the header
   * is added to it. Otherwise the answer is empty, and it is an error unless the
   * client has caught up or its budget is spent.
   */
  lemma ServedIff(s: SegState, req: FetchPart, remaining: int32)
    requires |s.file + s.buf| == s.size < TWO63
    ensures var r, cap := ServePart(s, req, remaining), Cap(req, remaining);
            && (r.batch.Some? <==> 0 <= req.fetchOffset <= s.size - RECORD_HEADER && 0 < cap <= MAX_CAP)
            && (r.code == ERR_NONE <==>
                  r.batch.Some? || req.fetchOffset == s.size || (req.fetchOffset < s.size && cap <= 0))
  {
    hide Patch, WindowFor;
    if req.fetchOffset < s.size && 0 < Cap(req, remaining) {
      WindowIff(s, req, remaining);
    }
  }

  // ----------------------------------------- size and read as two steps

  /**
   * While the segment stays active, appends between the two steps change nothing but what
   * more there is to read: what is served with room for record `i` still begins with it.
   */
  lemma SplitServes(size: nat, s: SegState, recs: seq<bytes>, i: nat, req: FetchPart, remaining: int32)
    requires Holds(s, recs) && i < |recs| && req.fetchOffset == Start(recs, i) < size <= s.size
    requires IsBatch(recs[i]) && |recs[i]| <= Cap(req, remaining) <= MAX_CAP
    ensures var r := ServeSplit(size, s, req, remaining);
            && r.code == ERR_NONE && r.highWatermark == size && r.batch.Some?
            && Rebase(recs[i], Start(recs, i + 1)) <= r.batch.value
  {
    hide Patch, WindowFor, Frames, IndexHolds, Start, Rebase, Total;
    ServeAny(s, recs, i, req, remaining);
  }

  /** Whatever comes between, an answer is within its limit and the budget, and announces its bytes. */
  lemma SplitBound(size: nat, s: SegState, req: FetchPart, remaining: int32)
    requires s.size < TWO63
    ensures var r := ServeSplit(size, s, req, remaining);
            && (r.batch.Some? ==>
                  r.batchSize == |r.batch.value| <= req.maxBytes && r.batchSize <= remaining && r.code == ERR_NONE)
            && (r.batch.None? ==> r.batchSize == -1)
  {
    hide Patch, WindowFor;
    WindowBound(s, req, remaining);
  }

  /** What one request finds at a partition: the size, then the segment at the time of the read. */
  datatype Seen = Seen(req: FetchPart, size: nat, s: SegState)

  function SplitRemaining(remaining: int32, seen: seq<Seen>): int32 {
    if seen == [] then remaining
    else
      var n := |seen| - 1;
      var before := SplitRemaining(remaining, seen[..n]);
      var r := ServeSplit(seen[n].size, seen[n].s, seen[n].req, before);
      if r.batch.Some? then ToInt32(before - r.batchSize) else before
  }

  function SplitServed(remaining: int32, seen: seq<Seen>): nat {
    if seen == [] then 0
    else
      var n := |seen| - 1;
      SplitServed(remaining, seen[..n])
      + Served(ServeSplit(seen[n].size, seen[n].s, seen[n].req, SplitRemaining(remaining, seen[..n])))
  }

  /**
   * The budget is conserved over a whole request whatever other connections do between any
   * two steps of it.
   */
  lemma {:induction false} BudgetUnderInterference(remaining: int32, seen: seq<Seen>)
    requires forall i :: 0 <= i < |seen| ==> seen[i].s.size < TWO63
    ensures SplitRemaining(remaining, seen) + SplitServed(remaining, seen) == remaining
    ensures SplitServed(remaining, seen) <= if remaining > 0 then remaining else 0
  {
    hide ServeSplit;
    if seen != [] {
      var n := |seen| - 1;
      BudgetUnderInterference(remaining, seen[..n]);
      SplitBound(seen[n].size, seen[n].s, seen[n].req, SplitRemaining(remaining, seen[..n]));
    }
  }

  // ------------------------------------------------------------- end to end

  /** How a fetch client moves on after a batch. */
  function NextCursor(b: bytes): int64
    requires |b| >= MIN_PATCH_BYTES
  {
    ToInt64(BaseOffset(b) + Delta(b) + 1)
  }

  /** The bytes of a window that starts at record `i`, whatever its size. */
  lemma WindowBytes(s: SegState, recs: seq<bytes>, i: nat, req: FetchPart, remaining: int32)
    requires Holds(s, recs) && i < |recs| && req.fetchOffset == Start(recs, i) && 0 < Cap(req, remaining) <= MAX_CAP
    ensures var a, n := Start(recs, i), WindowSize(s, recs, i, Cap(req, remaining));
            && n >= RECORD_HEADER && a + n <= |Frames(recs)| && a < s.size
            && WindowFor(s, req, remaining) == Some(Frames(recs)[a..a + n])
  {
    hide Frames, Start, IndexHolds, PartRead, Frame;
    FrameAt(recs, i);
    var n := Cap(req, remaining) + RECORD_HEADER;
    assert ToInt32(n) == n && req.fetchOffset % TWO64 == req.fetchOffset;
    hide ToInt32;
    PartReadServes(s, req.fetchOffset, n);
  }

  /** The cap and one header, or what the log holds from record `i` on. */
  function WindowSize(s: SegState, recs: seq<bytes>, i: nat, cap: int32): int
    requires i <= |recs|
  {
    if cap + RECORD_HEADER > s.size - Start(recs, i) then s.size - Start(recs, i) else cap + RECORD_HEADER
  }

  lemma StrippedSlice(log: bytes, a: nat, m: nat, z: nat, h: nat)
    requires a + h <= m <= |log| && a + h <= z <= |log|
    ensures m <= z ==> log[a..z][h..] == log[a..m][h..] + log[m..z]
    ensures z < m ==> log[a..z][h..] == log[a..m][h..][..z - a - h]
  {
    SliceOfSlice(log, a, z, h, z - a);
    SliceOfSlice(log, a, m, h, m - a);
    if z < m {
      SliceOfSlice(log, a + h, m, 0, z - a - h);
    }
  }

  /** What is left of a window once the first record's header is stripped. */
  lemma StrippedWindow(recs: seq<bytes>, i: nat, n: nat)
    requires i < |recs| && n >= RECORD_HEADER && Start(recs, i) + n <= |Frames(recs)|
    ensures Start(recs, i + 1) <= |Frames(recs)|
    ensures var a, z := Start(recs, i), Start(recs, i) + n;
            && (z >= Start(recs, i + 1) ==>
                  Frames(recs)[a..z][RECORD_HEADER..] == recs[i] + Frames(recs)[Start(recs, i + 1)..z])
            && (z < Start(recs, i + 1) ==>
                  n - RECORD_HEADER < |recs[i]| && Frames(recs)[a..z][RECORD_HEADER..] == recs[i][..n - RECORD_HEADER])
  {
    hide Frames, Frame, Start;
    FrameAt(recs, i);
    FrameParts(recs[i]);
    StrippedSlice(Frames(recs), Start(recs, i), Start(recs, i + 1), Start(recs, i) + n, RECORD_HEADER);
  }

  /** The answer made of a window at record `i`: its first header stripped, the rest patched. */
  lemma ServeWindow(s: SegState, recs: seq<bytes>, i: nat, req: FetchPart, remaining: int32)
    requires Holds(s, recs) && i < |recs| && req.fetchOffset == Start(recs, i) && 0 < Cap(req, remaining) <= MAX_CAP
    ensures var a, n := Start(recs, i), WindowSize(s, recs, i, Cap(req, remaining));
            && n >= RECORD_HEADER && a + n <= |Frames(recs)|
            && ServePart(s, req, remaining)
               == PartResp(req.partition, ERR_NONE, s.size, n - RECORD_HEADER,
                           Some(Patch(Frames(recs)[a..a + n][RECORD_HEADER..], req.fetchOffset)))
  {
    hide Frames, IndexHolds, WindowFor, Patch, Start;
    WindowBytes(s, recs, i, req, remaining);
  }

  /** A batch cut short is passed over by the patch loop. */
  lemma CutBatchStops(b: bytes, n: nat)
    requires IsBatch(b) && n < |b|
    ensures Stops(b[..n])
  {
    if n >= MIN_PATCH_BYTES {
      SliceOfSlice(b, 0, n, LENGTH, 12);
    }
  }

  /**
   * A fetch at record `i` with any cap: the whole batch first, rebased onto the next
   * record, when the cap has room for it, and the first bytes of it unchanged when not.
   */
  lemma ServeAny(s: SegState, recs: seq<bytes>, i: nat, req: FetchPart, remaining: int32)
    requires Holds(s, recs) && i < |recs| && req.fetchOffset == Start(recs, i) && 0 < Cap(req, remaining) <= MAX_CAP
    requires IsBatch(recs[i])
    ensures var r, cap := ServePart(s, req, remaining), Cap(req, remaining);
            && r.code == ERR_NONE && r.batch.Some?
            && |r.batch.value| == WindowSize(s, recs, i, cap) - RECORD_HEADER == r.batchSize
            && (cap >= |recs[i]| ==> Rebase(recs[i], Start(recs, i + 1)) <= r.batch.value)
            && (cap < |recs[i]| ==> r.batch.value == recs[i][..cap])
  {
    hide Frames, IndexHolds, ServePart, Patch, Start, Rebase, IsBatch, Stops;
    var a, b, cap := Start(recs, i), recs[i], Cap(req, remaining);
    var n := WindowSize(s, recs, i, cap);
    ServeWindow(s, recs, i, req, remaining);
    StrippedWindow(recs, i, n);
    FrameAt(recs, i);
    if cap >= |b| {
      PatchFirst(b, Frames(recs)[Start(recs, i + 1)..a + n], req.fetchOffset);
    } else {
      CutBatchStops(b, cap);
      PatchStops(b[..cap], req.fetchOffset);
    }
  }

  /**
   * A record that begins with several batches: every batch the cap has room for comes
   * back in its place with its cursor on its own physical end, whatever follows them.
   */
  lemma ServeConcatenated(s: SegState, recs: seq<bytes>, i: nat, req: FetchPart, remaining: int32, bs: seq<bytes>,
      t: bytes)
    requires Holds(s, recs) && i < |recs| && req.fetchOffset == Start(recs, i) && 0 < Cap(req, remaining) <= MAX_CAP
    requires recs[i] == Concat(bs) + t && |Concat(bs)| <= Cap(req, remaining)
    requires forall k :: 0 <= k < |bs| ==> IsBatch(bs[k])
    ensures var r := ServePart(s, req, remaining);
            r.code == ERR_NONE && r.batch.Some? && Concat(Rebased(bs, req.fetchOffset)) <= r.batch.value
  {
    hide Frames, IndexHolds, ServePart, Patch, Start, Rebased, Concat, IsBatch;
    var a, c, n := Start(recs, i), Concat(bs), WindowSize(s, recs, i, Cap(req, remaining));
    ServeWindow(s, recs, i, req, remaining);
    StrippedWindow(recs, i, n);
    FrameAt(recs, i);
    var payload := Frames(recs)[a..a + n][RECORD_HEADER..];
    assert c <= recs[i];
    assert payload == c + payload[|c|..];
    PatchBatches(bs, payload[|c|..], req.fetchOffset);
  }

  /**
   * The first batch of any fetch with room for it differs from the stored one in bytes
   * 0..7 only, still validates with the same record count, and sends the client to the
   * start of the next record.
   */
  lemma ServedBatch(s: SegState, recs: seq<bytes>, i: nat, req: FetchPart, remaining: int32, crc: bytes -> nat)
    requires Holds(s, recs) && i < |recs| && req.fetchOffset == Start(recs, i)
    requires IsBatch(recs[i]) && |recs[i]| <= Cap(req, remaining) <= MAX_CAP
    ensures var r := ServePart(s, req, remaining);
            && r.code == ERR_NONE && r.batch.Some?
            && |recs[i]| <= |r.batch.value| == WindowSize(s, recs, i, Cap(req, remaining)) - RECORD_HEADER
            && Faithful(r.batch.value[..|recs[i]|], recs[i], Start(recs, i + 1), crc)
            && NextCursor(r.batch.value) == Start(recs, i + 1)
  {
    hide Rebase, ServePart, Holds, Start, NextCursor, WindowSize, Faithful, Total;
    ServeAny(s, recs, i, req, remaining);
    var next, payload := Start(recs, i + 1), ServePart(s, req, remaining).batch.value;
    assert payload[..|recs[i]|] == Rebase(recs[i], next);
    FrameAt(recs, i);
    SizeBelow(s, recs);
    RebaseFaithful(recs[i], next, crc);
    CursorOfFirst(payload, |recs[i]|, next, recs[i], crc);
  }

  /** `b` is the stored batch with nothing but its base offset changed, which sends a client to `next`. */
  ghost predicate Faithful(b: bytes, stored: bytes, next: int, crc: bytes -> nat) {
    && |b| == |stored| >= MIN_PATCH_BYTES
    && b[8..] == stored[8..]
    && Validate(b, crc) == Validate(stored, crc)
    && NextCursor(b) == next
  }

  lemma RebaseFaithful(stored: bytes, next: int, crc: bytes -> nat)
    requires |stored| >= MIN_PATCH_BYTES && 0 <= next < TWO63
    ensures Faithful(Rebase(stored, next), stored, next, crc)
  {
    hide Validate, Delta, BaseOffset, Rebase, NextCursor;
    var b := Rebase(stored, next);
    RebaseCursor(stored, next);
    ValidateIgnoresBaseOffset(b, stored, crc);
    CursorIs(b, next);
  }

  /** A client reads its next cursor off the first batch, whatever follows it. */
  lemma CursorOfFirst(payload: bytes, n: nat, next: int, stored: bytes, crc: bytes -> nat)
    requires n <= |payload| && Faithful(payload[..n], stored, next, crc)
    ensures |payload| >= MIN_PATCH_BYTES && NextCursor(payload) == next
  {
    hide Validate, GetU64, GetU32, ToInt64;
    SliceOfSlice(payload, 0, n, 0, 8);
    SliceOfSlice(payload, 0, n, LAST_OFFSET_DELTA, 27);
  }

  lemma CursorIs(b: bytes, next: int)
    requires |b| >= MIN_PATCH_BYTES && 0 <= next < TWO63
    requires (BaseOffset(b) + Delta(b) + 1) % TWO64 == next % TWO64
    ensures NextCursor(b) == next
  {
    hide BaseOffset, Delta;
  }

  lemma SizeBelow(s: SegState, recs: seq<bytes>)
    requires Holds(s, recs)
    ensures |Frames(recs)| < TWO63
  {
    hide Frames, IndexHolds;
  }

  /**
   * Any batch that validates and is as long as it says, once appended, comes back first
   * in a fetch at the returned offset with room for it, after any further use of the segment.
   */
  lemma ProducedBatchComesBack(s: SegState, recs: seq<bytes>, batch: bytes, crc: bytes -> nat, later: seq<Op>,
      req: FetchPart, remaining: int32)
    requires Holds(s, recs) && HasRoom(s, batch)
    requires Validate(batch, crc).Valid? && Total(batch) == |batch|
    requires req.fetchOffset == s.size && |batch| <= Cap(req, remaining) <= MAX_CAP
    ensures var r := ServePart(Run(Appended(s, batch), later), req, remaining);
            && r.code == ERR_NONE && r.batch.Some? && |batch| <= |r.batch.value|
            && (later == [] ==> |r.batch.value| == |batch|)
            && Faithful(r.batch.value[..|batch|], batch, s.size + HEADER + |batch|, crc)
  {
    var t := Run(Appended(s, batch), later);
    var more := Accepted(Appended(s, batch), later);
    hide Frames, Run, Appended, IndexHolds, ServePart, NextCursor, Faithful;
    AppendHolds(s, recs, batch);
    RunHolds(Appended(s, batch), recs + [batch], later);
    var all, i := recs + [batch] + more, |recs|;
    assert all == recs + ([batch] + more);
    StartStable(recs, [batch] + more, i);
    assert recs[..i] == recs;
    FrameAt(all, i);
    ServedBatch(t, all, i, req, remaining, crc);
    if later == [] {
      assert all == recs + [batch];
      assert all[..i + 1] == all;
    }
  }

  // ---------------------------------------------------------- catching up

  /** Every record is one batch that a fetch of `maxBytes` has room for. */
  ghost predicate AllBatches(recs: seq<bytes>, maxBytes: int32) {
    forall i :: 0 <= i < |recs| ==> IsBatch(recs[i]) && |recs[i]| <= maxBytes
  }

  /** Where a client is after `i` fetches of `maxBytes` from 0, moving on after the first batch of each. */
  ghost function CursorAfter(s: SegState, partition: int32, maxBytes: int32, i: nat): Option<int64> {
    if i == 0 then Some(0)
    else
      match CursorAfter(s, partition, maxBytes, i - 1)
      case None => None
      case Some(at) =>
        match ServePart(s, FetchPart(partition, at, maxBytes), maxBytes).batch
        case None => None
        case Some(b) => if |b| < MIN_PATCH_BYTES then None else Some(NextCursor(b))
  }

  /**
   * A client that fetches from offset 0 and follows the cursors it is sent visits every
   * record start in order, and ends at the high watermark, whatever its fetch size.
   */
  lemma {:induction false} ClientVisitsEveryRecord(s: SegState, recs: seq<bytes>, partition: int32, maxBytes: int32,
      i: nat)
    requires Holds(s, recs) && AllBatches(recs, maxBytes) && maxBytes <= MAX_CAP && i <= |recs|
    ensures CursorAfter(s, partition, maxBytes, i) == Some(Start(recs, i))
    ensures i == |recs| ==> Start(recs, i) == s.size
  {
    hide Frames, IndexHolds, ServePart, NextCursor, Faithful, IsBatch;
    if i == |recs| {
      assert recs[..i] == recs;
    }
    if i == 0 {
      EmptyLog();
      assert recs[..0] == [];
    } else {
      ClientVisitsEveryRecord(s, recs, partition, maxBytes, i - 1);
      ServedBatch(s, recs, i - 1, FetchPart(partition, Start(recs, i - 1), maxBytes), maxBytes, x => 0);
      LongEnough(recs[i - 1]);
    }
  }

  lemma LongEnough(b: bytes)
    requires IsBatch(b)
    ensures |b| >= MIN_PATCH_BYTES
  {
  }

  // ------------------------------------------------------------- the handler

  function ItemsOf(t: Topic<FetchPart>): (r: seq<Item>)
    ensures |r| == |t.parts|
  {
    seq(|t.parts|, j requires 0 <= j < |t.parts| => Item(t.name, t.parts[j]))
  }

  function AllItems(topics: seq<Topic<FetchPart>>): seq<Item> {
    if topics == [] then [] else AllItems(topics[..|topics| - 1]) + ItemsOf(topics[|topics| - 1])
  }

  /** Partition `j` is answered from the state its predecessors in the topic left. */
  ghost predicate Answers(env: Env, s: FetchState, topic: Topic<FetchPart>, parts: seq<PartResp>) {
    var items := ItemsOf(topic);
    && |parts| == |topic.parts|
    && forall j :: 0 <= j < |parts| ==> parts[j] == Answer(env, FetchedAll(env, s, items[..j]), items[j])
  }

  /** What the handler answers to `topics` from state `s`. */
  ghost predicate Handled(env: Env, s: FetchState, topics: seq<Topic<FetchPart>>, resp: seq<TopicResp>) {
    && |resp| == |topics|
    && forall i :: 0 <= i < |topics| ==>
                     && resp[i].name == topics[i].name
                     && Answers(env, FetchedAll(env, s, AllItems(topics[..i])), topics[i], resp[i].parts)
  }

  lemma {:induction false} FetchedConcat(env: Env, s: FetchState, a: seq<Item>, b: seq<Item>)
    ensures FetchedAll(env, s, a + b) == FetchedAll(env, FetchedAll(env, s, a), b)
  {
    hide Fetched;
    if b == [] {
      assert a + b == a;
    } else {
      FetchedConcat(env, s, a, b[..|b| - 1]);
      assert (a + b)[..|a + b| - 1] == a + b[..|b| - 1];
    }
  }

  lemma FetchedMore(env: Env, s: FetchState, items: seq<Item>, j: nat)
    requires j < |items|
    ensures FetchedAll(env, s, items[..j + 1]) == Fetched(env, FetchedAll(env, s, items[..j]), items[j])
  {
    hide Fetched;
    assert items[..j + 1][..j] == items[..j];
  }

  lemma FetchedTopicMore(env: Env, s: FetchState, topics: seq<Topic<FetchPart>>, i: nat)
    requires i < |topics|
    ensures FetchedAll(env, s, AllItems(topics[..i + 1]))
              == FetchedAll(env, FetchedAll(env, s, AllItems(topics[..i])), ItemsOf(topics[i]))
  {
    hide FetchedAll, ItemsOf;
    assert topics[..i + 1][..i] == topics[..i];
    FetchedConcat(env, s, AllItems(topics[..i]), ItemsOf(topics[i]));
  }

  lemma NothingFetched(env: Env, s: FetchState)
    ensures FetchedAll(env, s, []) == s && AllItems([]) == []
  {
  }

  // -------------------------------------------- the answer, from the request

  /** The batch bytes of a row of answers. */
  function BytesIn(parts: seq<PartResp>): nat {
    if parts == [] then 0 else BytesIn(parts[..|parts| - 1]) + Served(parts[|parts| - 1])
  }

  function BytesOf(resp: seq<TopicResp>): nat {
    if resp == [] then 0 else BytesOf(resp[..|resp| - 1]) + BytesIn(resp[|resp| - 1].parts)
  }

  /** What a log of `recs` is to answer to one partition of a request that may be served `cap` bytes. */
  ghost predicate LogServed(recs: seq<bytes>, req: FetchPart, cap: int, r: PartResp) {
    var size := |Frames(recs)|;
    && r.highWatermark == size
    && (r.batch.Some? <==> 0 <= req.fetchOffset <= size - 4 && 0 < cap <= 0x7fff_fffb)
    && (r.code == 0 <==> r.batch.Some? || req.fetchOffset == size || (req.fetchOffset < size && cap <= 0))
    && forall k :: 0 <= k < |recs| && req.fetchOffset == Start(recs, k) ==> RecordServed(recs, k, cap, r)
  }

  /** The record asked for comes first and whole when there is room for it, and cut otherwise. */
  ghost predicate RecordServed(recs: seq<bytes>, k: nat, cap: int, r: PartResp)
    requires k < |recs|
  {
    27 <= |recs[k]| == 12 + Get(recs[k][8..12]) && 0 < cap <= 0x7fff_fffb ==>
      && r.batch.Some?
      && (|recs[k]| <= cap ==> Rebase(recs[k], Start(recs, k + 1)) <= r.batch.value)
      && (cap < |recs[k]| ==> r.batch.value == recs[k][..cap])
  }

  /**
   * What a request is to be answered for partition `req.partition` of a topic, when `left` bytes
   * of its budget are left: from the log of that partition, which is empty when it is new.
   */
  ghost predicate PartServed(env: Env, stores: Stores, left: int, name: bytes, req: FetchPart, r: PartResp) {
    var key := PartitionKey(TopicPartition(name, req.partition));
    var cap := if left < req.maxBytes then left else req.maxBytes;
    && r.partition == req.partition && (r.code == 0 || r.code == 1)
    && r.batchSize == (if r.batch.Some? then |r.batch.value| else -1)
    && (r.batch.Some? ==> |r.batch.value| <= cap)
    && (key in stores ==> forall recs :: Holds(stores[key].active, recs) ==> LogServed(recs, req, cap, r))
    && (key !in stores && key !in env.failing ==> LogServed([], req, cap, r))
    && (key !in stores && key in env.failing ==> r.code == 1 && r.batch.None? && r.highWatermark == 0)
  }

  /** Every topic and partition of a request is answered in its place, within one budget. */
  ghost predicate RequestServed(env: Env, stores: Stores, maxBytes: int, topics: seq<Topic<FetchPart>>,
      resp: seq<TopicResp>)
  {
    && |resp| == |topics|
    && (forall i :: 0 <= i < |topics| ==> resp[i].name == topics[i].name && |resp[i].parts| == |topics[i].parts|)
    && (forall i, j :: 0 <= i < |topics| && 0 <= j < |topics[i].parts| ==>
          PartServed(env, stores, maxBytes - BytesOf(resp[..i]) - BytesIn(resp[i].parts[..j]), topics[i].name,
                     topics[i].parts[j], resp[i].parts[j]))
  }

  /** The partitions go on holding what they held; those opened on the way are empty. */
  ghost predicate SameLogs(env: Env, before: Stores, now: Stores) {
    && (forall k :: k in before ==> k in now && SameLog(before[k].active, now[k].active))
    && (forall k :: k in now && k !in before ==> k !in env.failing && Holds(now[k].active, []))
  }

  ghost predicate SameLog(s: SegState, t: SegState) {
    forall recs :: Holds(s, recs) ==> Holds(t, recs)
  }

  lemma VisibleHolds(s: SegState, recs: seq<bytes>)
    requires Holds(s, recs)
    ensures Holds(Visible(s), recs)
  {
    hide Frames, IndexHolds;
    assert s.file + s.buf + [] == s.file + s.buf;
  }

  lemma FetchedSameLogs(env: Env, before: Stores, s: FetchState, item: Item)
    requires SameLogs(env, before, s.stores)
    ensures SameLogs(env, before, Fetched(env, s, item).stores)
  {
    hide Answer, ReadGranted, KeyOf, Holds, Visible;
    var key := KeyOf(item);
    if !(key !in s.stores && key in env.failing) {
      var p := StoreFor(s.stores, key, env.cfg);
      forall recs | Holds(p.active, recs)
        ensures Holds(Visible(p.active), recs)
      {
        VisibleHolds(p.active, recs);
      }
      EmptyHolds(env.cfg);
      NewIsEmpty(env.cfg);
    }
  }

  lemma NewIsEmpty(cfg: int64)
    ensures OpenedPart(map[], cfg).active == Opened([], [], cfg)
  {
  }

  lemma {:induction false} RowSameLogs(env: Env, before: Stores, s: FetchState, items: seq<Item>)
    requires SameLogs(env, before, s.stores)
    ensures SameLogs(env, before, FetchedAll(env, s, items).stores)
  {
    hide Fetched, SameLogs;
    if items != [] {
      var n := |items| - 1;
      RowSameLogs(env, before, s, items[..n]);
      FetchedSameLogs(env, before, FetchedAll(env, s, items[..n]), items[n]);
    }
  }

  lemma ServesLog(s: SegState, recs: seq<bytes>, req: FetchPart, remaining: int32)
    requires Holds(s, recs)
    ensures LogServed(recs, req, Cap(req, remaining), ServePart(s, req, remaining))
  {
    hide Frames, Start, IndexHolds, ServePart, Cap, Rebase, IsBatch;
    var r := ServePart(s, req, remaining);
    ServedIff(s, req, remaining);
    assert r.highWatermark == s.size by { Watermark(s, req, remaining); }
    forall k | 0 <= k < |recs| && req.fetchOffset == Start(recs, k)
      ensures RecordServed(recs, k, Cap(req, remaining), r)
    {
      WholeBatch(recs[k]);
      if IsBatch(recs[k]) && 0 < Cap(req, remaining) <= MAX_CAP {
        ServeAny(s, recs, k, req, remaining);
      }
    }
  }

  lemma WholeBatch(b: bytes)
    ensures IsBatch(b) <==> 27 <= |b| == 12 + Get(b[8..12])
  {
    hide Get;
  }

  lemma Watermark(s: SegState, req: FetchPart, remaining: int32)
    ensures ServePart(s, req, remaining).highWatermark == s.size
    ensures ServePart(s, req, remaining).partition == req.partition
    ensures ServePart(s, req, remaining).code == 0 || ServePart(s, req, remaining).code == 1
  {
    hide Patch, WindowFor;
  }

  lemma AnswerServes(env: Env, before: Stores, s: FetchState, item: Item)
    requires SizesFit(s.stores) && SameLogs(env, before, s.stores)
    ensures PartServed(env, before, s.remaining, item.topic, item.req, Answer(env, s, item))
  {
    hide ServePart, Holds, LogServed, Fetched, PartitionKey, OpenedPart;
    var key := KeyOf(item);
    var r := Answer(env, s, item);
    if key in s.stores || key !in env.failing {
      var a := StoreFor(s.stores, key, env.cfg).active;
      assert r == ServePart(a, item.req, s.remaining);
      Watermark(a, item.req, s.remaining);
      assert a.size < TWO63 by { NewSize(env.cfg); }
      ServeBound(a, item.req, s.remaining);
      EmptyHolds(env.cfg);
      NewIsEmpty(env.cfg);
      forall recs | Holds(a, recs)
        ensures LogServed(recs, item.req, Cap(item.req, s.remaining), r)
      {
        ServesLog(a, recs, item.req, s.remaining);
      }
    }
  }

  lemma NewSize(cfg: int64)
    ensures OpenedPart(map[], cfg).active.size == 0
  {
  }

  /** What is left of the budget is what the answers so far have not used. */
  lemma {:induction false} RowLeft(env: Env, s: FetchState, items: seq<Item>, parts: seq<PartResp>)
    requires SizesFit(s.stores) && |parts| == |items|
    requires forall j :: 0 <= j < |parts| ==> parts[j] == Answer(env, FetchedAll(env, s, items[..j]), items[j])
    ensures FetchedAll(env, s, items).remaining == s.remaining - BytesIn(parts)
    ensures SizesFit(FetchedAll(env, s, items).stores)
  {
    hide Answer, Fetched, SizesFit, Served;
    if items != [] {
      var n := |items| - 1;
      forall j | 0 <= j < n
        ensures items[..n][..j] == items[..j] && items[..n][j] == items[j] && parts[..n][j] == parts[j]
      {
      }
      RowLeft(env, s, items[..n], parts[..n]);
      AnswerBound(env, FetchedAll(env, s, items[..n]), items[n]);
    }
  }

  lemma TopicServes(env: Env, before: Stores, s: FetchState, topic: Topic<FetchPart>, parts: seq<PartResp>, j: nat)
    requires SizesFit(s.stores) && SameLogs(env, before, s.stores) && Answers(env, s, topic, parts) && j < |parts|
    ensures PartServed(env, before, s.remaining - BytesIn(parts[..j]), topic.name, topic.parts[j], parts[j])
  {
    hide Answer, FetchedAll, SizesFit, SameLogs, PartServed, BytesIn;
    var items := ItemsOf(topic);
    forall k | 0 <= k < j
      ensures items[..j][..k] == items[..k] && items[..j][k] == items[k]
    {
    }
    RowLeft(env, s, items[..j], parts[..j]);
    RowSameLogs(env, before, s, items[..j]);
    AnswerServes(env, before, FetchedAll(env, s, items[..j]), items[j]);
  }

  lemma {:induction false} TopicsLeft(env: Env, s: FetchState, topics: seq<Topic<FetchPart>>, resp: seq<TopicResp>)
    requires SizesFit(s.stores) && Handled(env, s, topics, resp)
    ensures FetchedAll(env, s, AllItems(topics)).remaining == s.remaining - BytesOf(resp)
    ensures SizesFit(FetchedAll(env, s, AllItems(topics)).stores)
  {
    hide FetchedAll, Answers, SizesFit, ItemsOf, BytesIn;
    NothingFetched(env, s);
    if topics != [] {
      var n := |topics| - 1;
      assert forall k :: 0 <= k < n ==> topics[..n][..k] == topics[..k];
      TopicsLeft(env, s, topics[..n], resp[..n]);
      FetchedTopicMore(env, s, topics, n);
      assert topics[..n + 1] == topics;
      var s1 := FetchedAll(env, s, AllItems(topics[..n]));
      assert Answers(env, s1, topics[n], resp[n].parts);
      TopicLeft(env, s1, topics[n], resp[n].parts);
    }
  }

  lemma TopicLeft(env: Env, s: FetchState, topic: Topic<FetchPart>, parts: seq<PartResp>)
    requires SizesFit(s.stores) && Answers(env, s, topic, parts)
    ensures FetchedAll(env, s, ItemsOf(topic)).remaining == s.remaining - BytesIn(parts)
    ensures SizesFit(FetchedAll(env, s, ItemsOf(topic)).stores)
  {
    hide FetchedAll, Answer, SizesFit, BytesIn;
    RowLeft(env, s, ItemsOf(topic), parts);
  }

  lemma SameToBegin(env: Env, stores: Stores)
    ensures SameLogs(env, stores, stores)
  {
    hide Holds;
  }

  /** The handler answers every partition of a request from that partition's log. */
  lemma HandledServes(env: Env, stores: Stores, maxBytes: int32, topics: seq<Topic<FetchPart>>, resp: seq<TopicResp>)
    requires SizesFit(stores) && Handled(env, FetchState(stores, maxBytes), topics, resp)
    ensures RequestServed(env, stores, maxBytes, topics, resp)
  {
    hide FetchedAll, Answers, SizesFit, SameLogs, PartServed, BytesIn, BytesOf, AllItems;
    var s := FetchState(stores, maxBytes);
    SameToBegin(env, stores);
    forall i | 0 <= i < |topics|
      ensures |resp[i].parts| == |topics[i].parts|
      ensures forall j :: 0 <= j < |topics[i].parts| ==>
                PartServed(env, stores, maxBytes - BytesOf(resp[..i]) - BytesIn(resp[i].parts[..j]), topics[i].name,
                           topics[i].parts[j], resp[i].parts[j])
    {
      assert forall k :: 0 <= k < i ==> topics[..i][..k] == topics[..k];
      TopicsLeft(env, s, topics[..i], resp[..i]);
      RowSameLogs(env, stores, s, AllItems(topics[..i]));
      var s1 := FetchedAll(env, s, AllItems(topics[..i]));
      AnswersCount(env, s1, topics[i], resp[i].parts);
      forall j | 0 <= j < |topics[i].parts|
        ensures PartServed(env, stores, s1.remaining - BytesIn(resp[i].parts[..j]), topics[i].name, topics[i].parts[j],
                           resp[i].parts[j])
      {
        TopicServes(env, stores, s1, topics[i], resp[i].parts, j);
      }
    }
  }

  lemma AnswersCount(env: Env, s: FetchState, topic: Topic<FetchPart>, parts: seq<PartResp>)
    requires Answers(env, s, topic, parts)
    ensures |parts| == |topic.parts|
  {
    hide Answer, FetchedAll;
  }

  class Handler {
    var stores: Stores

    /** Serves a fetch request, topic by topic and partition by partition, within one byte budget. */
    method HandleFetch(env: Env, maxBytes: int32, topics: seq<Topic<FetchPart>>) returns (resp: seq<TopicResp>)
      modifies this
      ensures stores == FetchedAll(env, FetchState(old(stores), maxBytes), AllItems(topics)).stores
      ensures Handled(env, FetchState(old(stores), maxBytes), topics, resp)
      ensures SizesFit(old(stores)) ==> RequestServed(env, old(stores), maxBytes, topics, resp)
    {
      hide RequestServed, SizesFit, FetchedAll, AllItems, ItemsOf, Answers;
      ghost var s0 := FetchState(stores, maxBytes);
      NothingFetched(env, s0);
      var remaining := maxBytes;
      resp := [];
      for i := 0 to |topics|
        invariant FetchState(stores, remaining) == FetchedAll(env, s0, AllItems(topics[..i]))
        invariant |resp| == i
        invariant forall k :: 0 <= k < i ==>
                    && resp[k].name == topics[k].name
                    && Answers(env, FetchedAll(env, s0, AllItems(topics[..k])), topics[k], resp[k].parts)
      {
        FetchedTopicMore(env, s0, topics, i);
        var parts;
        parts, remaining := FetchTopicParts(env, remaining, topics[i]);
        resp := resp + [Topic(topics[i].name, parts)];
      }
      assert topics[..|topics|] == topics;
      if SizesFit(s0.stores) {
        HandledServes(env, s0.stores, maxBytes, topics, resp);
      }
    }

    /** The inner loop over one topic's partitions, spending the budget. */
    method FetchTopicParts(env: Env, budget: int32, topic: Topic<FetchPart>)
      returns (resp: seq<PartResp>, remaining: int32)
      modifies this
      ensures FetchState(stores, remaining) == FetchedAll(env, FetchState(old(stores), budget), ItemsOf(topic))
      ensures Answers(env, FetchState(old(stores), budget), topic, resp)
    {
      hide FetchedAll, Answer, Fetched;
      ghost var s0 := FetchState(stores, budget);
      ghost var items := ItemsOf(topic);
      NothingFetched(env, s0);
      remaining := budget;
      resp := [];
      for j := 0 to |topic.parts|
        invariant FetchState(stores, remaining) == FetchedAll(env, s0, items[..j])
        invariant |resp| == j
        invariant forall k :: 0 <= k < j ==> resp[k] == Answer(env, FetchedAll(env, s0, items[..k]), items[k])
      {
        FetchedMore(env, s0, items, j);
        var r;
        r, remaining := FetchPartition(env, remaining, Item(topic.name, topic.parts[j]));
        resp := resp + [r];
      }
      assert items[..|items|] == items;
    }

    /** One partition of the request. */
    method FetchPartition(env: Env, budget: int32, item: Item) returns (resp: PartResp, remaining: int32)
      modifies this
      ensures resp == Answer(env, FetchState(old(stores), budget), item)
      ensures FetchState(stores, remaining) == Fetched(env, FetchState(old(stores), budget), item)
    {
      hide KeyOf, ServeSplit, ReadGranted;
      remaining := budget;
      var key := KeyOf(item);
      if key !in stores {
        if key in env.failing {
          resp := PartResp(item.req.partition, ERR_OFFSET_OUT_OF_RANGE, 0, -1, None);
          return;
        }
        stores := stores[key := OpenedPart(map[], env.cfg)];
      }
      var ps, granted := stores[key], false;
      GrantedBelow(ps.active, item.req, remaining);
      resp, granted := ServeSegment(ps.active.size, ps.active, item.req, remaining);
      if granted {
        stores := stores[key := ps.(active := Visible(ps.active))];
      }
      if resp.batch.Some? {
        remaining := ToInt32(remaining - resp.batchSize);
      }
    }
  }

  lemma GrantedBelow(s: SegState, req: FetchPart, remaining: int32)
    ensures ReadGranted(s, req, remaining) ==> req.fetchOffset < s.size
  {
  }

  /** A read is granted only below the size it finds. */
  lemma ReadInside(s: SegState, fetchOffset: int64, n: int32)
    ensures PartRead(s, fetchOffset % TWO64, n).Ok? ==> fetchOffset < s.size
  {
    hide WindowCheck, ToInt32;
    assert ToInt64(fetchOffset % TWO64) == fetchOffset;
  }

  /** The part of the handler that works on one partition's log. */
  method ServeSegment(size: nat, s: SegState, req: FetchPart, remaining: int32)
    returns (resp: PartResp, granted: bool)
    ensures resp == ServeSplit(size, s, req, remaining)
    ensures granted == (req.fetchOffset < size && ReadGranted(s, req, remaining))
  {
    hide Patch, PartRead;
    granted := false;
    resp := PartResp(req.partition, ERR_NONE, size, -1, None);
    if req.fetchOffset == resp.highWatermark {
      return;
    }
    if req.fetchOffset > resp.highWatermark {
      resp := resp.(code := ERR_OFFSET_OUT_OF_RANGE);
      return;
    }
    var cap := req.maxBytes;
    if remaining < cap {
      cap := remaining;
    }
    if cap <= 0 {
      return;
    }
    var r := PartRead(s, req.fetchOffset % TWO64, ToInt32(cap + RECORD_HEADER));
    ReadInside(s, req.fetchOffset, ToInt32(cap + RECORD_HEADER));
    if r.Err? {
      resp := resp.(code := ERR_OFFSET_OUT_OF_RANGE);
      return;
    }
    granted := true;
    var file, w := s.file + s.buf, r.value;
    if !(0 <= w.off <= w.off + w.n <= |file|) {
      resp := resp.(code := ERR_OFFSET_OUT_OF_RANGE);
      return;
    }
    var raw := file[w.off..w.off + w.n];
    if |raw| < RECORD_HEADER {
      resp := resp.(code := ERR_OFFSET_OUT_OF_RANGE);
      return;
    }
    var stripped := raw[RECORD_HEADER..];
    var payload := new byte[|stripped|](i requires 0 <= i < |stripped| => stripped[i]);
    assert payload[..] == stripped;
    PatchBaseOffsets(payload, req.fetchOffset);
    resp := resp.(batchSize := ToInt32(payload.Length), batch := Some(payload[..]));
  }
}
