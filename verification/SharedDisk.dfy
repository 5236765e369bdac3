/**
 * The partitions on one disk. Each open store has its own buffers and counters, and the
 * files are those of its directory, which another key may name too. The handlers are
 * stated over a map from keys to partitions; here is when that map is what they do.
 */
module SharedDisk {
  import opened Bytes
  import opened Outcomes
  import opened Names
  import opened Directories
  import opened RecordLog
  import opened SparseIndex
  import opened Segments
  import opened Partitions
  import opened FetchHandler
  import opened ProduceHandler
  import opened OffsetRecords
  import opened OffsetHandlers

  /** The files of every directory, and the open stores by key, each as it last saw its files. */
  datatype World = World(disk: map<Path, map<nat, Files>>, open: map<bytes, PartState>)

  function FilesIn(w: World, d: Path): map<nat, Files> {
    if d in w.disk then w.disk[d] else map[]
  }

  /** The store with its files as they are now. */
  function Refreshed(p: PartState, files: map<nat, Files>): PartState {
    var now := FilesAt(files, p.base);
    p.(dir := files, active := p.active.(file := now.log, index := p.active.index.(file := now.index)))
  }

  /** The store for a key as the disk shows it, opened over whatever its directory holds when it is new. */
  function See(root: Path, w: World, key: bytes, cfg: int64): PartState {
    var files := FilesIn(w, DirOf(root, key));
    if key in w.open then Refreshed(w.open[key], files) else OpenedPart(files, cfg)
  }

  function OnDisk(p: PartState): map<nat, Files> {
    p.dir[p.base := Files(p.active.file, p.active.index.file)]
  }

  /** The store for `key` becomes `p`, and its directory holds the files of `p`. */
  function Wrote(root: Path, w: World, key: bytes, p: PartState): World {
    World(w.disk[DirOf(root, key) := OnDisk(p)], w.open[key := p])
  }

  // ---------------------------------------------------------- the two handlers

  function DiskStored(env: Env, crc: bytes -> nat, root: Path, w: World, b: Batch): World {
    var key := PartitionKey(b.tp);
    if Acceptable(b.data, crc) && (key in w.open || key !in env.failing)
    then Wrote(root, w, key, PartAppended(See(root, w, key, env.cfg), b.data))
    else w
  }

  function DiskAck(env: Env, crc: bytes -> nat, root: Path, w: World, b: Batch): Ack {
    var key := PartitionKey(b.tp);
    if !Acceptable(b.data, crc) then Ack(b.tp.partition, ERR_CORRUPT_MESSAGE, -1)
    else if !(key in w.open || key !in env.failing) then Ack(b.tp.partition, ERR_STORAGE, -1)
    else
      match PartOffset(See(root, w, key, env.cfg), b.data)
      case None => Ack(b.tp.partition, ERR_STORAGE, -1)
      case Some(off) => Ack(b.tp.partition, ERR_NONE, ToInt64(off))
  }

  function DiskAnswer(env: Env, root: Path, w: World, item: Item, remaining: int32): PartResp {
    var key := KeyOf(item);
    if key !in w.open && key in env.failing
    then PartResp(item.req.partition, ERR_OFFSET_OUT_OF_RANGE, 0, -1, None)
    else ServePart(See(root, w, key, env.cfg).active, item.req, remaining)
  }

  function DiskFetched(env: Env, root: Path, w: World, item: Item, remaining: int32): World {
    var key := KeyOf(item);
    if key !in w.open && key in env.failing then w
    else
      var p := See(root, w, key, env.cfg);
      Wrote(root, w, key, if ReadGranted(p.active, item.req, remaining) then p.(active := Visible(p.active)) else p)
  }

  // ------------------------------------------------------------- simulation

  /** Equal but for what the directory says about the active segment, which the store itself knows better. */
  ghost predicate Same(p: PartState, q: PartState) {
    && p.base == q.base && p.active == q.active && p.nextBase == q.nextBase && p.cfg == q.cfg
    && p.dir - {p.base} == q.dir - {q.base}
  }

  /** The disk holds the partitions of the map, each in its own directory, and nothing for other canonical keys. */
  ghost predicate Sim(root: Path, w: World, stores: Stores, cfg: int64) {
    && w.open.Keys == stores.Keys
    && (forall k :: k in stores ==> Canonical(k) && Same(See(root, w, k, cfg), stores[k]))
    && (forall k :: Canonical(k) && k !in stores ==> FilesIn(w, DirOf(root, k)) == map[])
  }

  lemma SameRolled(p: PartState, q: PartState)
    requires Same(p, q)
    ensures Rolled(p) == Rolled(q)
  {
    hide OpenAt, FilesOf;
    var f := FilesOf(p.active);
    assert p.dir[p.base := f] == (p.dir - {p.base})[p.base := f];
    assert q.dir[q.base := f] == (q.dir - {q.base})[q.base := f];
  }

  lemma SameAppended(p: PartState, q: PartState, data: bytes)
    requires Same(p, q)
    ensures Same(PartAppended(p, data), PartAppended(q, data)) && PartOffset(p, data) == PartOffset(q, data)
  {
    hide Rolled, Appended, HasRoom;
    if !HasRoom(p.active, data) {
      SameRolled(p, q);
    }
  }

  /** A store that has written sees what it wrote. */
  lemma SeesItself(root: Path, w: World, key: bytes, p: PartState, cfg: int64)
    ensures Same(See(root, Wrote(root, w, key, p), key, cfg), p)
  {
    hide DirOf;
    assert FilesAt(OnDisk(p), p.base) == Files(p.active.file, p.active.index.file);
    assert OnDisk(p) - {p.base} == p.dir - {p.base};
  }

  /** A store in another directory sees no difference. */
  lemma SeesNothing(root: Path, w: World, key: bytes, p: PartState, other: bytes, cfg: int64)
    requires key != other && DirOf(root, key) != DirOf(root, other)
    ensures See(root, Wrote(root, w, key, p), other, cfg) == See(root, w, other, cfg)
    ensures FilesIn(Wrote(root, w, key, p), DirOf(root, other)) == FilesIn(w, DirOf(root, other))
  {
    hide DirOf, Refreshed, OpenedPart, OnDisk;
  }

  lemma SimStore(root: Path, w: World, stores: Stores, key: bytes, cfg: int64)
    requires Sim(root, w, stores, cfg) && Canonical(key)
    ensures Same(See(root, w, key, cfg), StoreFor(stores, key, cfg)) && (key in w.open <==> key in stores)
  {
    hide DirOf, Canonical, Refreshed, OpenedPart;
  }

  lemma SimWrote(root: Path, w: World, stores: Stores, key: bytes, p: PartState, q: PartState, cfg: int64)
    requires Sim(root, w, stores, cfg) && Canonical(key) && Same(p, q)
    ensures Sim(root, Wrote(root, w, key, p), stores[key := q], cfg)
  {
    hide Canonical, DirOf, Refreshed, OpenedPart, OnDisk, Same, FilesIn, See;
    var w1, stores1 := Wrote(root, w, key, p), stores[key := q];
    forall k | k in stores1
      ensures Canonical(k) && Same(See(root, w1, k, cfg), stores1[k])
    {
      if k == key {
        SeesItself(root, w, key, p, cfg);
        SameTrans(See(root, w1, k, cfg), p, q);
      } else {
        DirsApart(root, key, k);
        SeesNothing(root, w, key, p, k, cfg);
      }
    }
    forall k | Canonical(k) && k !in stores1
      ensures FilesIn(w1, DirOf(root, k)) == map[]
    {
      DirsApart(root, key, k);
      SeesNothing(root, w, key, p, k, cfg);
    }
  }

  lemma SameTrans(p: PartState, q: PartState, r: PartState)
    requires Same(p, q) && Same(q, r)
    ensures Same(p, r)
  {
  }

  /** An empty disk is the empty map. */
  lemma SimEmpty(root: Path, cfg: int64)
    ensures Sim(root, World(map[], map[]), map[], cfg)
  {
    hide DirOf, Canonical;
  }

  /**
   * As long as keys are canonical, a produced batch does to the disk what it does to the
   * map of partitions, and is acknowledged alike.
   */
  lemma ProduceOnDisk(env: Env, crc: bytes -> nat, root: Path, w: World, stores: Stores, b: Batch)
    requires Sim(root, w, stores, env.cfg) && Canonical(PartitionKey(b.tp))
    ensures DiskAck(env, crc, root, w, b) == AckFor(env, crc, stores, b)
    ensures Sim(root, DiskStored(env, crc, root, w, b), Stored(env, crc, stores, b), env.cfg)
  {
    hide Acceptable, PartitionKey, Canonical, See, Sim, Same, PartAppended, PartOffset, StoreFor, Wrote;
    var key := PartitionKey(b.tp);
    SimStore(root, w, stores, key, env.cfg);
    var p, q := See(root, w, key, env.cfg), StoreFor(stores, key, env.cfg);
    SameAppended(p, q, b.data);
    SimWrote(root, w, stores, key, PartAppended(p, b.data), PartAppended(q, b.data), env.cfg);
  }

  /** And a fetch is answered from the disk as it is from the map. */
  lemma FetchOnDisk(env: Env, root: Path, w: World, s: FetchState, item: Item)
    requires Sim(root, w, s.stores, env.cfg) && Canonical(KeyOf(item))
    ensures DiskAnswer(env, root, w, item, s.remaining) == Answer(env, s, item)
    ensures Sim(root, DiskFetched(env, root, w, item, s.remaining), Fetched(env, s, item).stores, env.cfg)
  {
    hide KeyOf, Canonical, See, Sim, StoreFor, Wrote, ServePart, ReadGranted;
    var key := KeyOf(item);
    SimStore(root, w, s.stores, key, env.cfg);
    var p, q := See(root, w, key, env.cfg), StoreFor(s.stores, key, env.cfg);
    SimWrote(root, w, s.stores, key, p, q, env.cfg);
    SimWrote(root, w, s.stores, key, p.(active := Visible(p.active)), q.(active := Visible(q.active)), env.cfg);
  }

  /** A run of produced batches, in order. */
  function DiskStoredAll(env: Env, crc: bytes -> nat, root: Path, w: World, bs: seq<Batch>): World {
    if bs == [] then w
    else DiskStored(env, crc, root, DiskStoredAll(env, crc, root, w, bs[..|bs| - 1]), bs[|bs| - 1])
  }

  /** Over any row of batches for canonical keys the disk goes on being the map, and so do the acknowledgements. */
  lemma {:induction false} ProduceAllOnDisk(env: Env, crc: bytes -> nat, root: Path, w: World, stores: Stores,
      bs: seq<Batch>)
    requires Sim(root, w, stores, env.cfg)
    requires forall i :: 0 <= i < |bs| ==> Canonical(PartitionKey(bs[i].tp))
    ensures Sim(root, DiskStoredAll(env, crc, root, w, bs), StoredAll(env, crc, stores, bs), env.cfg)
    ensures forall i :: 0 <= i < |bs| ==>
              DiskAck(env, crc, root, DiskStoredAll(env, crc, root, w, bs[..i]), bs[i])
              == AckFor(env, crc, StoredAll(env, crc, stores, bs[..i]), bs[i])
  {
    hide Sim, DiskStored, Stored, DiskAck, AckFor, Canonical, PartitionKey;
    if bs != [] {
      var n := |bs| - 1;
      ProduceAllOnDisk(env, crc, root, w, stores, bs[..n]);
      ProduceOnDisk(env, crc, root, DiskStoredAll(env, crc, root, w, bs[..n]), StoredAll(env, crc, stores, bs[..n]),
                    bs[n]);
      forall i | 0 <= i < n
        ensures bs[..n][..i] == bs[..i] && bs[..n][i] == bs[i]
      {
      }
    }
  }

  /** From an empty disk on, any row of batches for canonical keys is stored and acknowledged as the map says. */
  lemma ProduceFromEmpty(env: Env, crc: bytes -> nat, root: Path, bs: seq<Batch>)
    requires forall i :: 0 <= i < |bs| ==> Canonical(PartitionKey(bs[i].tp))
    ensures var w := World(map[], map[]);
            && Sim(root, DiskStoredAll(env, crc, root, w, bs), StoredAll(env, crc, map[], bs), env.cfg)
            && forall i :: 0 <= i < |bs| ==>
                 DiskAck(env, crc, root, DiskStoredAll(env, crc, root, w, bs[..i]), bs[i])
                 == AckFor(env, crc, StoredAll(env, crc, map[], bs[..i]), bs[i])
  {
    hide Sim, DiskStoredAll, StoredAll, DiskAck, AckFor, Canonical, PartitionKey;
    SimEmpty(root, env.cfg);
    ProduceAllOnDisk(env, crc, root, World(map[], map[]), map[], bs);
  }

  /** The disk, and what is left of a request's byte budget. */
  datatype DiskFetch = DiskFetch(w: World, remaining: int32)

  function DiskFetchedOne(env: Env, root: Path, f: DiskFetch, item: Item): DiskFetch {
    var r := DiskAnswer(env, root, f.w, item, f.remaining);
    DiskFetch(DiskFetched(env, root, f.w, item, f.remaining),
              if r.batch.Some? then ToInt32(f.remaining - r.batchSize) else f.remaining)
  }

  function DiskFetchedAll(env: Env, root: Path, f: DiskFetch, items: seq<Item>): DiskFetch {
    if items == [] then f
    else DiskFetchedOne(env, root, DiskFetchedAll(env, root, f, items[..|items| - 1]), items[|items| - 1])
  }

  /** Over a whole fetch request for canonical keys too: every answer, the stores and the budget. */
  lemma {:induction false} FetchAllOnDisk(env: Env, root: Path, f: DiskFetch, s: FetchState, items: seq<Item>)
    requires Sim(root, f.w, s.stores, env.cfg) && f.remaining == s.remaining
    requires forall i :: 0 <= i < |items| ==> Canonical(KeyOf(items[i]))
    ensures var g, t := DiskFetchedAll(env, root, f, items), FetchedAll(env, s, items);
            Sim(root, g.w, t.stores, env.cfg) && g.remaining == t.remaining
    ensures forall i :: 0 <= i < |items| ==>
              var g := DiskFetchedAll(env, root, f, items[..i]);
              DiskAnswer(env, root, g.w, items[i], g.remaining) == Answer(env, FetchedAll(env, s, items[..i]), items[i])
  {
    hide Sim, DiskFetched, DiskAnswer, Canonical, KeyOf, Fetched, Answer;
    if items != [] {
      var n := |items| - 1;
      FetchAllOnDisk(env, root, f, s, items[..n]);
      var g, t := DiskFetchedAll(env, root, f, items[..n]), FetchedAll(env, s, items[..n]);
      FetchOnDisk(env, root, g.w, t, items[n]);
      RemainingIs(env, t, items[n]);
      forall i | 0 <= i < n
        ensures items[..n][..i] == items[..i] && items[..n][i] == items[i]
      {
      }
    }
  }

  lemma RemainingIs(env: Env, s: FetchState, item: Item)
    ensures var r := Answer(env, s, item);
            Fetched(env, s, item).remaining == if r.batch.Some? then ToInt32(s.remaining - r.batchSize) else s.remaining
  {
    hide KeyOf, ServePart, ReadGranted, ToInt32;
  }

  // -------------------------------------------------------- consumer offsets

  /** A commit appended to the offsets partition on disk, and cached when the append took it. */
  function DiskCommitted(root: Path, w: World, cache: Cache, c: Commit, cfg: int64): (World, Cache) {
    var key, rec := PartitionKey(OFFSETS), RecordBytes(c);
    var p := See(root, w, key, cfg);
    (Wrote(root, w, key, PartAppended(p, rec)),
     if PartOffset(p, rec).Some? then cache[c.key := c.offset] else cache)
  }

  /** What a load makes of the offsets partition on disk. */
  function DiskLoaded(root: Path, w: World, cfg: int64): (Cache, bool) {
    Hydrate(map[], LoadWindow(See(root, w, PartitionKey(OFFSETS), cfg).active))
  }

  lemma OffsetsCanonical(root: Path)
    ensures Canonical(PartitionKey(OFFSETS))
  {
    hide Canonical, PartitionKey, DirOf;
    PlainDir(root, OFFSETS);
  }

  /**
   * Among canonical keys a commit does to the disk and the cache what it does to the map of
   * partitions and the cache, and a load of the disk is a load of the map's partition.
   */
  lemma CommitOnDisk(root: Path, w: World, stores: Stores, cache: Cache, c: Commit, cfg: int64)
    requires Sim(root, w, stores, cfg)
    ensures var key := PartitionKey(OFFSETS);
            var (w1, cache1) := DiskCommitted(root, w, cache, c, cfg);
            var after := Committed(OffsetState(StoreFor(stores, key, cfg), cache), c);
            && Sim(root, w1, stores[key := after.part], cfg)
            && cache1 == after.cache
            && DiskLoaded(root, w1, cfg) == Hydrate(map[], LoadWindow(after.part.active))
  {
    hide PartitionKey, Canonical, See, Sim, PartAppended, PartOffset, StoreFor, Wrote, RecordBytes, LoadWindow;
    var key, rec := PartitionKey(OFFSETS), RecordBytes(c);
    OffsetsCanonical(root);
    SimStore(root, w, stores, key, cfg);
    var p, q := See(root, w, key, cfg), StoreFor(stores, key, cfg);
    SameAppended(p, q, rec);
    SimWrote(root, w, stores, key, PartAppended(p, rec), PartAppended(q, rec), cfg);
    var w1, stores1 := Wrote(root, w, key, PartAppended(p, rec)), stores[key := PartAppended(q, rec)];
    SimStore(root, w1, stores1, key, cfg);
    assert StoreFor(stores1, key, cfg) == PartAppended(q, rec) by { StoreIs(stores1, key, cfg); }
  }

  lemma StoreIs(stores: Stores, key: bytes, cfg: int64)
    requires key in stores
    ensures StoreFor(stores, key, cfg) == stores[key]
  {
  }

  // ---------------------------------------------------- sharing a directory

  /** A batch appended for `key` and flushed. */
  function Pushed(root: Path, w: World, key: bytes, data: bytes, cfg: int64): World {
    var q := PartAppended(See(root, w, key, cfg), data);
    Wrote(root, w, key, q.(active := Flushed(q.active)))
  }

  /** An accepted record makes the file of the segment that took it longer than it was on disk. */
  lemma FileLonger(p: PartState, data: bytes)
    requires PartOffset(p, data).Some? && p.active.file == FilesAt(p.dir, p.base).log
    ensures var q := PartAppended(p, data);
            |Flushed(q.active).file| > |FilesAt(p.dir, q.base).log|
  {
    hide OpenedIndex, FlushedIndex, Frame;
  }

  lemma SeesDisk(root: Path, w: World, key: bytes, cfg: int64)
    ensures var p := See(root, w, key, cfg);
            p.dir == FilesIn(w, DirOf(root, key)) && p.active.file == FilesAt(p.dir, p.base).log
  {
    hide DirOf, OpenedIndex;
  }

  /**
   * A batch accepted for one key and flushed leaves another open partition as it was if and
   * only if the two keys are kept in different directories.
   */
  lemma UntouchedIff(root: Path, w: World, key: bytes, data: bytes, other: bytes, cfg: int64)
    requires key != other && other in w.open && PartOffset(See(root, w, key, cfg), data).Some?
    ensures See(root, Pushed(root, w, key, data, cfg), other, cfg) == See(root, w, other, cfg)
            <==> DirOf(root, key) != DirOf(root, other)
  {
    hide DirOf, PartAppended, PartOffset, See, Flushed;
    var p := See(root, w, key, cfg);
    var q := PartAppended(p, data);
    var q1 := q.(active := Flushed(q.active));
    var w1 := Pushed(root, w, key, data, cfg);
    SeesDisk(root, w, key, cfg);
    if DirOf(root, key) != DirOf(root, other) {
      SeesNothing(root, w, key, q1, other, cfg);
    } else {
      FileLonger(p, data);
      SeesDisk(root, w, other, cfg);
      SeesDisk(root, w1, other, cfg);
      assert FilesIn(w1, DirOf(root, other)) == OnDisk(q1);
      assert FilesAt(OnDisk(q1), q1.base).log == Flushed(q.active).file;
    }
  }

  /**
   * What sharing does: once another key has flushed its records into the file, the offset a
   * store acknowledges for its next record is where the other key's first record is, and reads
   * back that one. `mine` is what the other key had buffered before `data`.
   */
  lemma SharedOffsetMisreads(root: Path, w: World, key: bytes, mine: seq<bytes>, data: bytes, other: bytes, cfg: int64,
      recs: seq<bytes>, next: bytes)
    requires key != other && other in w.open && DirOf(root, key) == DirOf(root, other)
    requires var p, a := See(root, w, key, cfg), See(root, w, other, cfg);
             && p.base == a.base && p.active.buf == Frames(mine) && HasRoom(p.active, data)
             && Holds(a.active, recs) && a.active.buf == [] && HasRoom(a.active, next)
    requires |(mine + [data])[0]| < TWO32
    ensures var t := See(root, Pushed(root, w, key, data, cfg), other, cfg);
            && t.active.file == Frames(recs + (mine + [data]))
            && PartOffset(t, next) == Some(Start(recs, |recs|))
            && RecordAt(Visible(PartAppended(t, next).active).file, Start(recs, |recs|)) == Some((mine + [data])[0])
  {
    hide DirOf, Frames, IndexHolds, Start, RecordAt;
    var all := recs + (mine + [data]);
    var t := See(root, Pushed(root, w, key, data, cfg), other, cfg);
    SharedFile(root, w, key, mine, data, other, cfg, recs);
    WholeLog(recs);
    StartStable(recs, mine + [data], |recs|);
    assert all[|recs|] == (mine + [data])[0];
    assert Visible(PartAppended(t, next).active).file == Frames(all) + (t.active.buf + Frame(next));
    RecordAtStart(all, |recs|, t.active.buf + Frame(next));
  }

  lemma SharedFile(root: Path, w: World, key: bytes, mine: seq<bytes>, data: bytes, other: bytes, cfg: int64,
      recs: seq<bytes>)
    requires key != other && other in w.open && DirOf(root, key) == DirOf(root, other)
    requires var p, a := See(root, w, key, cfg), See(root, w, other, cfg);
             && p.base == a.base && p.active.buf == Frames(mine) && HasRoom(p.active, data)
             && Holds(a.active, recs) && a.active.buf == []
    ensures var a, t := See(root, w, other, cfg).active, See(root, Pushed(root, w, key, data, cfg), other, cfg).active;
            t.file == Frames(recs + (mine + [data])) && t.buf == [] && t.size == a.size && t.maxSize == a.maxSize
  {
    hide DirOf, Frames, Frame, IndexHolds, OpenedIndex, FlushedIndex;
    var p, a := See(root, w, key, cfg), See(root, w, other, cfg);
    SeesDisk(root, w, key, cfg);
    SeesDisk(root, w, other, cfg);
    assert a.active.file + [] == a.active.file;
    FramesConcat(recs, mine + [data]);
    FramesAppend(mine, data);
  }

  /** A batch for a topic with a slash before it changes the partition of the topic without. */
  lemma SlashTouches(root: Path, w: World, tp: TopicPartition, data: bytes, cfg: int64)
    requires SLASH !in tp.topic && PartitionKey(tp) in w.open
    requires PartOffset(See(root, w, PartitionKey(TopicPartition([SLASH] + tp.topic, tp.partition)), cfg), data).Some?
    ensures var slashed := PartitionKey(TopicPartition([SLASH] + tp.topic, tp.partition));
            See(root, Pushed(root, w, slashed, data, cfg), PartitionKey(tp), cfg) != See(root, w, PartitionKey(tp), cfg)
  {
    hide DirOf, PartOffset, See, Pushed, PartitionKey;
    var slashed := PartitionKey(TopicPartition([SLASH] + tp.topic, tp.partition));
    SlashShares(root, tp);
    UntouchedIff(root, w, slashed, data, PartitionKey(tp), cfg);
  }
}
