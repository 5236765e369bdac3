/** What a client can still read of a partition after later operations, rollovers included. */
module PartitionReads {
  import opened Bytes
  import opened Outcomes
  import opened RecordLog
  import opened Segments
  import opened Partitions
  import opened RecordBatches
  import opened Messages
  import opened FetchHandler

  /** Some append of the run finds no room, which closes the segment that was active. */
  ghost predicate Rolls(p: PartState, ops: seq<PartOp>)
    decreases |ops|
  {
    && ops != []
    && ((ops[0].AppendOp? && !HasRoom(p.active, ops[0].data)) || Rolls(PartStep(p, ops[0]), ops[1..]))
  }

  // ----------------------------------------------------------------- windows

  /** What reading a window of the active segment gives after `ops`: an error once a rollover has closed it. */
  ghost function WindowLater(p: PartState, off: nat, n: nat, ops: seq<PartOp>): Option<bytes>
    decreases |ops|
  {
    if ops == [] then (if off + n <= |p.active.file| then Some(p.active.file[off..off + n]) else None)
    else if ops[0].AppendOp? && !HasRoom(p.active, ops[0].data) then None
    else WindowLater(PartStep(p, ops[0]), off, n, ops[1..])
  }

  lemma StepGrows(p: PartState, op: PartOp)
    requires op.AppendOp? ==> HasRoom(p.active, op.data)
    ensures p.active.file <= PartStep(p, op).active.file
  {
    hide Rolled, Frame;
  }

  lemma {:induction false} WindowLaterIs(p: PartState, off: nat, n: nat, ops: seq<PartOp>)
    requires off + n <= |p.active.file|
    ensures WindowLater(p, off, n, ops) == (if Rolls(p, ops) then None else Some(p.active.file[off..off + n]))
    decreases |ops|
  {
    hide PartStep, HasRoom;
    if ops != [] && !(ops[0].AppendOp? && !HasRoom(p.active, ops[0].data)) {
      StepGrows(p, ops[0]);
      var q := PartStep(p, ops[0]);
      assert q.active.file[off..off + n] == p.active.file[off..off + n];
      WindowLaterIs(q, off, n, ops[1..]);
    }
  }

  /**
   * A window granted on a partition, read outside the lock, shows the bytes it was granted
   * after any further operations exactly as long as none of them rolls the partition over.
   */
  lemma WindowReadable(p: PartState, chain: seq<Link>, off: nat, n: nat, ops: seq<PartOp>)
    requires ChainHolds(p, chain) && off + n <= p.active.size
    ensures chain != [] && off + n <= |Frames(chain[|chain| - 1].recs)|
    ensures var q := PartStep(p, ReadOp);
            WindowLater(q, off, n, ops) == Some(Frames(chain[|chain| - 1].recs)[off..off + n]) <==> !Rolls(q, ops)
  {
    hide Frames, Tiles, ClosedOnDisk, IndexHolds, Rolls;
    WindowLaterIs(PartStep(p, ReadOp), off, n, ops);
  }

  // ------------------------------------------------------ acknowledged offsets

  /** The operations as the active segment sees them while it stays active. */
  function SegOps(ops: seq<PartOp>): seq<Op> {
    if ops == [] then []
    else
      [match ops[0] case AppendOp(data) => Append(data) case FlushOp => Flush case ReadOp => ReadAt(0)]
      + SegOps(ops[1..])
  }

  lemma {:induction false} RunWithoutRoll(p: PartState, ops: seq<PartOp>)
    requires !Rolls(p, ops)
    ensures PartRun(p, ops).active == Run(p.active, SegOps(ops)) && PartRun(p, ops).base == p.base
    decreases |ops|
  {
    if ops != [] {
      hide Appended, Flushed, Visible, Rolled, HasRoom;
      RunWithoutRoll(PartStep(p, ops[0]), ops[1..]);
      assert SegOps(ops)[1..] == SegOps(ops[1..]);
    }
  }

  /**
   * A batch acknowledged by a partition comes back at its offset, with only its base offset
   * changed, after any operations on the partition that do not roll it over.
   */
  lemma AcknowledgedStaysServed(p: PartState, chain: seq<Link>, batch: bytes, crc: bytes -> nat, ops: seq<PartOp>,
      req: FetchPart, remaining: int32)
    requires ChainHolds(p, chain) && PartOffset(p, batch) == Some(req.fetchOffset)
    requires Validate(batch, crc).Valid? && Total(batch) == |batch| <= Cap(req, remaining) <= MAX_CAP
    requires !Rolls(PartAppended(p, batch), ops)
    ensures var r := ServePart(PartRun(PartAppended(p, batch), ops).active, req, remaining);
            && r.code == ERR_NONE && r.batch.Some? && |batch| <= |r.batch.value|
            && Faithful(r.batch.value[..|batch|], batch, req.fetchOffset + HEADER + |batch|, crc)
  {
    hide ChainHolds, Holds, Validate, Total, ServePart, Faithful, Target, Appended, PartRun, Run, Rolls, HasRoom;
    LastHolds(p, chain, batch);
    var recs :| Holds(Target(p, batch).active, recs);
    RunWithoutRoll(PartAppended(p, batch), ops);
    ProducedBatchComesBack(Target(p, batch).active, recs, batch, crc, SegOps(ops), req, remaining);
  }

  /**
   * An append that rolls the partition over hides what was acknowledged before it: the
   * new segment holds that record alone, and a fetch at an old offset is served bytes of it
   * exactly when the offset lies within the record, and nothing otherwise.
   */
  lemma RolloverHides(p: PartState, chain: seq<Link>, data: bytes, req: FetchPart, remaining: int32)
    requires ChainHolds(p, chain) && !HasRoom(p.active, data) && HEADER + |data| <= EffectiveMax(p.cfg)
    ensures var q := PartAppended(p, data);
            && Holds(q.active, [data])
            && (ServePart(q.active, req, remaining).batch.Some? <==>
                  0 <= req.fetchOffset <= |data| && 0 < Cap(req, remaining) <= MAX_CAP)
  {
    hide Frames, Frame, ServePart, IndexHolds, ChainHolds;
    var q := Rolled(p);
    RolledEmpty(p, chain);
    assert Holds(q.active, []);
    AppendHolds(q.active, [], data);
    assert [] + [data] == [data];
    FramesAppend([], data);
    EmptyLog();
    ServedIff(PartAppended(p, data).active, req, remaining);
  }

  lemma RolledEmpty(p: PartState, chain: seq<Link>)
    requires ChainHolds(p, chain)
    ensures Holds(Rolled(p).active, []) && Rolled(p).active.size == 0
    ensures Rolled(p).active.maxSize == EffectiveMax(p.cfg)
  {
    hide Frames, Holds, Tiles, ClosedOnDisk, IndexHolds;
    if p.active.size == 0 {
      RolledInPlace(p, chain);
      EmptyRecs(Rolled(p).active, chain[|chain| - 1].recs);
    } else {
      RolledOnward(p, chain);
      var c := RolledChain(p, chain);
      EmptyRecs(Rolled(p).active, c[|c| - 1].recs);
    }
  }

  lemma EmptyRecs(s: SegState, recs: seq<bytes>)
    requires Holds(s, recs) && s.size == 0
    ensures recs == []
  {
    HoldsSize(s, recs);
  }
}
