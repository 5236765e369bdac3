/** A partition: one active segment, and the chain of segments it rolled out of. */
module Partitions {
  import opened Bytes
  import opened Outcomes
  import opened Seqs
  import opened RecordLog
  import opened SparseIndex
  import opened Segments

  /** The two files of one segment as they are on disk. */
  datatype Files = Files(log: bytes, index: bytes)

  /** `dir` is the partition's directory by base offset; the active segment's files in it may lag. */
  datatype PartState = PartState(dir: map<nat, Files>, base: nat, active: SegState, nextBase: nat, cfg: int64)

  function FilesAt(dir: map<nat, Files>, base: nat): Files {
    if base in dir then dir[base] else Files([], [])
  }

  function OpenAt(dir: map<nat, Files>, base: nat, cfg: int64): SegState {
    Opened(FilesAt(dir, base).log, FilesAt(dir, base).index, cfg)
  }

  /** Opening a partition always opens the segment at base 0. */
  function OpenedPart(dir: map<nat, Files>, cfg: int64): PartState {
    PartState(dir, 0, OpenAt(dir, 0, cfg), 0, cfg)
  }

  function FilesOf(s: SegState): Files {
    Files(Flushed(s).file, Flushed(s).index.file)
  }

  /** Close the active segment and open the one that starts where it ends. */
  function Rolled(p: PartState): PartState {
    var dir := p.dir[p.base := FilesOf(p.active)];
    var next := p.nextBase + p.active.size;
    PartState(dir, next, OpenAt(dir, next, p.cfg), next, p.cfg)
  }

  /** The partition the record is finally offered to: rolled over once if it did not fit. */
  function Target(p: PartState, data: bytes): PartState {
    if HasRoom(p.active, data) then p else Rolled(p)
  }

  function PartAppended(p: PartState, data: bytes): PartState {
    var t := Target(p, data);
    t.(active := Appended(t.active, data))
  }

  /** The offset an append returns, counted from the start of the segment that took the record. */
  function PartOffset(p: PartState, data: bytes): Option<nat> {
    var t := Target(p, data);
    if HasRoom(t.active, data) then Some(t.active.size) else None
  }

  // ------------------------------------------------------------------ chain

  /** One segment of the chain: where it starts in the partition, and what it holds. */
  datatype Link = Link(base: nat, recs: seq<bytes>)

  function AllRecs(chain: seq<Link>): seq<bytes> {
    if chain == [] then [] else AllRecs(chain[..|chain| - 1]) + chain[|chain| - 1].recs
  }

  /** Segment `i` starts at the total size of the segments before it: no gap, no overlap. */
  ghost predicate Tiles(chain: seq<Link>) {
    forall i :: 0 <= i < |chain| ==> chain[i].base == |Frames(AllRecs(chain[..i]))|
  }

  /** The closed segments of the chain are on disk, and each holds at least one record. */
  ghost predicate ClosedOnDisk(p: PartState, chain: seq<Link>) {
    forall i :: 0 <= i < |chain| - 1 ==>
      && chain[i].recs != []
      && chain[i].base in p.dir
      && Holds(OpenAt(p.dir, chain[i].base, p.cfg), chain[i].recs)
  }

  /** `p` is a partition holding the chain, whose last segment is the active one. */
  ghost predicate ChainHolds(p: PartState, chain: seq<Link>) {
    && chain != []
    && Tiles(chain)
    && ClosedOnDisk(p, chain)
    && p.base == p.nextBase == chain[|chain| - 1].base
    && Holds(p.active, chain[|chain| - 1].recs)
    && p.active.maxSize == EffectiveMax(p.cfg)
    && (p.base in p.dir ==> p.dir[p.base] == Files([], []))
    && (forall b :: b in p.dir ==> b <= p.base)
  }

  /** The chain after a rollover: an empty active segment is reopened in place. */
  function RolledChain(p: PartState, chain: seq<Link>): seq<Link> {
    if p.active.size == 0 then chain else chain + [Link(p.nextBase + p.active.size, [])]
  }

  function Extended(chain: seq<Link>, data: bytes): (r: seq<Link>)
    requires chain != []
    ensures |r| == |chain|
  {
    var n := |chain| - 1;
    chain[n := Link(chain[n].base, chain[n].recs + [data])]
  }

  function ChainAfter(p: PartState, chain: seq<Link>, data: bytes): (r: seq<Link>)
    requires chain != []
    ensures r != []
  {
    var c := if HasRoom(p.active, data) then chain else RolledChain(p, chain);
    if PartOffset(p, data).Some? then Extended(c, data) else c
  }

  lemma ChainEnd(p: PartState, chain: seq<Link>)
    requires ChainHolds(p, chain)
    ensures p.base + p.active.size == |Frames(AllRecs(chain))|
  {
    hide Frames, Holds;
    var n := |chain| - 1;
    assert chain[n].base == |Frames(AllRecs(chain[..n]))|;
    FramesConcat(AllRecs(chain[..n]), chain[n].recs);
    HoldsSize(p.active, chain[n].recs);
  }

  lemma HoldsSize(s: SegState, recs: seq<bytes>)
    requires Holds(s, recs)
    ensures s.size == |Frames(recs)|
    ensures s.size == 0 <==> recs == []
    ensures s.size == 0 ==> FilesOf(s) == Files([], [])
  {
    if recs == [] {
      EmptyLog();
    }
    hide Frames;
    if s.size == 0 {
      assert s.index.entries == [];
    }
  }

  lemma RolledInPlace(p: PartState, chain: seq<Link>)
    requires ChainHolds(p, chain) && p.active.size == 0
    ensures ChainHolds(Rolled(p), chain)
    ensures Rolled(p).active.size == 0
  {
    hide Frames, Holds, AllRecs, OpenedIndex;
    var n := |chain| - 1;
    HoldsSize(p.active, chain[n].recs);
    EmptyHolds(p.cfg);
    HoldsSize(Opened([], [], p.cfg), []);
    var q := Rolled(p);
    forall i | 0 <= i < n
      ensures chain[i].base in q.dir && FilesAt(q.dir, chain[i].base) == FilesAt(p.dir, chain[i].base)
    {
      BasesIncrease(p, chain, i);
    }
  }

  /** A closed segment starts strictly before the active one. */
  lemma BasesIncrease(p: PartState, chain: seq<Link>, i: nat)
    requires ChainHolds(p, chain) && i < |chain| - 1
    ensures chain[i].base < p.base
  {
    hide Frames, Holds;
    PrefixRecs(chain, i, |chain| - 1);
  }

  lemma {:induction false} PrefixRecs(chain: seq<Link>, i: nat, j: nat)
    requires i < j <= |chain| && chain[i].recs != []
    ensures |Frames(AllRecs(chain[..i]))| < |Frames(AllRecs(chain[..j]))|
  {
    hide Frames;
    assert chain[..j][..j - 1] == chain[..j - 1];
    FramesConcat(AllRecs(chain[..j - 1]), chain[j - 1].recs);
    if i < j - 1 {
      PrefixRecs(chain, i, j - 1);
    }
  }

  lemma RolledOnward(p: PartState, chain: seq<Link>)
    requires ChainHolds(p, chain) && p.active.size > 0
    ensures ChainHolds(Rolled(p), RolledChain(p, chain))
    ensures AllRecs(RolledChain(p, chain)) == AllRecs(chain)
    ensures Rolled(p).active.size == 0
  {
    hide Frames, Holds, Tiles, ClosedOnDisk;
    var n := |chain| - 1;
    var q, c := Rolled(p), RolledChain(p, chain);
    HoldsSize(p.active, chain[n].recs);
    ChainEnd(p, chain);
    assert c[..n + 1] == chain;
    assert AllRecs(chain) + [] == AllRecs(chain);
    RolledTiles(p, chain);
    RolledClosed(p, chain);
    assert FilesAt(q.dir, q.base) == Files([], []);
    EmptyHolds(p.cfg);
    HoldsSize(Opened([], [], p.cfg), []);
  }

  lemma RolledTiles(p: PartState, chain: seq<Link>)
    requires ChainHolds(p, chain) && p.active.size > 0
    ensures Tiles(RolledChain(p, chain))
  {
    hide Frames, Holds, AllRecs;
    ChainEnd(p, chain);
    var c := RolledChain(p, chain);
    forall i | 0 <= i < |c|
      ensures c[i].base == |Frames(AllRecs(c[..i]))|
    {
      if i < |chain| {
        assert c[..i] == chain[..i];
      } else {
        assert c[..i] == chain;
      }
    }
  }

  lemma RolledClosed(p: PartState, chain: seq<Link>)
    requires ChainHolds(p, chain) && p.active.size > 0
    ensures ClosedOnDisk(Rolled(p), RolledChain(p, chain))
  {
    hide Frames, Holds, AllRecs;
    var n := |chain| - 1;
    var q, c := Rolled(p), RolledChain(p, chain);
    HoldsSize(p.active, chain[n].recs);
    ReopenHolds(p.active, chain[n].recs, p.cfg);
    forall i | 0 <= i < |c| - 1
      ensures c[i].recs != [] && c[i].base in q.dir && Holds(OpenAt(q.dir, c[i].base, q.cfg), c[i].recs)
    {
      if i < n {
        BasesIncrease(p, chain, i);
      }
    }
  }

  lemma ExtendHolds(p: PartState, chain: seq<Link>, data: bytes)
    requires ChainHolds(p, chain) && HasRoom(p.active, data)
    ensures ChainHolds(p.(active := Appended(p.active, data)), Extended(chain, data))
    ensures AllRecs(Extended(chain, data)) == AllRecs(chain) + [data]
  {
    hide Frames, Holds, Appended;
    var n := |chain| - 1;
    var c := Extended(chain, data);
    AppendHolds(p.active, chain[n].recs, data);
    assert c[..n] == chain[..n];
    Assoc(AllRecs(chain[..n]), chain[n].recs, [data]);
    forall i | 0 <= i < |c|
      ensures c[i].base == |Frames(AllRecs(c[..i]))|
    {
      assert c[..i] == chain[..i];
    }
  }

  /**
   * One append, however it ends, leaves a tiling chain that holds what it held
   * and the record if it was accepted; the segment's base plus the offset returned
   * is the number of bytes accepted before.
   */
  lemma AppendKeepsChain(p: PartState, chain: seq<Link>, data: bytes)
    requires ChainHolds(p, chain)
    ensures ChainHolds(PartAppended(p, data), ChainAfter(p, chain, data))
    ensures match PartOffset(p, data)
            case Some(off) =>
              && AllRecs(ChainAfter(p, chain, data)) == AllRecs(chain) + [data]
              && PartAppended(p, data).base + off == |Frames(AllRecs(chain))|
            case None => AllRecs(ChainAfter(p, chain, data)) == AllRecs(chain)
  {
    var c := if HasRoom(p.active, data) then chain else RolledChain(p, chain);
    TargetHolds(p, chain, data);
    var t := Target(p, data);
    hide Frames, ChainHolds, Target, AllRecs;
    ChainEnd(t, c);
    if HasRoom(t.active, data) {
      ExtendHolds(t, c, data);
    }
  }

  lemma TargetHolds(p: PartState, chain: seq<Link>, data: bytes)
    requires ChainHolds(p, chain)
    ensures var c := if HasRoom(p.active, data) then chain else RolledChain(p, chain);
            ChainHolds(Target(p, data), c) && AllRecs(c) == AllRecs(chain)
  {
    hide Frames, ChainHolds, Rolled, AllRecs;
    if !HasRoom(p.active, data) {
      if p.active.size == 0 {
        RolledInPlace(p, chain);
      } else {
        RolledOnward(p, chain);
      }
    }
  }

  lemma LastHolds(p: PartState, chain: seq<Link>, data: bytes)
    requires ChainHolds(p, chain)
    ensures exists recs :: Holds(Target(p, data).active, recs)
  {
    hide Holds, Tiles, ClosedOnDisk, Target;
    TargetHolds(p, chain, data);
    var c := if HasRoom(p.active, data) then chain else RolledChain(p, chain);
    assert Holds(Target(p, data).active, c[|c| - 1].recs);
  }

  /** A record is refused exactly when it is larger than a whole empty segment. */
  lemma RefusedIffOversize(p: PartState, chain: seq<Link>, data: bytes)
    requires ChainHolds(p, chain)
    ensures PartOffset(p, data).None? <==> HEADER + |data| > EffectiveMax(p.cfg)
  {
    TargetHolds(p, chain, data);
    if !HasRoom(p.active, data) {
      hide Frames, ChainHolds, AllRecs;
      if p.active.size == 0 {
        RolledInPlace(p, chain);
      } else {
        RolledOnward(p, chain);
      }
    }
  }

  lemma NonEmpty(p: PartState, chain: seq<Link>)
    requires ChainHolds(p, chain)
    ensures chain != []
  {
    hide Tiles, ClosedOnDisk, Holds;
  }

  lemma SameCfg(p: PartState, data: bytes)
    ensures PartAppended(p, data).cfg == p.cfg
  {
    hide Appended, HasRoom, OpenAt, FilesOf;
  }

  // -------------------------------------------------------------------- runs

  datatype PartOp = AppendOp(data: bytes) | FlushOp | ReadOp

  function PartStep(p: PartState, op: PartOp): PartState {
    match op
    case AppendOp(data) => PartAppended(p, data)
    case FlushOp => p.(active := Flushed(p.active))
    case ReadOp => p.(active := Visible(p.active))
  }

  function PartRun(p: PartState, ops: seq<PartOp>): PartState
    decreases |ops|
  {
    if ops == [] then p else PartRun(PartStep(p, ops[0]), ops[1..])
  }

  function ChainRun(p: PartState, chain: seq<Link>, ops: seq<PartOp>): (r: seq<Link>)
    requires chain != []
    ensures r != []
    decreases |ops|
  {
    if ops == [] then chain
    else
      var c := if ops[0].AppendOp? then ChainAfter(p, chain, ops[0].data) else chain;
      ChainRun(PartStep(p, ops[0]), c, ops[1..])
  }

  function PartAccepted(p: PartState, ops: seq<PartOp>): seq<bytes>
    decreases |ops|
  {
    if ops == [] then []
    else
      (if ops[0].AppendOp? && PartOffset(p, ops[0].data).Some? then [ops[0].data] else [])
      + PartAccepted(PartStep(p, ops[0]), ops[1..])
  }

  lemma StepKeepsChain(p: PartState, chain: seq<Link>, op: PartOp)
    requires ChainHolds(p, chain)
    ensures var c := if op.AppendOp? then ChainAfter(p, chain, op.data) else chain;
            && ChainHolds(PartStep(p, op), c)
            && AllRecs(c) == AllRecs(chain) + (if op.AppendOp? && PartOffset(p, op.data).Some? then [op.data] else [])
  {
    hide Frames, AllRecs, Tiles, ClosedOnDisk, PartAppended, ChainAfter, IndexHolds;
    if op.AppendOp? {
      AppendKeepsChain(p, chain, op.data);
    }
    assert AllRecs(chain) + [] == AllRecs(chain);
    match op
    case FlushOp =>
      var q := PartStep(p, op);
      assert ClosedOnDisk(q, chain) by { SameDisk(p, q, chain); }
      assert IndexHolds(q.active.index, chain[|chain| - 1].recs, q.active.size) by
          { FlushIndexHolds(p.active, chain[|chain| - 1].recs); }
    case ReadOp =>
      assert ClosedOnDisk(PartStep(p, op), chain) by { SameDisk(p, PartStep(p, op), chain); }
    case _ =>
  }

  lemma SameDisk(p: PartState, q: PartState, chain: seq<Link>)
    requires ClosedOnDisk(p, chain) && q.dir == p.dir && q.cfg == p.cfg
    ensures ClosedOnDisk(q, chain)
  {
    hide Holds, OpenAt;
  }

  lemma FlushIndexHolds(s: SegState, recs: seq<bytes>)
    requires Holds(s, recs)
    ensures IndexHolds(Flushed(s).index, recs, s.size)
  {
    hide Frames;
  }

  lemma {:induction false} RunKeepsChain(p: PartState, chain: seq<Link>, ops: seq<PartOp>)
    requires chain != [] && ChainHolds(p, chain)
    ensures ChainHolds(PartRun(p, ops), ChainRun(p, chain, ops))
    ensures AllRecs(ChainRun(p, chain, ops)) == AllRecs(chain) + PartAccepted(p, ops)
    decreases |ops|
  {
    hide Frames, ChainHolds, AllRecs, PartStep, ChainAfter, PartOffset;
    if ops == [] {
      assert AllRecs(chain) + [] == AllRecs(chain);
    } else {
      var op := ops[0];
      StepKeepsChain(p, chain, op);
      var c := if op.AppendOp? then ChainAfter(p, chain, op.data) else chain;
      RunKeepsChain(PartStep(p, op), c, ops[1..]);
      Assoc(AllRecs(chain), if op.AppendOp? && PartOffset(p, op.data).Some? then [op.data] else [],
            PartAccepted(PartStep(p, op), ops[1..]));
    }
  }

  const FIRST: seq<Link> := [Link(0, [])]

  lemma EmptyPart(cfg: int64)
    ensures ChainHolds(OpenedPart(map[], cfg), FIRST)
    ensures AllRecs(FIRST) == []
  {
    EmptyLog();
    EmptyHolds(cfg);
    hide Frames, Holds, OpenedIndex;
    assert FIRST[..0] == [];
  }

  /**
   * A session on an empty directory, whatever is appended, flushed or read: the
   * segments tile the partition from 0, the active base is the total size of the
   * closed ones, and the chain holds exactly the accepted records, in order.
   */
  lemma PartitionRuns(cfg: int64, ops: seq<PartOp>)
    ensures var p0 := OpenedPart(map[], cfg);
            var chain := ChainRun(p0, FIRST, ops);
            && ChainHolds(PartRun(p0, ops), chain)
            && AllRecs(chain) == PartAccepted(p0, ops)
            && PartRun(p0, ops).base + PartRun(p0, ops).active.size == |Frames(PartAccepted(p0, ops))|
  {
    hide Frames, ChainHolds, AllRecs, PartRun, ChainRun, PartAccepted, OpenedPart;
    var p0 := OpenedPart(map[], cfg);
    EmptyPart(cfg);
    RunKeepsChain(p0, FIRST, ops);
    assert [] + PartAccepted(p0, ops) == PartAccepted(p0, ops);
    ChainEnd(PartRun(p0, ops), ChainRun(p0, FIRST, ops));
  }

  // ------------------------------------------------------------------ reopen

  /** A clean close and reopen of the whole partition. */
  function PartReopened(p: PartState, cfg: int64): PartState {
    OpenedPart(p.dir[p.base := FilesOf(p.active)], cfg)
  }

  lemma ConfigIrrelevant(log: bytes, index: bytes, cfg: int64, cfg': int64, recs: seq<bytes>)
    requires Holds(Opened(log, index, cfg), recs)
    ensures Holds(Opened(log, index, cfg'), recs)
  {
    hide Frames, IndexHolds;
  }

  /**
   * Reopening serves the records of the first segment of the chain only, so it
   * serves everything accepted exactly when no record was put in a later segment.
   */
  lemma ReopenServesFirstSegment(p: PartState, chain: seq<Link>, cfg: int64)
    requires ChainHolds(p, chain)
    ensures Holds(PartReopened(p, cfg).active, chain[0].recs)
    ensures chain[0].recs == AllRecs(chain) <==> forall i :: 0 < i < |chain| ==> chain[i].recs == []
  {
    hide Frames, Holds, AllRecs, Opened;
    var n := |chain| - 1;
    assert chain[0].base == 0 by {
      FirstBase(chain);
    }
    if n == 0 {
      ReopenHolds(p.active, chain[0].recs, cfg);
    } else {
      BasesIncrease(p, chain, 0);
      var f := FilesAt(p.dir, 0);
      ConfigIrrelevant(f.log, f.index, p.cfg, cfg, chain[0].recs);
    }
    LaterRecs(chain, |chain|);
    assert chain[..|chain|] == chain;
  }

  lemma FirstBase(chain: seq<Link>)
    requires chain != [] && Tiles(chain)
    ensures chain[0].base == 0
  {
    EmptyLog();
    hide Frames;
    assert chain[..0] == [];
  }

  lemma {:induction false} LaterRecs(chain: seq<Link>, j: nat)
    requires 1 <= j <= |chain|
    ensures |AllRecs(chain[..j])| >= |chain[0].recs|
    ensures chain[0].recs == AllRecs(chain[..j]) <==> |AllRecs(chain[..j])| == |chain[0].recs|
    ensures |AllRecs(chain[..j])| == |chain[0].recs| <==> forall i :: 0 < i < j ==> chain[i].recs == []
  {
    assert chain[..j][..j - 1] == chain[..j - 1];
    if j == 1 {
      assert chain[..0] == [];
    } else {
      LaterRecs(chain, j - 1);
    }
  }

  // -------------------------------------------------------------------- read

  /**
   * The window a read of at most `maxBytes` at `fetchOffset` is given: capped to
   * the bytes written, then checked by the segment. Signed conversions wrap.
   */
  function PartRead(s: SegState, fetchOffset: uint64, maxBytes: int32): Result<Window, ReadError> {
    var off := ToInt64(fetchOffset);
    if off >= s.size then Err(InvalidOffset)
    else
      var available := ToInt64(s.size - off);
      var n := if maxBytes > available then ToInt32(available) else maxBytes;
      match WindowCheck(s, off, n)
      case Some(e) => Err(e)
      case None => Ok(Window(off, n))
  }

  /** For offsets a client can have been given, a read serves exactly the bytes there are, up to the cap. */
  lemma PartReadServes(s: SegState, fetchOffset: uint64, maxBytes: int32)
    requires s.size < TWO63 && fetchOffset < TWO63
    ensures fetchOffset >= s.size ==> PartRead(s, fetchOffset, maxBytes) == Err(InvalidOffset)
    ensures fetchOffset < s.size && maxBytes <= 0 ==> PartRead(s, fetchOffset, maxBytes) == Err(InvalidSize)
    ensures fetchOffset < s.size && maxBytes > 0 ==>
              var n := if maxBytes > s.size - fetchOffset then s.size - fetchOffset else maxBytes;
              PartRead(s, fetchOffset, maxBytes) == Ok(Window(fetchOffset, n))
  {
  }

  /** The window shows the log from `from` on, up to `max` bytes or the end. */
  ghost predicate ReadsFrom(file: bytes, w: Window, recs: seq<bytes>, from: nat, max: int32) {
    var left := |Frames(recs)| - from;
    && w.off == from && w.n == (if max > left then left else max) && 0 < w.n <= left && from + w.n <= |file|
    && file[from..from + w.n] == Frames(recs)[from..from + w.n]
  }

  /** The offset and the segment an append ends up with, from sizes alone. */
  ghost predicate WhereAppended(p: PartState, data: bytes) {
    var max, need := if p.cfg > 0 then p.cfg else 0x4000_0000, 4 + |data|;
    var fits := p.active.size + need <= max;
    && PartOffset(p, data) == (if fits then Some(p.active.size) else if need <= max then Some(0) else None)
    && PartAppended(p, data).base == p.base + (if fits then 0 else p.active.size)
  }

  lemma AppendPlace(p: PartState, chain: seq<Link>, data: bytes)
    requires ChainHolds(p, chain)
    ensures WhereAppended(p, data)
  {
    hide Frames, Tiles, ClosedOnDisk, Holds;
    RefusedIffOversize(p, chain, data);
    if !HasRoom(p.active, data) {
      if p.active.size == 0 {
        RolledInPlace(p, chain);
      } else {
        RolledOnward(p, chain);
      }
    }
  }

  // -------------------------------------------------------------- the object

  class PartitionStore {
    const cfg: int64
    var dir: map<nat, Files>
    var active: Segment
    var nextBase: nat

    ghost function State(): PartState
      reads this, active, active.idx
    {
      PartState(dir, active.baseOffset, active.State(), nextBase, cfg)
    }

    constructor (dir: map<nat, Files>, cfg: int64)
      ensures State() == OpenedPart(dir, cfg)
      ensures fresh(active) && fresh(active.idx)
    {
      this.cfg := cfg;
      this.dir := dir;
      var files := FilesAt(dir, 0);
      active := new Segment(0, files.log, files.index, cfg);
      nextBase := 0;
    }

    /** Appends to the active segment, rolling over once when it is full. */
    method Append(data: bytes) returns (offset: Option<nat>)
      modifies this, active, active.idx
      ensures State() == PartAppended(old(State()), data)
      ensures offset == PartOffset(old(State()), data)
      ensures active == old(active) || (fresh(active) && fresh(active.idx))
      ensures forall chain :: old(ChainHolds(State(), chain)) ==>
                var max, need := if cfg > 0 then cfg else 0x4000_0000, 4 + |data|;
                var fits := old(active.size) + need <= max;
                && offset == (if fits then Some(old(active.size)) else if need <= max then Some(0) else None)
                && active.baseOffset == old(active.baseOffset) + (if fits then 0 else old(active.size))
    {
      ghost var p0 := State();
      forall chain | ChainHolds(p0, chain)
        ensures WhereAppended(p0, data)
      {
        AppendPlace(p0, chain, data);
      }
      hide ChainHolds, Appended, Rolled, HasRoom, PartOffset, PartAppended;
      offset := active.Append(data);
      if offset == None {
        assert State() == old(State()) by { RefusedUnchanged(old(active.State()), data); }
        Rollover();
        offset := active.Append(data);
      }
    }

    /** Closes the active segment and opens the next one at the summed size. */
    method Rollover()
      modifies this, active, active.idx
      ensures State() == Rolled(old(State()))
      ensures fresh(active) && fresh(active.idx)
    {
      var size := active.size;
      active.Close();
      dir := dir[active.baseOffset := Files(active.file, active.idx.file)];
      nextBase := nextBase + size;
      var files := FilesAt(dir, nextBase);
      active := new Segment(nextBase, files.log, files.index, cfg);
    }

    method Read(fetchOffset: uint64, maxBytes: int32) returns (r: Result<Window, ReadError>)
      modifies active
      ensures r == PartRead(old(active.State()), fetchOffset, maxBytes)
      ensures State() == if r.Ok? then old(State()).(active := Visible(old(active.State()))) else old(State())
      ensures forall chain :: old(ChainHolds(State(), chain)) ==> ChainHolds(State(), chain)
      ensures forall recs :: old(Holds(active.State(), recs)) && fetchOffset < TWO63 ==>
                && (r.Ok? <==> fetchOffset < |Frames(recs)| && maxBytes > 0)
                && (r.Ok? ==> ReadsFrom(active.file, r.value, recs, fetchOffset, maxBytes))
    {
      hide Frames, IndexHolds, ChainHolds;
      ghost var p0 := State();
      forall chain | ChainHolds(p0, chain)
        ensures ChainHolds(PartStep(p0, ReadOp), chain)
      {
        StepKeepsChain(p0, chain, ReadOp);
      }
      forall recs | Holds(p0.active, recs) && fetchOffset < TWO63
        ensures var w := PartRead(p0.active, fetchOffset, maxBytes);
                && (w.Ok? <==> fetchOffset < |Frames(recs)| && maxBytes > 0)
                && (w.Ok? ==> ReadsFrom(p0.active.file + p0.active.buf, w.value, recs, fetchOffset, maxBytes))
      {
        PartReadServes(p0.active, fetchOffset, maxBytes);
      }
      var segSize := active.size;
      var off := ToInt64(fetchOffset);
      if off >= segSize {
        return Err(InvalidOffset);
      }
      var available := ToInt64(segSize - off);
      var n := maxBytes;
      if n > available {
        n := ToInt32(available);
      }
      r := active.Read(fetchOffset, n);
    }

    method Size() returns (n: nat)
      ensures n == active.State().size
    {
      return active.size;
    }

    method Flush()
      modifies active, active.idx
      ensures State() == PartStep(old(State()), FlushOp)
    {
      active.Flush();
    }

    /** Closes the active segment; its files then hold every byte. */
    method Close()
      modifies this, active, active.idx
      ensures dir == old(dir)[active.baseOffset := FilesOf(old(active.State()))]
      ensures active == old(active)
    {
      active.Close();
      dir := dir[active.baseOffset := Files(active.file, active.idx.file)];
    }
  }

  lemma RefusedUnchanged(s: SegState, data: bytes)
    requires !HasRoom(s, data)
    ensures Appended(s, data) == s
  {
  }
}
