/** A segment: an append-only file of framed records behind a write buffer, with its sparse index. */
module Segments {
  import opened Bytes
  import opened Outcomes
  import opened Seqs
  import opened RecordLog
  import opened SparseIndex

  const DEFAULT_MAX_SIZE: int := 0x4000_0000

  datatype ReadError = InvalidOffset | InvalidSize

  /** `file` is what the operating system has; `buf` is what the writer still holds. */
  datatype SegState = SegState(file: bytes, buf: bytes, size: nat, maxSize: int64, index: IndexState)

  function EffectiveMax(cfg: int64): (m: int64)
    ensures m > 0
  {
    if cfg <= 0 then DEFAULT_MAX_SIZE else cfg
  }

  function Opened(log: bytes, idx: bytes, cfg: int64): SegState {
    SegState(log, [], |log|, EffectiveMax(cfg), OpenedIndex(idx))
  }

  predicate HasRoom(s: SegState, p: bytes) {
    s.size + HEADER + |p| <= s.maxSize
  }

  /** The state after an append: unchanged when the record does not fit. */
  function Appended(s: SegState, p: bytes): (t: SegState)
    ensures t.maxSize == s.maxSize
  {
    if !HasRoom(s, p) then s
    else s.(buf := s.buf + Frame(p),
            size := s.size + HEADER + |p|,
            index := Recorded(s.index, s.size, s.size % TWO32, HEADER + |p|))
  }

  /** The write buffer reaches the file; the index buffer is left alone. */
  function Visible(s: SegState): SegState {
    s.(file := s.file + s.buf, buf := [])
  }

  function Flushed(s: SegState): SegState {
    Visible(s).(index := FlushedIndex(s.index))
  }

  /** A full write buffer spills a prefix of itself to the file on its own. */
  function Spilled(s: SegState, n: nat): SegState {
    if n > |s.buf| then s else s.(file := s.file + s.buf[..n], buf := s.buf[n..])
  }

  /** A clean close, then an open of the same two files. */
  function Reopened(s: SegState, cfg: int64): SegState {
    Opened(Flushed(s).file, Flushed(s).index.file, cfg)
  }

  /** Whether a window of `n` bytes at `off` may be read; `off` is the signed reading of a uint64. */
  function WindowCheck(s: SegState, off: int64, n: int32): Option<ReadError> {
    if n <= 0 then Some(InvalidSize)
    else if off >= s.size then Some(InvalidOffset)
    else if off + n > s.size then Some(InvalidSize)
    else None
  }

  // ---------------------------------------------------------------- invariant

  /** The state is that of a segment holding exactly `recs`, with a sound index. */
  ghost predicate Holds(s: SegState, recs: seq<bytes>) {
    && s.file + s.buf == Frames(recs)
    && s.size == |Frames(recs)| < TWO63
    && IndexHolds(s.index, recs, s.size)
  }

  /** Entries are sorted record starts, no denser than one per interval of log bytes. */
  ghost predicate IndexHolds(x: IndexState, recs: seq<bytes>, size: int) {
    && Coherent(x)
    && Sorted(x.entries)
    && (forall k :: 0 <= k < |x.entries| ==> OnRecord(x.entries[k], recs))
    && 0 <= x.since
    && INTERVAL * |x.entries| + x.since <= size
  }

  ghost predicate OnRecord(e: Entry, recs: seq<bytes>) {
    IsStart(recs, e.offset) && e.position == e.offset % TWO32
  }

  lemma OnRecordStable(e: Entry, recs: seq<bytes>, p: bytes)
    requires OnRecord(e, recs)
    ensures OnRecord(e, recs + [p])
    ensures e.offset < |Frames(recs)|
  {
    hide Frames;
    var i: nat :| i < |recs| && Start(recs, i) == e.offset;
    StartStable(recs, [p], i);
    FrameAt(recs, i);
  }

  lemma RecordedHolds(x: IndexState, recs: seq<bytes>, p: bytes)
    requires IndexHolds(x, recs, |Frames(recs)|)
    requires |Frames(recs)| < TWO63
    ensures IndexHolds(Recorded(x, |Frames(recs)|, |Frames(recs)| % TWO32, HEADER + |p|),
                       recs + [p], |Frames(recs)| + HEADER + |p|)
  {
    hide Frames, EncodeEntry;
    var size := |Frames(recs)|;
    var y := Recorded(x, size, size % TWO32, HEADER + |p|);
    RecordedCoherent(x, size, size % TWO32, HEADER + |p|);
    forall k | 0 <= k < |y.entries|
      ensures OnRecord(y.entries[k], recs + [p])
      ensures k < |x.entries| ==> y.entries[k].offset < size
    {
      if k < |x.entries| {
        OnRecordStable(x.entries[k], recs, p);
      } else {
        NewStart(recs, p);
      }
    }
  }

  lemma NewStart(recs: seq<bytes>, p: bytes)
    ensures Start(recs + [p], |recs|) == |Frames(recs)|
    ensures IsStart(recs + [p], |Frames(recs)|)
  {
    hide Frames;
    StartStable(recs, [p], |recs|);
    assert recs[..|recs|] == recs;
  }

  lemma AppendHolds(s: SegState, recs: seq<bytes>, p: bytes)
    requires Holds(s, recs) && HasRoom(s, p)
    ensures Holds(Appended(s, p), recs + [p])
  {
    hide Frames, Recorded, IndexHolds;
    FramesAppend(recs, p);
    RecordedHolds(s.index, recs, p);
    Assoc(s.file, s.buf, Frame(p));
  }

  lemma ReopenHolds(s: SegState, recs: seq<bytes>, cfg: int64)
    requires Holds(s, recs)
    ensures Holds(Reopened(s, cfg), recs)
    ensures Reopened(s, cfg).index.entries == s.index.entries
  {
    hide Frames, DecodeEntries;
    ReopenIndex(s.index);
  }

  lemma SpillHolds(s: SegState, recs: seq<bytes>, n: nat)
    requires Holds(s, recs)
    ensures Holds(Spilled(s, n), recs)
  {
    hide Frames, IndexHolds;
    if n <= |s.buf| {
      Split(s.buf, n);
      Assoc(s.file, s.buf[..n], s.buf[n..]);
    }
  }

  // -------------------------------------------------------------------- runs

  datatype Op =
    | Append(p: bytes)
    | Flush
    | Spill(count: nat)
    | ReadAt(at: nat)
    | Read(off: int64, n: int32)
    | Reopen(cfg: int64)

  function Step(s: SegState, op: Op): SegState {
    match op
    case Append(p) => Appended(s, p)
    case Flush => Flushed(s)
    case Spill(n) => Spilled(s, n)
    case ReadAt(_) => Visible(s)
    case Read(off, n) => if WindowCheck(s, off, n).Some? then s else Visible(s)
    case Reopen(cfg) => Reopened(s, cfg)
  }

  function Run(s: SegState, ops: seq<Op>): SegState
    decreases |ops|
  {
    if ops == [] then s else Run(Step(s, ops[0]), ops[1..])
  }

  /** The payloads a run accepts, in order. */
  function Accepted(s: SegState, ops: seq<Op>): seq<bytes>
    decreases |ops|
  {
    if ops == [] then []
    else
      (if ops[0].Append? && HasRoom(s, ops[0].p) then [ops[0].p] else [])
      + Accepted(Step(s, ops[0]), ops[1..])
  }

  lemma StepHolds(s: SegState, recs: seq<bytes>, op: Op)
    requires Holds(s, recs)
    ensures Holds(Step(s, op), if op.Append? && HasRoom(s, op.p) then recs + [op.p] else recs)
  {
    match op
    case Append(p) =>
      if HasRoom(s, p) {
        AppendHolds(s, recs, p);
      }
    case Spill(n) => SpillHolds(s, recs, n);
    case Reopen(cfg) => ReopenHolds(s, recs, cfg);
    case _ =>
  }

  /** Whatever is done to a segment, it goes on holding all it accepted, in order, under a sound index. */
  lemma {:induction false} RunHolds(s: SegState, recs: seq<bytes>, ops: seq<Op>)
    requires Holds(s, recs)
    ensures Holds(Run(s, ops), recs + Accepted(s, ops))
    decreases |ops|
  {
    hide Frames, Holds, Step, HasRoom;
    if ops == [] {
      assert recs + [] == recs;
    } else {
      StepHolds(s, recs, ops[0]);
      var now := if ops[0].Append? && HasRoom(s, ops[0].p) then [ops[0].p] else [];
      assert recs + [] == recs;
      RunHolds(Step(s, ops[0]), recs + now, ops[1..]);
      Assoc(recs, now, Accepted(Step(s, ops[0]), ops[1..]));
    }
  }

  lemma EmptyHolds(cfg: int64)
    ensures Holds(Opened([], [], cfg), [])
  {
    EmptyLog();
    DecodeNothing();
  }

  /** Every run of operations on a new segment leaves it holding exactly what it accepted. */
  lemma SegmentRuns(cfg: int64, ops: seq<Op>)
    ensures var s0 := Opened([], [], cfg);
            Holds(Run(s0, ops), Accepted(s0, ops))
  {
    EmptyHolds(cfg);
    hide *;
    var s0 := Opened([], [], cfg);
    RunHolds(s0, [], ops);
    assert [] + Accepted(s0, ops) == Accepted(s0, ops);
  }

  /**
   * An offset once returned by an accepted append reads back its payload after any later
   * operations, exactly when the payload is short enough for its 32-bit length field.
   */
  lemma OffsetReadsBack(s: SegState, recs: seq<bytes>, p: bytes, later: seq<Op>)
    requires Holds(s, recs) && HasRoom(s, p)
    ensures RecordAt(Visible(Run(Appended(s, p), later)).file, s.size) == Some(p) <==> |p| < TWO32
  {
    hide Frames, Run, Appended, IndexHolds;
    AppendHolds(s, recs, p);
    RunHolds(Appended(s, p), recs + [p], later);
    var more := Accepted(Appended(s, p), later);
    var all := recs + [p] + more;
    assert all == recs + ([p] + more);
    StartStable(recs, [p] + more, |recs|);
    assert recs[..|recs|] == recs;
    HeldReadsBack(Run(Appended(s, p), later), all, |recs|);
  }

  /** Every record held reads back at its start, exactly when its length fits its field. */
  lemma HeldReadsBack(s: SegState, recs: seq<bytes>, i: nat)
    requires Holds(s, recs) && i < |recs|
    ensures RecordAt(Visible(s).file, Start(recs, i)) == Some(recs[i]) <==> |recs[i]| < TWO32
  {
    hide Frames, IndexHolds, RecordAt;
    RecordAtStart(recs, i, []);
    assert Frames(recs) + [] == Frames(recs);
  }

  /** What reading a window gives once `later` has happened: an error after the file it is over was closed. */
  ghost function WindowAfter(s: SegState, off: nat, n: nat, later: seq<Op>): Option<bytes>
    decreases |later|
  {
    if later == [] then (if off + n <= |s.file| then Some(s.file[off..off + n]) else None)
    else if later[0].Reopen? then None
    else WindowAfter(Step(s, later[0]), off, n, later[1..])
  }

  ghost predicate Closes(ops: seq<Op>) {
    exists i :: 0 <= i < |ops| && ops[i].Reopen?
  }

  lemma {:induction false} WindowKept(s: SegState, off: nat, n: nat, later: seq<Op>)
    requires off + n <= |s.file|
    ensures WindowAfter(s, off, n, later) == (if Closes(later) then None else Some(s.file[off..off + n]))
    decreases |later|
  {
    hide Recorded, OpenedIndex, FlushedIndex;
    if later != [] && !later[0].Reopen? {
      var t := Step(s, later[0]);
      assert s.file <= t.file;
      assert t.file[off..off + n] == s.file[off..off + n];
      WindowKept(t, off, n, later[1..]);
      SameCloses(later);
    }
  }

  lemma SameCloses(ops: seq<Op>)
    requires ops != [] && !ops[0].Reopen?
    ensures Closes(ops) <==> Closes(ops[1..])
  {
    if Closes(ops) {
      var i :| 0 <= i < |ops| && ops[i].Reopen?;
      assert ops[1..][i - 1].Reopen?;
    }
  }

  /**
   * A window handed out by Read shows the bytes of the log it was granted, whatever is
   * done to the segment later, exactly as long as the segment is not closed.
   */
  lemma WindowStable(s: SegState, recs: seq<bytes>, off: int64, n: int32, later: seq<Op>)
    requires Holds(s, recs) && off >= 0 && WindowCheck(s, off, n).None?
    ensures off + n <= |Frames(recs)|
    ensures WindowAfter(Visible(s), off, n, later) == Some(Frames(recs)[off..off + n]) <==> !Closes(later)
  {
    hide Frames, Step, IndexHolds, Closes;
    WindowKept(Visible(s), off, n, later);
  }

  /** Every reopen in the run keeps the configured maximum. */
  ghost predicate KeepsMax(ops: seq<Op>, max: int64) {
    forall i :: 0 <= i < |ops| && ops[i].Reopen? ==> EffectiveMax(ops[i].cfg) == max
  }

  /** A segment that began within its maximum never passes it. */
  lemma {:induction false} NeverPassesMax(s: SegState, recs: seq<bytes>, ops: seq<Op>)
    requires Holds(s, recs) && s.size <= s.maxSize && KeepsMax(ops, s.maxSize)
    ensures Run(s, ops).size <= Run(s, ops).maxSize == s.maxSize
    decreases |ops|
  {
    if ops != [] {
      StepHolds(s, recs, ops[0]);
      StepWithinMax(s, recs, ops[0]);
      hide Holds, Step;
      var grown := if ops[0].Append? && HasRoom(s, ops[0].p) then recs + [ops[0].p] else recs;
      NeverPassesMax(Step(s, ops[0]), grown, ops[1..]);
    }
  }

  lemma StepWithinMax(s: SegState, recs: seq<bytes>, op: Op)
    requires Holds(s, recs) && s.size <= s.maxSize
    requires op.Reopen? ==> EffectiveMax(op.cfg) == s.maxSize
    ensures Step(s, op).size <= Step(s, op).maxSize == s.maxSize
  {
    hide Frames, IndexHolds, Recorded, OpenedIndex;
  }

  lemma WholeLog(recs: seq<bytes>)
    ensures Start(recs, |recs|) == |Frames(recs)|
  {
    hide Frames;
    assert recs[..|recs|] == recs;
  }

  // ------------------------------------------------------------ the object

  /** A fixed range of the log file, read when the caller gets to it. */
  datatype Window = Window(off: int64, n: int32)

  class Segment {
    const baseOffset: nat
    const maxSize: int64
    const idx: Index
    var file: bytes
    var buf: bytes
    var size: nat

    ghost function State(): SegState
      reads this, idx
    {
      SegState(file, buf, size, maxSize, idx.State())
    }

    /** Opens the segment over the bytes its two files hold; missing files are empty. */
    constructor (base: nat, log: bytes, index: bytes, cfg: int64)
      ensures State() == Opened(log, index, cfg)
      ensures baseOffset == base && fresh(idx)
      ensures maxSize == (if cfg > 0 then cfg else 0x4000_0000) && size == |log|
    {
      baseOffset := base;
      maxSize := if cfg <= 0 then DEFAULT_MAX_SIZE else cfg;
      idx := new Index(index);
      file, buf, size := log, [], |log|;
    }

    /** Appends a record and returns its byte offset, or `None` when the segment is full. */
    method Append(payload: bytes) returns (offset: Option<nat>)
      modifies this, idx
      ensures State() == Appended(old(State()), payload)
      ensures offset == if old(HasRoom(State(), payload)) then Some(old(size)) else None
      ensures offset.Some? <==> old(size) + 4 + |payload| <= maxSize
      ensures forall recs :: old(Holds(State(), recs)) ==>
                Holds(State(), if offset.Some? then recs + [payload] else recs)
      ensures forall recs :: old(Holds(State(), recs)) && offset.Some? ==> offset.value == Start(recs, |recs|)
    {
      hide Frames, IndexHolds, Recorded;
      ghost var s0 := State();
      var recordSize := HEADER + |payload|;
      if size + recordSize > maxSize {
        return None;
      }
      offset := Some(size);
      var hdr := PutU32(|payload|);
      buf := buf + hdr;
      buf := buf + payload;
      size := size + recordSize;
      idx.MaybeAppend(offset.value, offset.value % TWO32, recordSize);
      assert buf == s0.buf + Frame(payload) by {
        Assoc(s0.buf, hdr, payload);
      }
      forall recs | Holds(s0, recs)
        ensures Holds(State(), recs + [payload]) && offset.value == Start(recs, |recs|)
      {
        AppendHolds(s0, recs, payload);
        WholeLog(recs);
      }
    }

    method Flush()
      modifies this, idx
      ensures State() == Flushed(old(State()))
    {
      file, buf := file + buf, [];
      idx.Flush();
    }

    /** Flushes the write buffer, then reads the record at `offset`; `None` is a short read. */
    method ReadAt(offset: uint64) returns (payload: Option<bytes>)
      modifies this
      ensures State() == Visible(old(State()))
      ensures payload == RecordAt(file, offset)
      ensures forall recs, i: nat ::
                old(Holds(State(), recs)) && i < |recs| && offset == Start(recs, i)
                ==> (payload == Some(recs[i]) <==> |recs[i]| < TWO32)
    {
      hide Frames, Holds, Start, GetU32;
      ghost var s0 := State();
      file, buf := file + buf, [];
      forall recs, i: nat | Holds(s0, recs) && i < |recs| && offset == Start(recs, i)
        ensures RecordAt(file, offset) == Some(recs[i]) <==> |recs[i]| < TWO32
      {
        HeldReadsBack(s0, recs, i);
      }
      if offset + HEADER > |file| {
        return None;
      }
      var length := GetU32(file[offset..offset + HEADER]);
      if length == 0 {
        return Some([]);
      }
      if offset + HEADER + length > |file| {
        return None;
      }
      return Some(file[offset + HEADER..offset + HEADER + length]);
    }

    /** Checks the window against the written bytes, flushes, and hands out the range. */
    method Read(offset: uint64, n: int32) returns (r: Result<Window, ReadError>)
      modifies this
      ensures match WindowCheck(old(State()), ToInt64(offset), n)
              case Some(e) => r == Err(e) && State() == old(State())
              case None => r == Ok(Window(ToInt64(offset), n)) && State() == Visible(old(State()))
      ensures forall recs :: old(Holds(State(), recs)) ==> Holds(State(), recs)
      ensures forall recs :: old(Holds(State(), recs)) && offset < TWO63 ==>
                && (r.Ok? <==> 0 < n && offset + n <= |Frames(recs)|)
                && (r.Ok? ==> offset + n <= |file| && file[offset..offset + n] == Frames(recs)[offset..offset + n])
    {
      hide Frames, IndexHolds;
      ghost var s0 := State();
      assert s0.file + s0.buf + [] == s0.file + s0.buf;
      if n <= 0 {
        return Err(InvalidSize);
      }
      var off := ToInt64(offset);
      if off >= size {
        return Err(InvalidOffset);
      }
      if off + n > size {
        return Err(InvalidSize);
      }
      file, buf := file + buf, [];
      return Ok(Window(off, n));
    }

    /** Flushes both files; what they hold is what a later open finds. */
    method Close()
      modifies this, idx
      ensures State() == Flushed(old(State()))
    {
      file, buf := file + buf, [];
      idx.Flush();
    }
  }
}
