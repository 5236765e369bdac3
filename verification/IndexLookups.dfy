/** What the sparse index promises of a segment: which lookups it serves, and how dense it is. */
module IndexLookups {
  import opened Bytes
  import opened Outcomes
  import opened Seqs
  import opened RecordLog
  import opened SparseIndex
  import opened Segments

  // ----------------------------------------------------------------- lookups

  /** Where a reader starts scanning for `target`: the floor entry's position, or the beginning. */
  function ScanStart(x: IndexState, target: nat): nat {
    match Floor(x.entries, target)
    case None => 0
    case Some(pos) => pos
  }

  /** The full offset of the entry whose position `Floor` returns. */
  function FloorOffset(es: seq<Entry>, target: nat): Option<nat> {
    if es == [] then None
    else if es[|es| - 1].offset <= target then Some(es[|es| - 1].offset)
    else FloorOffset(es[..|es| - 1], target)
  }

  /** The scan from where the index points ends as the scan of the whole log does. */
  ghost predicate Refines(s: SegState, recs: seq<bytes>, target: nat) {
    Scan(Frames(recs), ScanStart(s.index, target), target) == Scan(Frames(recs), 0, target)
  }

  lemma {:induction false} FloorOnRecord(es: seq<Entry>, recs: seq<bytes>, target: nat)
    requires forall k :: 0 <= k < |es| ==> OnRecord(es[k], recs)
    ensures match FloorOffset(es, target)
            case None => Floor(es, target) == None
            case Some(o) =>
              IsStart(recs, o) && o <= target && o < |Frames(recs)| && Floor(es, target) == Some(o % TWO32)
  {
    hide Frames;
    if es != [] {
      var e := es[|es| - 1];
      if e.offset <= target {
        OnRecordStable(e, recs, []);
      } else {
        FloorOnRecord(es[..|es| - 1], recs, target);
      }
    }
  }

  lemma EntriesOnRecord(s: SegState, recs: seq<bytes>)
    requires Holds(s, recs)
    ensures forall k :: 0 <= k < |s.index.entries| ==> OnRecord(s.index.entries[k], recs)
  {
    hide Frames, OnRecord;
  }

  /** Records that end within 4 GiB fit their length fields. */
  lemma ShortBefore(recs: seq<bytes>, i: nat)
    requires i <= |recs| && Start(recs, i) <= TWO32
    ensures forall k :: 0 <= k < i ==> |recs[k]| < TWO32
  {
    hide Frames, Start;
    forall k | 0 <= k < i
      ensures |recs[k]| < TWO32
    {
      FrameAt(recs, k);
      if k + 1 < i {
        StartsIncrease(recs, k + 1, i);
      }
    }
  }

  /**
   * A lookup whose floor entry lies at 2^32 or before finds the record at `target`
   * exactly when a scan of the whole log does, and the same one, at any segment size.
   */
  lemma IndexRefinesScan(s: SegState, recs: seq<bytes>, target: nat)
    requires Holds(s, recs)
    requires var o := FloorOffset(s.index.entries, target); o.Some? ==> o.value <= TWO32
    ensures Refines(s, recs, target)
    ensures Fits(recs) ==> (Scan(Frames(recs), ScanStart(s.index, target), target).Some? <==> IsStart(recs, target))
  {
    hide Frames, Scan, IndexHolds, OnRecord, Fits;
    if Fits(recs) {
      ScanFinds(recs, target);
    }
    EntriesOnRecord(s, recs);
    FloorOnRecord(s.index.entries, recs, target);
    var o := FloorOffset(s.index.entries, target);
    if o.Some? && o.value < TWO32 {
      var i: nat :| i < |recs| && Start(recs, i) == o.value;
      ShortBefore(recs, i);
      ScanFromBoundary(recs, i, target);
    }
  }

  /** Every lookup of a target up to 2^32 is served, and every lookup at all in a segment of at most 4 GiB. */
  lemma LookupsServed(s: SegState, recs: seq<bytes>, target: nat)
    requires Holds(s, recs) && (target <= TWO32 || s.size <= TWO32 + 1)
    ensures Refines(s, recs, target)
  {
    hide Frames, Refines, IndexHolds, OnRecord;
    EntriesOnRecord(s, recs);
    FloorOnRecord(s.index.entries, recs, target);
    IndexRefinesScan(s, recs, target);
  }

  /** Every segment serves every lookup below `limit`. */
  ghost predicate ServedBelow(limit: nat) {
    forall s: SegState, recs: seq<bytes>, target: nat :: Holds(s, recs) && target < limit ==> Refines(s, recs, target)
  }

  /** Two records that end one byte past 4 GiB, each below 2^31 bytes, and one behind them that is indexed. */
  ghost function First(): bytes { seq(TWO31 - 3, _ => 255) }
  ghost function Second(): bytes { seq(TWO31 - 4, _ => 255) }
  ghost function Behind(): bytes { seq(INTERVAL - HEADER, _ => 0) }
  ghost function LostRecs(): seq<bytes> { [First(), Second(), Behind()] }

  ghost function LostState(): SegState {
    Appended(Appended(Appended(Opened([], [], TWO63 - 1), First()), Second()), Behind())
  }

  lemma LostHolds()
    ensures Holds(LostState(), LostRecs())
  {
    hide Holds, Appended, Opened, First, Second, Behind;
    var s0 := Opened([], [], TWO63 - 1);
    var s1 := Appended(s0, First());
    var s2 := Appended(s1, Second());
    EmptyHolds(TWO63 - 1);
    assert HasRoom(s0, First()) && HasRoom(s1, Second()) && HasRoom(s2, Behind()) by { LostRoom(); }
    AppendHolds(s0, [], First());
    AppendHolds(s1, [] + [First()], Second());
    AppendHolds(s2, [] + [First()] + [Second()], Behind());
    assert [] + [First()] + [Second()] + [Behind()] == LostRecs();
  }

  lemma LostRoom()
    ensures var s0 := Opened([], [], TWO63 - 1);
            var s1 := Appended(s0, First());
            HasRoom(s0, First()) && HasRoom(s1, Second()) && HasRoom(Appended(s1, Second()), Behind())
  {
    hide Frame, Recorded, OpenedIndex;
  }

  lemma LostEntries()
    ensures LostState().index.entries == [Entry(0, 0), Entry(TWO31 + 1, TWO31 + 1), Entry(TWO32 + 1, 1)]
  {
    hide EncodeEntry, Frame;
    LostRoom();
    DecodeNothing();
  }

  lemma LostFrames()
    ensures Frames(LostRecs()) == Frame(First()) + Frame(Second()) + Frame(Behind())
    ensures Frames(LostRecs()[..2]) == Frame(First()) + Frame(Second())
  {
    hide Frames, Frame, First, Second, Behind;
    FramesAppend([], First());
    FramesAppend([First()], Second());
    FramesAppend([First(), Second()], Behind());
    EmptyLog();
    assert [] + [First()] == [First()] && [First()] + [Second()] == [First(), Second()];
    assert [First(), Second()] + [Behind()] == LostRecs();
    assert LostRecs()[..2] == [First(), Second()];
    assert [] + Frame(First()) == Frame(First());
  }

  lemma LostLog()
    ensures var log := Frames(LostRecs());
            && |log| == TWO32 + 1 + INTERVAL
            && Start(LostRecs(), 2) == TWO32 + 1
            && log[1..5] == [255, 255, 253, 255]
            && forall i :: TWO32 - 508 <= i < TWO32 - 504 ==> log[i] == 255
  {
    hide PutU32, Frames;
    LostFrames();
    FirstHeader();
    var a, b, c := Frame(First()), Frame(Second()), Frame(Behind());
    assert (a + b + c)[1..5] == a[1..5];
    assert a[1..5] == [255, 255, 253, 255];
    forall i | TWO32 - 508 <= i < TWO32 - 504
      ensures (a + b + c)[i] == 255
    {
      assert (a + b + c)[i] == b[i - |a|];
    }
  }

  lemma FirstHeader()
    ensures PutU32(TWO31 - 3) == [127, 255, 255, 253]
  {
    PutFour(TWO31 - 3);
  }

  /** The scan from the wrapped position reads a length out of the middle of the first record and loses its way. */
  lemma LostScan()
    ensures Scan(Frames(LostRecs()), 1, TWO32 + 1) == None
  {
    hide Frames, LostRecs;
    LostLog();
    var log := Frames(LostRecs());
    assert GetU32(log[1..5]) == 0xFFFF_FDFF by { LengthOf(log[1..5]); }
    var next := 5 + 0xFFFF_FDFF;
    assert log[next..next + HEADER] == [255, 255, 255, 255];
    assert GetU32(log[next..next + HEADER]) == 0xFFFF_FFFF by { LengthOf(log[next..next + HEADER]); }
    assert RecordAt(log, next) == None;
    assert RecordAt(log, 1).Some? && |RecordAt(log, 1).value| == 0xFFFF_FDFF;
  }

  lemma LengthOf(s: bytes)
    requires |s| == 4
    ensures var a: int, b: int, c: int, d: int := s[0], s[1], s[2], s[3];
            GetU32(s) == 0x100_0000 * a + 0x1_0000 * b + 0x100 * c + d
  {
    assert s[..3][..2] == s[..2] && s[..2][..1] == s[..1] && s[..1][..0] == [];
    assert Get(s[..1]) == s[0];
    assert Get(s[..2]) == 256 * Get(s[..1]) + s[1];
    assert Get(s[..3]) == 256 * Get(s[..2]) + s[2];
  }

  /**
   * The index is exact up to 2^32 and no further: every segment serves every lookup below
   * `limit` if and only if the limit is at most 2^32 + 1, since entries keep 32 bits of a position.
   */
  lemma ServedIffBelow(limit: nat)
    ensures ServedBelow(limit) <==> limit <= TWO32 + 1
  {
    hide Refines, Holds;
    if limit <= TWO32 + 1 {
      forall s: SegState, recs: seq<bytes>, target: nat | Holds(s, recs) && target < limit
        ensures Refines(s, recs, target)
      {
        LookupsServed(s, recs, target);
      }
    }
    if limit > TWO32 + 1 {
      NotServed();
      assert !Refines(LostState(), LostRecs(), TWO32 + 1);
    }
  }

  /** In the segment of those three records, none beyond what a request can carry, the last is not found. */
  lemma NotServed()
    ensures Holds(LostState(), LostRecs()) && IsStart(LostRecs(), TWO32 + 1)
    ensures forall i :: 0 <= i < |LostRecs()| ==> |LostRecs()[i]| < TWO31
    ensures !Refines(LostState(), LostRecs(), TWO32 + 1)
  {
    hide Frames, Scan, LostState, LostRecs, Holds, Start;
    LostHolds();
    LostEntries();
    LostScan();
    LostLog();
    LostSizes();
    ScanFinds(LostRecs(), TWO32 + 1);
    assert Floor([Entry(0, 0), Entry(TWO31 + 1, TWO31 + 1), Entry(TWO32 + 1, 1)], TWO32 + 1) == Some(1);
  }

  lemma LostSizes()
    ensures |LostRecs()| == 3 && forall i :: 0 <= i < |LostRecs()| ==> |LostRecs()[i]| < TWO31
  {
  }

  // ----------------------------------------------------------------- density

  /**
   * In every run of a new segment 4096 bytes of log stand behind each entry, which is at
   * most 262144 entries for a segment of 1 GiB.
   */
  lemma IndexDensity(cfg: int64, ops: seq<Op>)
    ensures var s := Run(Opened([], [], cfg), ops);
            && 4096 * |s.index.entries| + s.index.since <= s.size
            && (s.size <= DEFAULT_MAX_SIZE ==> |s.index.entries| <= 262144)
  {
    hide Run, Accepted, Frames, Opened, Coherent, OnRecord, Sorted;
    SegmentRuns(cfg, ops);
  }

  /** The records one session indexes, and the bytes counted after the last of them. */
  function Session(recs: seq<bytes>): (r: (seq<nat>, int))
    ensures forall k :: 0 <= k < |r.0| ==> r.0[k] < |recs|
  {
    if recs == [] then ([], 0)
    else
      var n := |recs| - 1;
      var (at, since) := Session(recs[..n]);
      var total := since + HEADER + |recs[n]|;
      if total < INTERVAL then (at, total) else (at + [n], 0)
  }

  /** The index is what one session of appends from an empty segment leaves. */
  ghost predicate IndexedBySession(x: IndexState, recs: seq<bytes>) {
    var (at, since) := Session(recs);
    && x.since == since
    && |x.entries| == |at|
    && forall k :: 0 <= k < |at| ==> x.entries[k].offset == Start(recs, at[k])
  }

  lemma SessionAppend(s: SegState, recs: seq<bytes>, p: bytes)
    requires Holds(s, recs) && HasRoom(s, p) && IndexedBySession(s.index, recs)
    ensures IndexedBySession(Appended(s, p).index, recs + [p])
  {
    hide Frames, EncodeEntry, IndexHolds;
    assert (recs + [p])[..|recs|] == recs;
    NewStart(recs, p);
    var at := Session(recs).0;
    forall k | 0 <= k < |at|
      ensures Start(recs + [p], at[k]) == Start(recs, at[k])
    {
      StartStable(recs, [p], at[k]);
    }
  }

  /** Before a reopen, the index of an emptily begun segment is the one its session of appends gives. */
  lemma {:induction false} SessionRun(s: SegState, recs: seq<bytes>, ops: seq<Op>)
    requires Holds(s, recs) && IndexedBySession(s.index, recs)
    requires forall i :: 0 <= i < |ops| ==> !ops[i].Reopen?
    ensures IndexedBySession(Run(s, ops).index, recs + Accepted(s, ops))
    decreases |ops|
  {
    hide Frames, Holds, HasRoom, IndexedBySession;
    assert recs + [] == recs;
    if ops != [] {
      var op, t := ops[0], Step(s, ops[0]);
      StepHolds(s, recs, op);
      SessionStep(s, recs, op);
      var now := if op.Append? && HasRoom(s, op.p) then [op.p] else [];
      hide Step;
      SessionRun(t, recs + now, ops[1..]);
      Assoc(recs, now, Accepted(t, ops[1..]));
    }
  }

  lemma SessionStep(s: SegState, recs: seq<bytes>, op: Op)
    requires Holds(s, recs) && IndexedBySession(s.index, recs) && !op.Reopen?
    ensures IndexedBySession(Step(s, op).index, if op.Append? && HasRoom(s, op.p) then recs + [op.p] else recs)
  {
    hide Frames, Holds, Session, Start;
    if op.Append? && HasRoom(s, op.p) {
      SessionAppend(s, recs, op.p);
    }
  }

  /**
   * Within a session fewer than 4096 bytes lie between the end of one indexed
   * record (or the start of the log) and the start of the next, and the counter
   * is the distance from the last one to the end of the log.
   */
  lemma {:induction false} SessionGaps(recs: seq<bytes>)
    ensures var (at, since) := Session(recs);
            && 0 <= since < INTERVAL
            && |Frames(recs)| == LastEnd(recs, at) + since
            && forall k :: 0 <= k < |at| ==> GapBefore(recs, at, k)
  {
    hide Frames, Start;
    if recs == [] {
      EmptyLog();
    } else {
      var n := |recs| - 1;
      var r0 := recs[..n];
      assert recs == r0 + [recs[n]];
      SessionGaps(r0);
      FramesAppend(r0, recs[n]);
      var (at, since) := Session(r0);
      LastEndStable(r0, recs[n], at);
      NewStart(r0, recs[n]);
      WholeLog(recs);
      forall k | 0 <= k < |at|
        ensures GapBefore(recs, at, k)
      {
        assert GapBefore(r0, at, k);
        GapStable(r0, recs[n], at, k);
      }
      if since + HEADER + |recs[n]| >= INTERVAL {
        ExtendGaps(recs, at, n);
      }
    }
  }

  lemma ExtendGaps(recs: seq<bytes>, at: seq<nat>, n: nat)
    requires n < |recs| && forall j :: 0 <= j < |at| ==> at[j] < |recs|
    requires forall k :: 0 <= k < |at| ==> GapBefore(recs, at, k)
    requires 0 <= Start(recs, n) - LastEnd(recs, at) < INTERVAL
    ensures forall k :: 0 <= k < |at| + 1 ==> GapBefore(recs, at + [n], k)
  {
    hide Start;
    forall k | 0 <= k < |at| + 1
      ensures GapBefore(recs, at + [n], k)
    {
      if k < |at| {
        assert GapBefore(recs, at, k);
        assert (at + [n])[..k] == at[..k];
      } else {
        assert (at + [n])[..k] == at;
      }
    }
  }

  /** Where the last indexed record ends; zero when none is indexed. */
  function LastEnd(recs: seq<bytes>, at: seq<nat>): nat
    requires forall k :: 0 <= k < |at| ==> at[k] < |recs|
  {
    if at == [] then 0 else Start(recs, at[|at| - 1] + 1)
  }

  ghost predicate GapBefore(recs: seq<bytes>, at: seq<nat>, k: nat)
    requires k < |at| && forall j :: 0 <= j < |at| ==> at[j] < |recs|
  {
    0 <= Start(recs, at[k]) - LastEnd(recs, at[..k]) < INTERVAL
  }

  lemma LastEndStable(recs: seq<bytes>, p: bytes, at: seq<nat>)
    requires forall k :: 0 <= k < |at| ==> at[k] < |recs|
    ensures LastEnd(recs + [p], at) == LastEnd(recs, at)
  {
    hide Frames;
    if at != [] {
      StartStable(recs, [p], at[|at| - 1] + 1);
    }
  }

  lemma GapStable(recs: seq<bytes>, p: bytes, at: seq<nat>, k: nat)
    requires k < |at| && forall j :: 0 <= j < |at| ==> at[j] < |recs|
    requires GapBefore(recs, at, k)
    ensures GapBefore(recs + [p], at, k)
  {
    hide Frames;
    StartStable(recs, [p], at[k]);
    LastEndStable(recs, p, at[..k]);
  }

  lemma EmptySession(cfg: int64)
    ensures IndexedBySession(Opened([], [], cfg).index, [])
  {
    DecodeNothing();
  }

  /** Entry `k` of the index starts fewer than 4096 bytes after the record of the entry before it ends. */
  ghost predicate CloseTo(x: IndexState, recs: seq<bytes>, at: seq<nat>, k: nat)
    requires k < |at| == |x.entries| && forall j :: 0 <= j < |at| ==> at[j] < |recs|
  {
    x.entries[k].offset == Start(recs, at[k]) && 0 <= x.entries[k].offset - LastEnd(recs, at[..k]) < 4096
  }

  /**
   * In every run of a new segment without a reopen: each entry is the start of an accepted
   * record, fewer than 4096 bytes lie between one indexed record and the next, and the
   * counter, below 4096, is the distance from the last one to the end of the log.
   */
  lemma SessionIndex(cfg: int64, ops: seq<Op>)
    requires forall i :: 0 <= i < |ops| ==> !ops[i].Reopen?
    ensures var s := Run(Opened([], [], cfg), ops);
            var recs := Accepted(Opened([], [], cfg), ops);
            var at := Session(recs).0;
            && |at| == |s.index.entries|
            && (forall k :: 0 <= k < |at| ==> CloseTo(s.index, recs, at, k))
            && 0 <= s.index.since < 4096
            && s.size == LastEnd(recs, at) + s.index.since
  {
    hide Run, Accepted, Opened, Frames, IndexHolds, Start, Session, LastEnd;
    var s0 := Opened([], [], cfg);
    var s, recs := Run(s0, ops), Accepted(s0, ops);
    EmptyHolds(cfg);
    EmptySession(cfg);
    SessionRun(s0, [], ops);
    SegmentRuns(cfg, ops);
    assert [] + recs == recs;
    SessionGaps(recs);
    var at := Session(recs).0;
    forall k | 0 <= k < |at|
      ensures CloseTo(s.index, recs, at, k)
    {
      assert GapBefore(recs, at, k);
    }
  }
}
