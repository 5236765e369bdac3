/**
 * The commit protocol under concurrency: appending a commit to the log and caching it are
 * two steps under two locks, so commits interleave between them. A producer that names the
 * offsets topic appends to the same log, and one whose key is kept in the same directory
 * writes to the same file past it.
 */
module CommitProtocol {
  import opened Bytes
  import opened Outcomes
  import opened Seqs
  import opened RecordLog
  import opened RecordBatches
  import opened OffsetRecords
  import opened OffsetHandlers
  import opened ProduceHandler
  import opened ProducedCommits

  /**
   * `log` is the records the offsets partition took, `file` and `buf` the bytes on disk and in
   * its write buffer, `pending` the commits appended but not yet cached.
   */
  datatype State = State(log: seq<bytes>, file: bytes, buf: bytes, cache: Cache, pending: map<nat, Commit>)

  datatype Step =
    | Append(thread: nat, c: Commit)
    | Refused(thread: nat)
    | SetCache(thread: nat)
    | Produce(batch: bytes)
    | Spill(n: nat)
    | Foreign(batch: bytes)
    | Restart

  /** The bytes a clean close leaves on disk. */
  function Disk(s: State): bytes {
    s.file + s.buf
  }

  /** What a load makes of the disk, and whether it succeeds. */
  function Loaded(s: State): (Cache, bool) {
    Hydrate(map[], Loadable(Disk(s)))
  }

  function Grown(s: State, rec: bytes): State {
    s.(log := s.log + [rec], buf := s.buf + Frame(rec))
  }

  function AppendTo(s: State, th: nat, c: Commit): State {
    Grown(s, RecordBytes(c)).(pending := s.pending[th := c])
  }

  function SetFrom(s: State, th: nat): State
    requires th in s.pending
  {
    s.(cache := s.cache[s.pending[th].key := s.pending[th].offset], pending := s.pending - {th})
  }

  function Spilt(s: State, n: nat): State
    requires n <= |s.buf|
  {
    s.(file := s.file + s.buf[..n], buf := s.buf[n..])
  }

  /**
   * A step of any connection: of a commit, or of a produce request for the offsets topic whose
   * batch, behind a 32-bit length, passes the check. A full write buffer spills any part of
   * itself. `Foreign` is a batch flushed by the store of another key kept in the same directory;
   * there is no such key among canonical ones. A clean restart loads the cache from the disk
   * bytes, and does not come up when the load fails.
   */
  ghost predicate Next(crc: bytes -> nat, s: State, step: Step, t: State) {
    match step
    case Append(th, c) =>
      && th !in s.pending && FitsKey(c.key)
      && t == AppendTo(s, th, c)
    case Refused(th) =>
      th !in s.pending && t == s
    case SetCache(th) =>
      th in s.pending && t == SetFrom(s, th)
    case Produce(batch) =>
      Acceptable(batch, crc) && |batch| < TWO31 && t == Grown(s, batch)
    case Spill(n) =>
      n <= |s.buf| && t == Spilt(s, n)
    case Foreign(batch) =>
      Acceptable(batch, crc) && |batch| < TWO31 && t == s.(file := s.file + Frame(batch))
    case Restart =>
      && s.pending == map[] && Loaded(s).1
      && t == s.(file := Disk(s), buf := [], cache := Loaded(s).0)
  }

  /** No commit to the same key is in flight when this one is appended. */
  ghost predicate Alone(s: State, step: Step) {
    step.Append? ==> forall th :: th in s.pending ==> s.pending[th].key != step.c.key
  }

  /** A batch means nothing to a replay of the log: it does not decode, or to what the log already says. */
  ghost predicate Silent(s: State, step: Step) {
    step.Produce? || step.Foreign? ==> Apply(Replay(map[], s.log), step.batch) == Replay(map[], s.log)
  }

  /** A restart has no more than 2^31 - 1 bytes to load. */
  ghost predicate Short(s: State, step: Step) {
    step.Restart? ==> |Disk(s)| <= MAX_INT32
  }

  const START: State := State([], [], [], map[], map[])

  ghost predicate IsRun(crc: bytes -> nat, states: seq<State>, steps: seq<Step>) {
    && |states| == |steps| + 1
    && states[0] == START
    && forall i :: 0 <= i < |steps| ==> Next(crc, states[i], steps[i], states[i + 1])
  }

  ghost predicate NeverOverlaps(states: seq<State>, steps: seq<Step>) {
    |states| == |steps| + 1 && forall i :: 0 <= i < |steps| ==> Alone(states[i], steps[i])
  }

  ghost predicate NeverSpeaks(states: seq<State>, steps: seq<Step>) {
    |states| == |steps| + 1 && forall i :: 0 <= i < |steps| ==> Silent(states[i], steps[i])
  }

  ghost predicate AlwaysShort(states: seq<State>, steps: seq<Step>) {
    |states| == |steps| + 1 && forall i :: 0 <= i < |steps| ==> Short(states[i], steps[i])
  }

  ghost predicate NeverForeign(steps: seq<Step>) {
    forall i :: 0 <= i < |steps| ==> !steps[i].Foreign?
  }

  // ------------------------------------------------- every interleaving

  /** File and buffer are the log. */
  ghost predicate Framed(s: State) {
    Disk(s) == Frames(s.log)
  }

  lemma GrownFramed(s: State, rec: bytes)
    requires Framed(s)
    ensures Framed(Grown(s, rec))
  {
    hide Frames, Frame;
    FramesAppend(s.log, rec);
    Assoc(s.file, s.buf, Frame(rec));
  }

  lemma FramedKept(crc: bytes -> nat, s: State, step: Step, t: State)
    requires Framed(s) && Next(crc, s, step, t) && !step.Foreign?
    ensures Framed(t)
  {
    hide Frames, Frame, Acceptable, FitsKey, Loaded, RecordBytes;
    match step
    case Append(th, c) => GrownFramed(s, RecordBytes(c));
    case Produce(batch) => GrownFramed(s, batch);
    case Spill(n) => Assoc(s.file, s.buf[..n], s.buf[n..]);
    case _ =>
  }

  lemma {:induction false} RunFramed(crc: bytes -> nat, states: seq<State>, steps: seq<Step>, i: nat)
    requires IsRun(crc, states, steps) && NeverForeign(steps) && i < |states|
    ensures Framed(states[i])
  {
    hide Next;
    if i == 0 {
      EmptyLog();
    } else {
      RunFramed(crc, states, steps, i - 1);
      FramedKept(crc, states[i - 1], steps[i - 1], states[i]);
    }
  }

  /** Some record of the log decodes to `c`. */
  ghost predicate Logged(log: seq<bytes>, c: Commit) {
    exists i :: 0 <= i < |log| && Decode(log[i]) == Some(c)
  }

  /** Every cached or pending offset was appended to the log for that same key. */
  ghost predicate WasAppended(s: State) {
    && Fits(s.log)
    && (forall k :: k in s.cache ==> Logged(s.log, Commit(k, s.cache[k])))
    && (forall th :: th in s.pending ==> Logged(s.log, s.pending[th]))
  }

  lemma LoggedLonger(log: seq<bytes>, rec: bytes, c: Commit)
    requires Logged(log, c) || Decode(rec) == Some(c)
    ensures Logged(log + [rec], c)
  {
    hide Decode;
    if Logged(log, c) {
      var i :| 0 <= i < |log| && Decode(log[i]) == Some(c);
      assert (log + [rec])[i] == log[i];
    } else {
      assert (log + [rec])[|log|] == rec;
    }
  }

  /** What a replay leaves for a key was logged for that key. */
  lemma {:induction false} ReplayFromLog(log: seq<bytes>, k: OffsetKey)
    ensures k in Replay(map[], log) ==> Logged(log, Commit(k, Replay(map[], log)[k]))
  {
    hide Decode;
    if log != [] {
      var n := |log| - 1;
      ReplayFromLog(log[..n], k);
      assert log == log[..n] + [log[n]];
      if k in Replay(map[], log) {
        LoggedLonger(log[..n], log[n], Commit(k, Replay(map[], log)[k]));
      }
    }
  }

  /** A clean restart loads exactly the replay of the log. */
  lemma RestartLoadsReplay(s: State)
    requires Framed(s) && |Disk(s)| <= MAX_INT32
    ensures Loaded(s) == (Replay(map[], s.log), true)
  {
    hide Frames, Hydrate;
    SmallLogFits(s.log);
    HydrateLog(map[], s.log);
  }

  lemma GrowKeepsAppended(s: State, rec: bytes, t: State)
    requires WasAppended(s) && |rec| < TWO32 && t.log == s.log + [rec] && t.cache == s.cache
    requires forall th :: th in t.pending ==>
               (th in s.pending && t.pending[th] == s.pending[th]) || Decode(rec) == Some(t.pending[th])
    ensures WasAppended(t)
  {
    hide Decode, Logged;
    forall k | k in t.cache
      ensures Logged(t.log, Commit(k, t.cache[k]))
    {
      LoggedLonger(s.log, rec, Commit(k, s.cache[k]));
    }
    forall th | th in t.pending
      ensures Logged(t.log, t.pending[th])
    {
      LoggedLonger(s.log, rec, t.pending[th]);
    }
  }

  lemma WasAppendedKept(crc: bytes -> nat, s: State, step: Step, t: State)
    requires WasAppended(s) && Framed(s) && Next(crc, s, step, t)
    ensures WasAppended(t)
  {
    hide Frame, Disk, Framed, Acceptable, FitsKey, Loaded, Replay, Decode, RecordBytes, Logged, Fits;
    match step
    case Append(th, c) =>
      RecordRoundTrip(c);
      RecordSize(c);
      GrowKeepsAppended(s, RecordBytes(c), t);
    case Produce(batch) =>
      GrowKeepsAppended(s, batch, t);
    case Restart =>
      forall k | k in t.cache
        ensures Logged(t.log, Commit(k, t.cache[k]))
      {
        LoadedFromLog(s, k);
      }
    case _ =>
  }

  lemma RecordSize(c: Commit)
    requires FitsKey(c.key)
    ensures |RecordBytes(c)| < TWO32
  {
    hide PutU64, PutU32, PutU16;
  }

  /** A load, cut short or not, finds only what was logged. */
  lemma LoadedFromLog(s: State, k: OffsetKey)
    requires Fits(s.log) && Framed(s) && k in Loaded(s).0
    ensures Logged(s.log, Commit(k, Loaded(s).0[k]))
  {
    hide Frames, Hydrate, Replay, Decode, Fits;
    if |Disk(s)| <= MAX_INT32 {
      RestartLoadsReplay(s);
      ReplayFromLog(s.log, k);
    } else {
      var i := HydratePrefix(s.log, map[]);
      ReplayFromLog(s.log[..i], k);
      var c := Commit(k, Loaded(s).0[k]);
      var j :| 0 <= j < i && Decode(s.log[..i][j]) == Some(c);
      assert s.log[j] == s.log[..i][j];
    }
  }

  /** While no other store writes to the file, every cached offset was appended for its key, in every interleaving. */
  lemma {:induction false} EveryCachedOffsetWasAppended(crc: bytes -> nat, states: seq<State>, steps: seq<Step>, i: nat)
    requires IsRun(crc, states, steps) && NeverForeign(steps) && i < |states|
    ensures WasAppended(states[i])
  {
    hide Next, Logged, Framed;
    if i > 0 {
      EveryCachedOffsetWasAppended(crc, states, steps, i - 1);
      RunFramed(crc, states, steps, i - 1);
      WasAppendedKept(crc, states[i - 1], steps[i - 1], states[i]);
    }
  }

  /** The run caches only what was appended, if other stores write to the file only as far as allowed. */
  ghost predicate RunAppends(crc: bytes -> nat, foreign: bool, states: seq<State>, steps: seq<Step>) {
    IsRun(crc, states, steps) && (foreign || NeverForeign(steps)) ==>
      forall i :: 0 <= i < |states| ==> WasAppended(states[i])
  }

  /** A batch that reads as a commit, written by another store, is cached by the next restart. */
  function ForgedStates(crc: bytes -> nat): seq<State> {
    var a := START.(file := Frame(Forged(crc)));
    [START, a, a.(cache := map[TheCommit(crc(Covered())).key := 42])]
  }

  function Forged(crc: bytes -> nat): bytes {
    Ambiguous(crc(Covered()))
  }

  lemma ForgedRun(crc: bytes -> nat)
    requires crc(Covered()) < TWO32
    ensures IsRun(crc, ForgedStates(crc), [Foreign(Forged(crc)), Restart])
  {
    hide Ambiguous, Covered, Validate, Decode, Total, Frame, Hydrate, Replay;
    AmbiguousIsValid(crc);
    var b, s := Forged(crc), ForgedStates(crc)[1];
    assert [] + Frame(b) == Frame(b) && Frame(b) + [] == Frame(b);
    FramesAppend([], b);
    EmptyLog();
    assert [] + [b] == [b];
    HydrateLog(map[], [b]);
    ReplayMore(map[], [], b);
    ReplayNothing();
    assert Loaded(s) == (map[TheCommit(crc(Covered())).key := 42], true) by { FrameSize(b); }
  }

  lemma ForgedWasNot(crc: bytes -> nat)
    ensures !WasAppended(ForgedStates(crc)[2])
  {
    hide Forged, Frame, Decode, TheCommit;
    var s := ForgedStates(crc)[2];
    assert TheCommit(crc(Covered())).key in s.cache && s.log == [];
  }

  lemma FrameSize(b: bytes)
    ensures |b| < 100 ==> |Frame(b)| <= MAX_INT32
  {
  }

  /** Every run caches only what was appended if and only if no other store writes to the file. */
  lemma AppendedIffAlone(crc: bytes -> nat, foreign: bool)
    requires crc(Covered()) < TWO32
    ensures (forall states, steps :: RunAppends(crc, foreign, states, steps)) <==> !foreign
  {
    hide IsRun, WasAppended, Covered;
    if !foreign {
      forall states: seq<State>, steps: seq<Step>
        ensures RunAppends(crc, foreign, states, steps)
      {
        if IsRun(crc, states, steps) && NeverForeign(steps) {
          forall i | 0 <= i < |states|
            ensures WasAppended(states[i])
          {
            EveryCachedOffsetWasAppended(crc, states, steps, i);
          }
        }
      }
    } else {
      ForgedRun(crc);
      ForgedWasNot(crc);
      assert !RunAppends(crc, foreign, ForgedStates(crc), [Foreign(Forged(crc)), Restart]);
    }
  }

  // ---------------------- interleavings without overlap or produced commits

  /** For a key nobody is committing the cache is up to date; a pending commit is its key's last. */
  ghost predicate UpToDate(s: State) {
    var f := Replay(map[], s.log);
    && (forall th, th' :: th in s.pending && th' in s.pending && th != th' ==> s.pending[th].key != s.pending[th'].key)
    && (forall th :: th in s.pending ==> s.pending[th].key in f && f[s.pending[th].key] == s.pending[th].offset)
    && (forall k :: Settled(s, k) ==> SameEntry(s.cache, f, k))
  }

  ghost predicate Settled(s: State, k: OffsetKey) {
    forall th :: th in s.pending ==> s.pending[th].key != k
  }

  lemma AppendUpToDate(s: State, th: nat, c: Commit, t: State)
    requires UpToDate(s) && th !in s.pending && FitsKey(c.key) && t == AppendTo(s, th, c) && Alone(s, Append(th, c))
    ensures UpToDate(t)
  {
    hide FitsKey, Replay, RecordBytes, Decode;
    var f, g := Replay(map[], s.log), Replay(map[], t.log);
    RecordRoundTrip(c);
    ReplayMore(map[], s.log, RecordBytes(c));
    assert g == f[c.key := c.offset];
    forall k | Settled(t, k)
      ensures SameEntry(t.cache, g, k)
    {
      assert t.pending[th].key != k;
      assert Settled(s, k) by {
        forall x | x in s.pending
          ensures s.pending[x].key != k
        {
          assert t.pending[x] == s.pending[x];
        }
      }
    }
  }

  lemma SetUpToDate(s: State, th: nat, t: State)
    requires UpToDate(s) && th in s.pending && t == SetFrom(s, th)
    ensures UpToDate(t)
  {
    hide Replay;
    var f := Replay(map[], s.log);
    forall k | Settled(t, k)
      ensures SameEntry(t.cache, f, k)
    {
      if k != s.pending[th].key {
        assert Settled(s, k) by {
          forall x | x in s.pending
            ensures s.pending[x].key != k
          {
            assert x != th ==> t.pending[x] == s.pending[x];
          }
        }
      }
    }
  }

  lemma SameReplayUpToDate(s: State, t: State)
    requires UpToDate(s) && t.cache == s.cache && t.pending == s.pending
    requires Replay(map[], t.log) == Replay(map[], s.log)
    ensures UpToDate(t)
  {
    hide Replay, SameEntry;
    forall k | Settled(t, k)
      ensures SameEntry(t.cache, Replay(map[], t.log), k)
    {
      assert Settled(s, k);
    }
  }

  lemma StepUpToDate(crc: bytes -> nat, s: State, step: Step, t: State)
    requires UpToDate(s) && Framed(s) && Next(crc, s, step, t) && !step.Foreign?
    requires Alone(s, step) && Silent(s, step) && Short(s, step)
    ensures UpToDate(t)
  {
    hide Frame, Framed, FitsKey, Disk, Loaded, Replay, Acceptable, Apply, RecordBytes, UpToDate;
    match step
    case Append(th, c) => AppendUpToDate(s, th, c, t);
    case SetCache(th) => SetUpToDate(s, th, t);
    case Produce(batch) =>
      ReplayMore(map[], s.log, batch);
      SameReplayUpToDate(s, t);
    case Spill(n) => SameReplayUpToDate(s, t);
    case Restart =>
      RestartLoadsReplay(s);
      ReloadedUpToDate(t);
    case _ =>
  }

  lemma ReloadedUpToDate(s: State)
    requires s.pending == map[] && s.cache == Replay(map[], s.log)
    ensures UpToDate(s)
  {
    hide Replay;
  }

  lemma {:induction false} RunUpToDate(crc: bytes -> nat, states: seq<State>, steps: seq<Step>, i: nat)
    requires IsRun(crc, states, steps) && i < |states|
    requires Orderly(states, steps)
    ensures UpToDate(states[i])
  {
    hide Next, UpToDate, Alone, Silent, Short, Framed;
    if i == 0 {
      ReloadedUpToDate(START);
    } else {
      RunUpToDate(crc, states, steps, i - 1);
      RunFramed(crc, states, steps, i - 1);
      StepUpToDate(crc, states[i - 1], steps[i - 1], states[i]);
    }
  }

  ghost predicate Orderly(states: seq<State>, steps: seq<Step>) {
    && NeverOverlaps(states, steps) && NeverSpeaks(states, steps) && AlwaysShort(states, steps)
    && NeverForeign(steps)
  }

  lemma QuietIsReplay(s: State)
    requires UpToDate(s) && s.pending == map[]
    ensures s.cache == Replay(map[], s.log)
  {
    hide Replay;
    var f := Replay(map[], s.log);
    forall k
      ensures SameEntry(s.cache, f, k)
    {
      assert Settled(s, k);
    }
    SameEverywhere(s.cache, f);
  }

  /**
   * While commits to the same key never overlap, no produced batch speaks to a replay, no
   * restart has more to load than it reads and no other store writes to the file, whenever no
   * commit is in flight the cache is the last-writer-wins replay of the log, and a clean restart
   * restores it exactly.
   */
  lemma QuiescentCacheIsReplay(crc: bytes -> nat, states: seq<State>, steps: seq<Step>, i: nat)
    requires IsRun(crc, states, steps) && i < |states| && states[i].pending == map[]
    requires Orderly(states, steps)
    ensures states[i].cache == Replay(map[], states[i].log)
    ensures |Disk(states[i])| <= MAX_INT32 ==> Loaded(states[i]) == (states[i].cache, true)
  {
    hide Next, Disk, Loaded, Replay, UpToDate, Framed;
    RunUpToDate(crc, states, steps, i);
    RunFramed(crc, states, steps, i);
    QuietIsReplay(states[i]);
    if |Disk(states[i])| <= MAX_INT32 {
      RestartLoadsReplay(states[i]);
    }
  }

  // --------------------------------------------------- exactly when it holds

  /** The cache is the replay of the log in every state without a commit in flight. */
  ghost predicate AgreesWhenQuiet(states: seq<State>) {
    forall i :: 0 <= i < |states| && states[i].pending == map[] ==> states[i].cache == Replay(map[], states[i].log)
  }

  /**
   * What may happen in a run: overlapping commits of one key, batches that read as commits,
   * restarts of long logs, writes by another store to the same file.
   */
  datatype Allowed = Allowed(overlap: bool, produced: bool, long: bool, foreign: bool)

  /** The run agrees, if only what is allowed happens in it. */
  ghost predicate RunAgrees(crc: bytes -> nat, a: Allowed, states: seq<State>, steps: seq<Step>) {
    && IsRun(crc, states, steps)
    && (a.overlap || NeverOverlaps(states, steps))
    && (a.produced || NeverSpeaks(states, steps))
    && (a.long || AlwaysShort(states, steps))
    && (a.foreign || NeverForeign(steps))
    ==> AgreesWhenQuiet(states)
  }

  const K0: OffsetKey := OffsetKey([], [], 0)

  /** Two connections commit 0 and 1 to one key; the second caches first. */
  function CrossedSteps(): seq<Step> {
    [Append(0, Commit(K0, 0)), Append(1, Commit(K0, 1)), SetCache(1), SetCache(0)]
  }

  function CrossedStates(): seq<State> {
    var a := AppendTo(START, 0, Commit(K0, 0));
    var b := AppendTo(a, 1, Commit(K0, 1));
    var c := SetFrom(b, 1);
    [START, a, b, c, SetFrom(c, 0)]
  }

  lemma CrossedRun(crc: bytes -> nat)
    ensures IsRun(crc, CrossedStates(), CrossedSteps())
    ensures NeverSpeaks(CrossedStates(), CrossedSteps()) && AlwaysShort(CrossedStates(), CrossedSteps())
    ensures NeverForeign(CrossedSteps())
  {
    hide RecordBytes, Replay, Frame;
  }

  /** In that run the log's last offset is 1 and the cached one 0, with nothing in flight. */
  lemma CrossedDisagrees()
    ensures !AgreesWhenQuiet(CrossedStates())
  {
    hide RecordBytes, Replay, Decode, Frame;
    var c0, c1, s := Commit(K0, 0), Commit(K0, 1), CrossedStates()[4];
    RecordRoundTrip(c1);
    ReplayMore(map[], [RecordBytes(c0)], RecordBytes(c1));
    assert [RecordBytes(c0)] + [RecordBytes(c1)] == s.log;
    assert s.pending == map[] && s.cache[K0] == 0 && Replay(map[], s.log)[K0] == 1;
  }

  /** One produce request with a batch that reads as a commit. */
  function SpokenStates(crc: bytes -> nat): seq<State> {
    [START, Grown(START, Ambiguous(crc(Covered())))]
  }

  lemma SpokenRun(crc: bytes -> nat)
    requires crc(Covered()) < TWO32
    ensures var steps := [Produce(Ambiguous(crc(Covered())))];
            && IsRun(crc, SpokenStates(crc), steps)
            && NeverOverlaps(SpokenStates(crc), steps) && AlwaysShort(SpokenStates(crc), steps)
            && NeverForeign(steps)
    ensures !AgreesWhenQuiet(SpokenStates(crc))
  {
    hide Ambiguous, Covered, Validate, Decode, Replay, Total, Frame;
    AmbiguousIsValid(crc);
    var b, s := Ambiguous(crc(Covered())), SpokenStates(crc)[1];
    assert [] + [b] == [b];
    ReplayMore(map[], [], b);
    assert TheCommit(crc(Covered())).key in Replay(map[], s.log);
    assert s.cache == map[];
  }

  /** A long batch, then a commit behind the bytes a restart reads, then a restart. */
  function LongSteps(crc: bytes -> nat): seq<Step> {
    [Produce(Filler(crc)), Append(0, Commit(K0, 0)), SetCache(0), Restart]
  }

  function Filler(crc: bytes -> nat): (b: bytes)
    ensures |b| == LONG
  {
    LongBatch(crc(Nulls(LONG - 21)))
  }

  lemma FillerIs(crc: bytes -> nat)
    requires crc(Nulls(LONG - 21)) < TWO32
    ensures Acceptable(Filler(crc), crc) && Decode(Filler(crc)) == None
  {
    hide Validate, Decode, LongBatch, Nulls;
    LongIsValid(crc);
  }

  function LongStates(crc: bytes -> nat): seq<State> {
    var a := Grown(START, Filler(crc));
    var b := AppendTo(a, 0, Commit(K0, 0));
    var c := SetFrom(b, 0);
    [START, a, b, c, c.(file := Disk(c), buf := [], cache := map[])]
  }

  lemma LongDisk(crc: bytes -> nat)
    ensures Loadable(Disk(LongStates(crc)[3])) == Frames([Filler(crc)])
  {
    hide Filler, RecordBytes, Frames, Frame;
    var f, r := Filler(crc), RecordBytes(Commit(K0, 0));
    FramesAppend([], f);
    EmptyLog();
    assert [] + [f] == [f] && [] + Frame(f) == Frame(f);
    assert Disk(LongStates(crc)[3]) == Frame(f) + Frame(r);
    assert (Frame(f) + Frame(r))[..MAX_INT32] == Frame(f);
  }

  lemma LongLoads(crc: bytes -> nat)
    requires crc(Nulls(LONG - 21)) < TWO32
    ensures Loaded(LongStates(crc)[3]) == (map[], true)
  {
    hide Filler, LongStates, Frames, Hydrate, Replay, Decode, Nulls, Disk, Loadable, Acceptable;
    var f := Filler(crc);
    FillerIs(crc);
    LongDisk(crc);
    HydrateLog(map[], [f]);
    ReplayMore(map[], [], f);
    assert [] + [f] == [f];
    assert Replay(map[], []) == map[] by { ReplayNothing(); }
  }

  lemma ReplayNothing()
    ensures Replay(map[], []) == map[]
  {
  }

  lemma LongRun(crc: bytes -> nat)
    requires crc(Nulls(LONG - 21)) < TWO32
    ensures IsRun(crc, LongStates(crc), LongSteps(crc))
    ensures NeverOverlaps(LongStates(crc), LongSteps(crc)) && NeverSpeaks(LongStates(crc), LongSteps(crc))
    ensures NeverForeign(LongSteps(crc))
  {
    hide Frame, Filler, RecordBytes, Loaded, Replay, Decode, Acceptable, Nulls;
    FillerIs(crc);
    LongLoads(crc);
    assert [] + [Filler(crc)] == [Filler(crc)];
  }

  /** After it the log holds a commit that the cache lacks. */
  lemma LongDisagrees(crc: bytes -> nat)
    ensures !AgreesWhenQuiet(LongStates(crc))
  {
    hide Filler, RecordBytes, Replay, Decode, Frame;
    var f, c, s := Filler(crc), Commit(K0, 0), LongStates(crc)[4];
    RecordRoundTrip(c);
    ReplayMore(map[], [f], RecordBytes(c));
    assert s.log == [f] + [RecordBytes(c)];
    assert s.pending == map[] && K0 in Replay(map[], s.log) && K0 !in s.cache;
  }

  /**
   * One commit whose header has spilled when another store flushes an empty batch into the
   * file, and whose body follows: a restart takes the batch for the start of the body.
   */
  function MixedSteps(): seq<Step> {
    [Append(0, Commit(K0, 0)), Spill(HEADER), Foreign([]), SetCache(0), Restart]
  }

  function MixedStates(): seq<State> {
    var a := AppendTo(START, 0, Commit(K0, 0));
    var b := Spilt(a, HEADER);
    var c := b.(file := b.file + Frame([]));
    var d := SetFrom(c, 0);
    [START, a, b, c, d, d.(file := Disk(d), buf := [], cache := map[])]
  }

  /** The commit's record: 24 bytes, the last four of them null. */
  lemma K0Record()
    ensures |RecordBytes(Commit(K0, 0))| == 24 && RecordBytes(Commit(K0, 0))[20..] == [0, 0, 0, 0]
  {
    hide PutU16, PutU32, PutU64;
    EightNulls();
    var key, value := Block32(KeyBytes(K0)), Block32(PutU64(0));
    assert |key| == 12 && |value| == 12 && value[8..] == PutU64(0)[4..];
    assert (key + value)[20..] == value[8..];
  }

  lemma EightNulls()
    ensures PutU64(0) == [0, 0, 0, 0, 0, 0, 0, 0]
  {
    PutNull(8);
  }

  lemma {:induction false} PutNull(k: nat)
    ensures forall i :: 0 <= i < k ==> Put(k, 0)[i] == 0
  {
    if k > 0 {
      PutNull(k - 1);
    }
  }

  /** Four null bytes in front make a record with an empty key, which decodes to nothing. */
  lemma NullKey(x: bytes)
    ensures Decode(PutU32(0) + x) == None
  {
    hide PutU32, Get;
    var r := PutU32(0) + x;
    assert r[..4] == PutU32(0) && r[4..4] == [];
  }

  lemma MixedParts()
    ensures var rec, s := RecordBytes(Commit(K0, 0)), MixedStates()[4];
            s.file == Frame(rec)[..HEADER] + Frame([]) && s.buf == Frame(rec)[HEADER..]
  {
    hide RecordBytes, Frame;
    var rec := RecordBytes(Commit(K0, 0));
    assert [] + Frame(rec) == Frame(rec) && [] + Frame(rec)[..HEADER] == Frame(rec)[..HEADER];
  }

  lemma MixedDisk()
    ensures var rec := RecordBytes(Commit(K0, 0));
            |rec| == 24 && Disk(MixedStates()[4]) == PutU32(24) + (PutU32(0) + rec[..20]) + [0, 0, 0, 0]
  {
    hide RecordBytes, PutU32, Frame, MixedStates;
    K0Record();
    MixedParts();
    var rec := RecordBytes(Commit(K0, 0));
    FrameParts(rec);
    FrameIs([]);
    assert PutU32(0) + [] == PutU32(0);
    assert rec == rec[..20] + [0, 0, 0, 0];
  }

  lemma MixedLoads()
    ensures Loaded(MixedStates()[4]) == (map[], true)
  {
    hide MixedStates, RecordBytes, Disk, PutU32, Hydrate, Frame, Apply, Decode;
    K0Record();
    var body := PutU32(0) + RecordBytes(Commit(K0, 0))[..20];
    MixedDisk();
    assert PutU32(24) + body == Frame(body) by { FrameIs(body); }
    HydrateFrame(map[], body, [0, 0, 0, 0]);
    assert Apply(map[], body) == map[] by {
      NullKey(RecordBytes(Commit(K0, 0))[..20]);
      ApplyIs(map[], body);
    }
    assert Frame([]) == [0, 0, 0, 0] by { FourNulls(); }
    HydrateFrame(map[], [], []);
    assert Frame([]) + [] == Frame([]);
    assert Decode([]) == None by { NothingDecodes(); }
    ApplyIs(map[], []);
    HydrateNothing(map[]);
  }

  lemma FrameIs(p: bytes)
    ensures Frame(p) == PutU32(|p|) + p
  {
  }

  lemma FourNulls()
    ensures Frame([]) == [0, 0, 0, 0]
  {
    PutNull(4);
    assert PutU32(0) == [0, 0, 0, 0];
  }

  lemma NothingDecodes()
    ensures Decode([]) == None
  {
  }

  lemma MixedRun(crc: bytes -> nat)
    ensures IsRun(crc, MixedStates(), MixedSteps())
    ensures NeverOverlaps(MixedStates(), MixedSteps()) && NeverSpeaks(MixedStates(), MixedSteps())
    ensures AlwaysShort(MixedStates(), MixedSteps())
  {
    hide RecordBytes, Loaded, Replay, Decode, PutU32;
    K0Record();
    MixedLoads();
    NothingDecodes();
  }

  /** After it the log holds a commit that the cache lacks. */
  lemma MixedDisagrees()
    ensures !AgreesWhenQuiet(MixedStates())
  {
    hide RecordBytes, Replay, Decode, Frame;
    var c, s := Commit(K0, 0), MixedStates()[5];
    RecordRoundTrip(c);
    ReplayMore(map[], [], RecordBytes(c));
    assert s.log == [] + [RecordBytes(c)];
    assert s.pending == map[] && K0 in Replay(map[], s.log) && K0 !in s.cache;
  }

  /**
   * Every run agrees in its quiescent states if and only if none of four things is allowed
   * in it: overlapping commits of one key, produced batches that read as commits, restarts
   * with more to load than they read, and writes to the file by another store.
   */
  lemma AgreesIffOrderly(crc: bytes -> nat, a: Allowed)
    requires crc(Covered()) < TWO32 && crc(Nulls(LONG - 21)) < TWO32
    ensures (forall states, steps :: RunAgrees(crc, a, states, steps))
            <==> !a.overlap && !a.produced && !a.long && !a.foreign
  {
    hide IsRun, NeverOverlaps, NeverSpeaks, AlwaysShort, NeverForeign, AgreesWhenQuiet, Covered, Ambiguous, Nulls;
    if !a.overlap && !a.produced && !a.long && !a.foreign {
      forall states: seq<State>, steps: seq<Step>
        ensures RunAgrees(crc, a, states, steps)
      {
        if IsRun(crc, states, steps) && Orderly(states, steps) {
          OrderlyAgrees(crc, states, steps);
        }
      }
    }
    if a.overlap {
      CrossedRun(crc);
      CrossedDisagrees();
      assert !RunAgrees(crc, a, CrossedStates(), CrossedSteps());
    }
    if a.produced {
      SpokenRun(crc);
      assert !RunAgrees(crc, a, SpokenStates(crc), [Produce(Ambiguous(crc(Covered())))]);
    }
    if a.long {
      LongRun(crc);
      LongDisagrees(crc);
      assert !RunAgrees(crc, a, LongStates(crc), LongSteps(crc));
    }
    if a.foreign {
      MixedRun(crc);
      MixedDisagrees();
      assert !RunAgrees(crc, a, MixedStates(), MixedSteps());
    }
  }

  lemma OrderlyAgrees(crc: bytes -> nat, states: seq<State>, steps: seq<Step>)
    requires IsRun(crc, states, steps) && Orderly(states, steps)
    ensures AgreesWhenQuiet(states)
  {
    hide IsRun, Orderly, Replay;
    forall i | 0 <= i < |states| && states[i].pending == map[]
      ensures states[i].cache == Replay(map[], states[i].log)
    {
      QuiescentCacheIsReplay(crc, states, steps, i);
    }
  }
}
