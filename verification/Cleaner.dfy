/** The retention cleaner, which works on the directory without holding the partition's lock. */
module Cleaner {
  import opened Bytes
  import opened Names

  datatype FileInfo = FileInfo(created: int, mtime: int)

  /** Where one call of the cleaner is. `base` is the active base it saw under the lock, at time `at`. */
  datatype Phase =
    | Idle
    | Snapped(base: nat, at: int)
    | Cut(base: nat, cutoff: int)
    | Listed(base: nat, cutoff: int, todo: set<bytes>)
    | Condemned(base: nat, cutoff: int, todo: set<bytes>, name: bytes)
    | LogGone(base: nat, cutoff: int, todo: set<bytes>, name: bytes)

  /** The directory, the clock, the active segment's base, and every cleaner call by number. */
  datatype State = State(now: int, files: map<bytes, FileInfo>, active: nat, calls: map<nat, Phase>)

  datatype Step =
    | Tick(to: int)
    | Touch(file: bytes, mtime: int)
    | Rollover(size: nat, logTime: int, indexTime: int)
    | Snapshot(call: nat)
    | Cutoff(call: nat)
    | List(call: nat)
    | Stat(call: nat, name: bytes)
    | RemoveLog(call: nat)
    | RemoveIndex(call: nat)
    | Finish(call: nat)

  function PhaseOf(s: State, call: nat): Phase {
    if call in s.calls then s.calls[call] else Idle
  }

  function At(s: State, call: nat, ph: Phase): State {
    s.(calls := s.calls[call := ph])
  }

  /** A file opened with O_CREATE: kept as it is when it exists. */
  function Ensure(files: map<bytes, FileInfo>, name: bytes, info: FileInfo): map<bytes, FileInfo> {
    if name in files then files else files[name := info]
  }

  /** Whether the loop passes over a listed name. */
  predicate Skipped(s: State, base: nat, cutoff: int, name: bytes) {
    || !HasSuffix(name, LOG)
    || name == LogName(base)
    || name !in s.files
    || s.files[name].mtime > cutoff
  }

  function IndexOf(logName: bytes): bytes {
    TrimSuffix(logName, LOG) + INDEX
  }

  /**
   * One step of the cleaner or of the partition. The clock does not go back, a
   * file is never dated before its creation, and the cutoff is taken at most
   * `slack` after the snapshot.
   */
  ghost predicate Next(s: State, step: Step, t: State, retention: int, slack: int) {
    match step
    case Tick(to) =>
      to >= s.now && t == s.(now := to)
    case Touch(file, mtime) =>
      file in s.files && mtime >= s.files[file].created
      && t == s.(files := s.files[file := s.files[file].(mtime := mtime)])
    case Rollover(size, logTime, indexTime) =>
      logTime >= s.now && indexTime >= s.now
      && var base := s.active + size;
         var files := Ensure(s.files, LogName(base), FileInfo(s.now, logTime));
         t == s.(active := base, files := Ensure(files, IndexName(base), FileInfo(s.now, indexTime)))
    case Snapshot(c) =>
      PhaseOf(s, c).Idle? && t == At(s, c, Snapped(s.active, s.now))
    case Cutoff(c) =>
      var ph := PhaseOf(s, c);
      ph.Snapped? && s.now - ph.at <= slack && t == At(s, c, Cut(ph.base, s.now - retention))
    case List(c) =>
      var ph := PhaseOf(s, c);
      ph.Cut? && t == At(s, c, Listed(ph.base, ph.cutoff, s.files.Keys))
    case Stat(c, name) =>
      var ph := PhaseOf(s, c);
      ph.Listed? && name in ph.todo
      && t == At(s, c, if Skipped(s, ph.base, ph.cutoff, name)
                       then Listed(ph.base, ph.cutoff, ph.todo - {name})
                       else Condemned(ph.base, ph.cutoff, ph.todo - {name}, name))
    case RemoveLog(c) =>
      var ph := PhaseOf(s, c);
      ph.Condemned?
      && t == At(s.(files := s.files - {ph.name}), c, LogGone(ph.base, ph.cutoff, ph.todo, ph.name))
    case RemoveIndex(c) =>
      var ph := PhaseOf(s, c);
      ph.LogGone?
      && t == At(s.(files := s.files - {IndexOf(ph.name)}), c, Listed(ph.base, ph.cutoff, ph.todo))
    case Finish(c) =>
      PhaseOf(s, c).Listed? && PhaseOf(s, c).todo == {} && t == At(s, c, Idle)
  }

  /** A session begun on an empty directory: the files of segment 0 have just been created. */
  ghost predicate Init(s: State) {
    && s.active == 0 && s.calls == map[]
    && s.files.Keys == {LogName(0), IndexName(0)}
    && (forall f :: f in s.files ==> s.files[f].created <= s.files[f].mtime)
  }

  ghost predicate IsRun(states: seq<State>, steps: seq<Step>, retention: int, slack: int) {
    && |states| == |steps| + 1
    && Init(states[0])
    && forall i :: 0 <= i < |steps| ==> Next(states[i], steps[i], states[i + 1], retention, slack)
  }

  ghost predicate ActivePresent(s: State) {
    LogName(s.active) in s.files && IndexName(s.active) in s.files
  }

  // ---------------------------------------------------------------- invariant

  ghost predicate IsLog(name: bytes, base: nat) { name == LogName(base) }
  ghost predicate IsIndex(name: bytes, base: nat) { name == IndexName(base) }

  /** Every file belongs to a segment no later than the active one, and its dates are in order. */
  ghost predicate FilesSound(s: State) {
    && (forall f :: f in s.files ==> exists b: nat :: b <= s.active && (IsLog(f, b) || IsIndex(f, b)))
    && (forall f :: f in s.files ==> s.files[f].created <= s.files[f].mtime)
  }

  /** Every log of a segment after `base` was created at `since` or later. */
  ghost predicate LaterSince(s: State, base: nat, since: int) {
    forall b: nat :: base < b && LogName(b) in s.files ==> s.files[LogName(b)].created >= since
  }

  ghost predicate PhaseSound(s: State, ph: Phase) {
    match ph
    case Idle => true
    case Snapped(base, at) => base <= s.active && at <= s.now && LaterSince(s, base, at)
    case Cut(base, cutoff) => base <= s.active && cutoff < s.now && LaterSince(s, base, cutoff + 1)
    case Listed(base, cutoff, _) => base <= s.active && cutoff < s.now && LaterSince(s, base, cutoff + 1)
    case Condemned(base, cutoff, _, name) =>
      base <= s.active && cutoff < s.now && LaterSince(s, base, cutoff + 1)
      && exists b: nat :: b < base && IsLog(name, b)
    case LogGone(base, cutoff, _, name) =>
      base <= s.active && cutoff < s.now && LaterSince(s, base, cutoff + 1)
      && exists b: nat :: b < base && IsLog(name, b)
  }

  ghost predicate Inv(s: State) {
    && FilesSound(s)
    && ActivePresent(s)
    && forall c :: c in s.calls ==> PhaseSound(s, s.calls[c])
  }

  /** What leaves every phase sound: time and the active base go forward, new logs are new. */
  ghost predicate Forward(s: State, t: State) {
    && s.now <= t.now && s.active <= t.active
    && (forall f :: f in t.files ==>
          (f in s.files && t.files[f].created == s.files[f].created) || t.files[f].created >= s.now)
  }

  lemma PhaseKept(s: State, t: State, ph: Phase)
    requires PhaseSound(s, ph) && Forward(s, t)
    ensures PhaseSound(t, ph)
  {
    hide LogName;
  }

  lemma CallsKept(s: State, t: State)
    requires Inv(s) && Forward(s, t) && t.calls == s.calls
    ensures forall c :: c in t.calls ==> PhaseSound(t, t.calls[c])
  {
    hide PhaseSound;
    forall c | c in t.calls
      ensures PhaseSound(t, t.calls[c])
    {
      PhaseKept(s, t, s.calls[c]);
    }
  }

  /** A call moves to a sound phase while the directory at most shrinks. */
  lemma CallMoved(s: State, t: State, c: nat, ph: Phase)
    requires Inv(s) && Forward(s, t) && t.calls == s.calls[c := ph]
    requires PhaseSound(t, ph)
    ensures forall k :: k in t.calls ==> PhaseSound(t, t.calls[k])
  {
    hide PhaseSound;
    forall k | k in t.calls
      ensures PhaseSound(t, t.calls[k])
    {
      if k != c {
        PhaseKept(s, t, s.calls[k]);
      }
    }
  }

  lemma TickKeeps(s: State, to: int)
    requires Inv(s) && to >= s.now
    ensures Inv(s.(now := to))
  {
    hide LogName, IndexName, PhaseSound;
    CallsKept(s, s.(now := to));
  }

  lemma TouchKeeps(s: State, file: bytes, mtime: int)
    requires Inv(s) && file in s.files && mtime >= s.files[file].created
    ensures Inv(s.(files := s.files[file := s.files[file].(mtime := mtime)]))
  {
    hide LogName, IndexName, PhaseSound;
    CallsKept(s, s.(files := s.files[file := s.files[file].(mtime := mtime)]));
  }

  lemma RolloverKeeps(s: State, size: nat, logTime: int, indexTime: int, t: State)
    requires Inv(s) && Next(s, Rollover(size, logTime, indexTime), t, 0, 0)
    ensures Inv(t)
  {
    hide LogName, IndexName, PhaseSound;
    forall f | f in t.files
      ensures exists b: nat :: b <= t.active && (IsLog(f, b) || IsIndex(f, b))
      ensures t.files[f].created <= t.files[f].mtime
      ensures (f in s.files && t.files[f].created == s.files[f].created) || t.files[f].created >= s.now
    {
      if f in s.files {
        var b: nat :| b <= s.active && (IsLog(f, b) || IsIndex(f, b));
        assert b <= t.active;
      } else {
        assert IsLog(f, t.active) || IsIndex(f, t.active);
      }
    }
    CallsKept(s, t);
  }

  /** A name that passes the test is a log of a segment closed before the snapshot. */
  lemma CondemnedIsOld(s: State, base: nat, cutoff: int, name: bytes)
    requires FilesSound(s) && LaterSince(s, base, cutoff + 1)
    requires !Skipped(s, base, cutoff, name)
    ensures exists b: nat :: b < base && IsLog(name, b)
  {
    hide LogName, IndexName;
    var b: nat :| b <= s.active && (IsLog(name, b) || IsIndex(name, b));
    FileNames(b, base);
  }

  /** Removing a log or index of a segment before the active one leaves the active files. */
  lemma RemovalKeeps(s: State, base: nat, b: nat, name: bytes)
    requires ActivePresent(s) && b < base <= s.active
    requires name == LogName(b) || name == IndexName(b)
    ensures ActivePresent(s.(files := s.files - {name}))
  {
    hide LogName, IndexName;
    FileNames(b, s.active);
    FileNames(s.active, b);
    LogIsNotIndex(b, s.active);
    LogIsNotIndex(s.active, b);
  }

  lemma LogIsNotIndex(a: nat, b: nat)
    ensures LogName(a) != IndexName(b)
  {
    hide LogName, IndexName;
    FileNames(a, a);
    FileNames(b, b);
  }

  lemma RemoveLogKeeps(s: State, c: nat, t: State)
    requires Inv(s) && Next(s, RemoveLog(c), t, 0, 0)
    ensures Inv(t)
  {
    hide LogName, IndexName;
    var ph := PhaseOf(s, c);
    var b: nat :| b < ph.base && IsLog(ph.name, b);
    RemovalKeeps(s, ph.base, b, ph.name);
    PhaseKept(s, t, ph);
    CallMoved(s, t, c, LogGone(ph.base, ph.cutoff, ph.todo, ph.name));
  }

  lemma RemoveIndexKeeps(s: State, c: nat, t: State)
    requires Inv(s) && Next(s, RemoveIndex(c), t, 0, 0)
    ensures Inv(t)
  {
    hide LogName, IndexName, TrimSuffix;
    var ph := PhaseOf(s, c);
    var b: nat :| b < ph.base && IsLog(ph.name, b);
    FileNames(b, b);
    RemovalKeeps(s, ph.base, b, IndexOf(ph.name));
    PhaseKept(s, t, ph);
    CallMoved(s, t, c, Listed(ph.base, ph.cutoff, ph.todo));
  }

  lemma StatKeeps(s: State, c: nat, name: bytes, t: State)
    requires Inv(s) && Next(s, Stat(c, name), t, 0, 0)
    ensures Inv(t)
  {
    hide LogName, IndexName;
    var ph := PhaseOf(s, c);
    PhaseKept(s, t, ph);
    if !Skipped(s, ph.base, ph.cutoff, name) {
      CondemnedIsOld(s, ph.base, ph.cutoff, name);
    }
    CallMoved(s, t, c, t.calls[c]);
  }

  lemma ScanKeeps(s: State, step: Step, t: State, retention: int, slack: int)
    requires Inv(s) && slack < retention && Next(s, step, t, retention, slack)
    requires step.Snapshot? || step.Cutoff? || step.List? || step.Finish?
    ensures Inv(t)
  {
    hide LogName, IndexName, FilesSound;
    var c := step.call;
    var ph := PhaseOf(s, c);
    assert Forward(s, t);
    if step.Snapshot? {
      assert LaterSince(t, s.active, s.now) by { NothingLater(s); }
    }
    CallMoved(s, t, c, t.calls[c]);
    assert FilesSound(t) by { SameFiles(s, t); }
  }

  lemma SameFiles(s: State, t: State)
    requires FilesSound(s) && t.files == s.files && t.active == s.active
    ensures FilesSound(t)
  {
    hide IsLog, IsIndex;
  }

  lemma NothingLater(s: State)
    requires FilesSound(s)
    ensures LaterSince(s, s.active, s.now)
  {
    hide LogName, IndexName;
    forall b: nat | s.active < b && LogName(b) in s.files
      ensures false
    {
      var k: nat :| k <= s.active && (IsLog(LogName(b), k) || IsIndex(LogName(b), k));
      FileNames(b, k);
      LogIsNotIndex(b, k);
    }
  }

  lemma StepKeeps(s: State, step: Step, t: State, retention: int, slack: int)
    requires Inv(s) && slack < retention && Next(s, step, t, retention, slack)
    ensures Inv(t)
  {
    hide Inv, LogName, IndexName;
    match step
    case Tick(to) => TickKeeps(s, to);
    case Touch(file, mtime) => TouchKeeps(s, file, mtime);
    case Rollover(size, logTime, indexTime) => RolloverKeeps(s, size, logTime, indexTime, t);
    case Stat(c, name) => StatKeeps(s, c, name, t);
    case RemoveLog(c) => RemoveLogKeeps(s, c, t);
    case RemoveIndex(c) => RemoveIndexKeeps(s, c, t);
    case _ => ScanKeeps(s, step, t, retention, slack);
  }

  lemma InitInv(s: State)
    requires Init(s)
    ensures Inv(s)
  {
    hide LogName, IndexName;
    forall f | f in s.files
      ensures exists b: nat :: b <= s.active && (IsLog(f, b) || IsIndex(f, b))
    {
      assert IsLog(f, 0) || IsIndex(f, 0);
    }
  }

  lemma {:induction false} RunKeeps(states: seq<State>, steps: seq<Step>, retention: int, slack: int, i: nat)
    requires IsRun(states, steps, retention, slack) && slack < retention && i <= |steps|
    ensures Inv(states[i])
  {
    hide Inv, Next;
    if i == 0 {
      InitInv(states[0]);
    } else {
      RunKeeps(states, steps, retention, slack, i - 1);
      StepKeeps(states[i - 1], steps[i - 1], states[i], retention, slack);
    }
  }

  /**
   * In every interleaving of any number of cleaner calls with appends and
   * rollovers, the active segment keeps both its files, as long as each cutoff
   * is taken less than the retention after its snapshot.
   */
  lemma ActiveNeverRemoved(states: seq<State>, steps: seq<Step>, retention: int, slack: int)
    requires IsRun(states, steps, retention, slack) && slack < retention
    ensures forall i :: 0 <= i < |states| ==> ActivePresent(states[i])
  {
    forall i | 0 <= i < |states|
      ensures ActivePresent(states[i])
    {
      RunKeeps(states, steps, retention, slack, i);
    }
  }

  ghost predicate RunIsSafe(states: seq<State>, steps: seq<Step>, retention: int, slack: int) {
    IsRun(states, steps, retention, slack) ==> forall i :: 0 <= i < |states| ==> ActivePresent(states[i])
  }

  // The schedule that loses the active segment when the cutoff comes late: the
  // call notes base 0, the partition rolls over to base 1, and a cutoff at least
  // the retention after the snapshot finds the new log old enough.

  function StartState(): State {
    State(0, map[LogName(0) := FileInfo(0, 0), IndexName(0) := FileInfo(0, 0)], 0, map[])
  }

  function RolledState(): State {
    var s := At(StartState(), 0, Snapped(0, 0));
    s.(active := 1, files := Ensure(Ensure(s.files, LogName(1), FileInfo(0, 0)), IndexName(1), FileInfo(0, 0)))
  }

  function LateSteps(slack: int): seq<Step> {
    [Snapshot(0), Rollover(1, 0, 0), Tick(slack), Cutoff(0), List(0), Stat(0, LogName(1)), RemoveLog(0)]
  }

  function LateStates(retention: int, slack: int): seq<State> {
    var r := RolledState();
    var late := r.(now := slack);
    var cutoff := slack - retention;
    var todo := r.files.Keys;
    [ StartState(),
      At(StartState(), 0, Snapped(0, 0)),
      r,
      late,
      At(late, 0, Cut(0, cutoff)),
      At(At(late, 0, Cut(0, cutoff)), 0, Listed(0, cutoff, todo)),
      At(At(At(late, 0, Cut(0, cutoff)), 0, Listed(0, cutoff, todo)), 0,
          Condemned(0, cutoff, todo - {LogName(1)}, LogName(1))),
      At(At(At(At(late, 0, Cut(0, cutoff)), 0, Listed(0, cutoff, todo)), 0,
          Condemned(0, cutoff, todo - {LogName(1)}, LogName(1)))
           .(files := r.files - {LogName(1)}), 0, LogGone(0, cutoff, todo - {LogName(1)}, LogName(1)))
    ]
  }

  lemma RolledLog()
    ensures var s := RolledState();
            && LogName(1) in s.files && s.files[LogName(1)].mtime == 0
            && HasSuffix(LogName(1), LOG) && LogName(1) != LogName(0)
  {
    hide LogName, IndexName;
    FileNames(1, 0);
    LogIsNotIndex(1, 0);
    LogIsNotIndex(1, 1);
  }

  lemma LateRun(retention: int, slack: int)
    requires 0 <= slack && retention <= slack
    ensures IsRun(LateStates(retention, slack), LateSteps(slack), retention, slack)
    ensures !ActivePresent(LateStates(retention, slack)[7])
  {
    hide LogName, IndexName, RolledState, Ensure;
    RolledLog();
    var states, steps := LateStates(retention, slack), LateSteps(slack);
    assert Init(states[0]);
    assert Next(states[0], steps[0], states[1], retention, slack);
    assert Next(states[1], steps[1], states[2], retention, slack) by { RolloverStep(); }
    RolledFields();
    assert Next(states[2], steps[2], states[3], retention, slack);
    assert Next(states[3], steps[3], states[4], retention, slack);
    assert Next(states[4], steps[4], states[5], retention, slack);
    assert Next(states[5], steps[5], states[6], retention, slack);
    assert Next(states[6], steps[6], states[7], retention, slack);
  }

  lemma RolledFields()
    ensures RolledState().active == 1 && RolledState().now == 0
    ensures RolledState().calls == map[0 := Snapped(0, 0)]
  {
    hide LogName, IndexName;
  }

  lemma RolloverStep()
    ensures Next(At(StartState(), 0, Snapped(0, 0)), Rollover(1, 0, 0), RolledState(), 0, 0)
  {
    hide LogName, IndexName, Ensure;
  }

  /** The active segment is safe in every interleaving exactly when cutoffs come within the retention. */
  lemma SafeIffTimely(retention: int, slack: int)
    requires slack >= 0
    ensures (forall states, steps :: RunIsSafe(states, steps, retention, slack)) <==> slack < retention
  {
    hide IsRun, ActivePresent, LateStates, LateSteps;
    if slack < retention {
      forall states, steps
        ensures RunIsSafe(states, steps, retention, slack)
      {
        if IsRun(states, steps, retention, slack) {
          ActiveNeverRemoved(states, steps, retention, slack);
        }
      }
    } else {
      LateRun(retention, slack);
      LateLength(retention, slack);
      assert !RunIsSafe(LateStates(retention, slack), LateSteps(slack), retention, slack);
    }
  }

  lemma LateLength(retention: int, slack: int)
    ensures |LateStates(retention, slack)| == 8
  {
  }

  // ------------------------------------------------- one call, uninterrupted

  /** The logs one uninterrupted call removes. */
  ghost function Expired(files: map<bytes, FileInfo>, names: seq<bytes>, base: nat, cutoff: int): set<bytes> {
    set f | f in names && f in files && HasSuffix(f, LOG) && f != LogName(base) && files[f].mtime <= cutoff
  }

  /** Each log's index goes with it. */
  ghost function WithIndexes(logs: set<bytes>): set<bytes> {
    logs + set f | f in logs :: IndexOf(f)
  }

  /** The log "<stem>.log" is listed, closed and no younger than the cutoff. */
  ghost predicate Doomed(files: map<bytes, FileInfo>, entries: seq<bytes>, base: nat, cutoff: int, stem: bytes) {
    var name := stem + LOG;
    name in entries && name in files && name != LogName(base) && files[name].mtime <= cutoff
  }

  /**
   * What a sweep makes of a directory: "<stem>.log" and "<stem>.index" are gone for every
   * doomed log, every other file is as it was, and none is new.
   */
  ghost predicate Swept(files: map<bytes, FileInfo>, entries: seq<bytes>, base: nat, cutoff: int,
      after: map<bytes, FileInfo>)
  {
    && (forall stem :: Doomed(files, entries, base, cutoff, stem) ==> stem + LOG !in after && stem + INDEX !in after)
    && (forall f :: f in after ==> f in files && after[f] == files[f])
    && (forall f :: f in files && f !in after ==>
          exists stem :: Doomed(files, entries, base, cutoff, stem) && (f == stem + LOG || f == stem + INDEX))
  }

  lemma SweepIs(files: map<bytes, FileInfo>, entries: seq<bytes>, base: nat, cutoff: int)
    ensures Swept(files, entries, base, cutoff, files - WithIndexes(Expired(files, entries, base, cutoff)))
  {
    hide LogName;
    var gone := Expired(files, entries, base, cutoff);
    var after := files - WithIndexes(gone);
    forall stem | Doomed(files, entries, base, cutoff, stem)
      ensures stem + LOG !in after && stem + INDEX !in after
    {
      StemOf(stem);
      assert stem + LOG in gone;
    }
    forall f | f in files && f !in after
      ensures exists stem :: Doomed(files, entries, base, cutoff, stem) && (f == stem + LOG || f == stem + INDEX)
    {
      var log :| log in gone && (f == log || f == IndexOf(log));
      var stem := log[..|log| - |LOG|];
      assert log == stem + LOG;
      StemOf(stem);
      assert Doomed(files, entries, base, cutoff, stem);
    }
  }

  lemma StemOf(stem: bytes)
    ensures HasSuffix(stem + LOG, LOG) && IndexOf(stem + LOG) == stem + INDEX
  {
    var name := stem + LOG;
    assert name[|stem|..] == LOG && name[..|stem|] == stem;
  }

  /** After a sweep no file of an expired closed segment is left, and every file of the active one is. */
  lemma SweptSegments(files: map<bytes, FileInfo>, entries: seq<bytes>, base: nat, cutoff: int,
      after: map<bytes, FileInfo>, b: nat)
    requires Swept(files, entries, base, cutoff, after)
    ensures b != base && LogName(b) in entries && LogName(b) in files && files[LogName(b)].mtime <= cutoff ==>
              LogName(b) !in after && IndexName(b) !in after
    ensures b == base || LogName(b) !in entries || LogName(b) !in files || files[LogName(b)].mtime > cutoff ==>
              (LogName(b) in files ==> LogName(b) in after) && (IndexName(b) in files ==> IndexName(b) in after)
  {
    hide Padded;
    FileNames(b, base);
    var dead := b != base && LogName(b) in entries && LogName(b) in files && files[LogName(b)].mtime <= cutoff;
    assert dead <==> Doomed(files, entries, base, cutoff, Padded(b));
    if !dead {
      forall stem | LogName(b) == stem + LOG || LogName(b) == stem + INDEX
                    || IndexName(b) == stem + LOG || IndexName(b) == stem + INDEX
        ensures stem == Padded(b)
      {
        SameStem(stem, Padded(b));
      }
    }
  }

  /** A file name has one stem, whichever of the two suffixes it ends in. */
  lemma SameStem(a: bytes, b: bytes)
    ensures a + LOG == b + LOG ==> a == b
    ensures a + INDEX == b + INDEX ==> a == b
    ensures a + LOG != b + INDEX
  {
    if a + LOG == b + LOG {
      assert a == (a + LOG)[..|a|] == (b + LOG)[..|b|] == b;
    }
    if a + INDEX == b + INDEX {
      assert a == (a + INDEX)[..|a|] == (b + INDEX)[..|b|] == b;
    }
    var log, index := a + LOG, b + INDEX;
    assert log[|log| - 1] == 103 && index[|index| - 1] == 120;
  }

  /** A call condemns a listed log exactly when it is closed, still there and no younger than the cutoff. */
  lemma StatDecides(s: State, c: nat, name: bytes, t: State, retention: int, slack: int)
    requires Next(s, Stat(c, name), t, retention, slack)
    ensures var ph := PhaseOf(s, c);
            && t.files == s.files && ph.Listed? && PhaseOf(t, c).todo == ph.todo - {name}
            && (PhaseOf(t, c).Condemned? <==>
                  && (exists stem :: name == stem + LOG) && name != LogName(ph.base)
                  && name in s.files && s.files[name].mtime <= ph.cutoff)
            && (PhaseOf(t, c).Condemned? ==> PhaseOf(t, c).name == name)
  {
    hide LogName;
    if HasSuffix(name, LOG) {
      assert name == name[..|name| - |LOG|] + LOG;
    }
    if stem :| name == stem + LOG {
      StemOf(stem);
    }
  }

  /** And the two removals of a condemned log of base `b` take its log, then its index, and nothing else. */
  lemma RemovalsTake(s: State, c: nat, b: nat, t: State, u: State, retention: int, slack: int)
    requires PhaseOf(s, c).Condemned? && PhaseOf(s, c).name == LogName(b)
    requires Next(s, RemoveLog(c), t, retention, slack) && Next(t, RemoveIndex(c), u, retention, slack)
    ensures t.files == s.files - {LogName(b)} && u.files == s.files - {LogName(b), IndexName(b)}
  {
    hide Padded;
    StemOf(Padded(b));
  }

  class Directory {
    var files: map<bytes, FileInfo>

    /** One sweep over the listing: removes expired closed logs and their indexes, and counts them. */
    method CleanOldSegments(activeBase: nat, cutoff: int, entries: seq<bytes>) returns (deleted: nat)
      requires forall i, j :: 0 <= i < j < |entries| ==> entries[i] != entries[j]
      modifies this
      ensures var gone := Expired(old(files), entries, activeBase, cutoff);
              deleted == |gone| && files == old(files) - WithIndexes(gone)
      ensures Swept(old(files), entries, activeBase, cutoff, files)
    {
      SweepIs(files, entries, activeBase, cutoff);
      hide Swept, LogName, HasSuffix, TrimSuffix, Expired, WithIndexes;
      deleted := 0;
      ghost var f0 := files;
      ghost var gone := Expired(f0, entries[..0], activeBase, cutoff);
      NoneExpired(f0, activeBase, cutoff);
      for i := 0 to |entries|
        invariant gone == Expired(f0, entries[..i], activeBase, cutoff)
        invariant deleted == |gone| && files == f0 - WithIndexes(gone)
      {
        var name := entries[i];
        ExpiredMore(f0, entries, i, activeBase, cutoff);
        WithIndexesMore(gone, name);
        if !HasSuffix(name, LOG) || name == LogName(activeBase) {
          continue;
        }
        LogSurvives(gone, name);
        if name !in files || files[name].mtime > cutoff {
          continue;
        }
        files := files - {name};
        files := files - {IndexOf(name)};
        deleted := deleted + 1;
        gone := gone + {name};
      }
      assert entries[..|entries|] == entries;
    }
  }

  lemma NoneExpired(files: map<bytes, FileInfo>, base: nat, cutoff: int)
    ensures Expired(files, [], base, cutoff) == {}
    ensures WithIndexes({}) == {}
  {
  }

  lemma ExpiredMore(files: map<bytes, FileInfo>, entries: seq<bytes>, i: nat, base: nat, cutoff: int)
    requires i < |entries| && forall j, k :: 0 <= j < k < |entries| ==> entries[j] != entries[k]
    ensures var name := entries[i];
            var before := Expired(files, entries[..i], base, cutoff);
            && name !in before
            && Expired(files, entries[..i + 1], base, cutoff)
               == if name in files && HasSuffix(name, LOG) && name != LogName(base) && files[name].mtime <= cutoff
                  then before + {name} else before
  {
    hide LogName, HasSuffix;
    assert entries[..i + 1] == entries[..i] + [entries[i]];
  }

  lemma WithIndexesMore(logs: set<bytes>, name: bytes)
    ensures WithIndexes(logs + {name}) == WithIndexes(logs) + {name, IndexOf(name)}
  {
    hide IndexOf;
  }

  /** Removing other logs with their indexes removes no further log. */
  lemma LogSurvives(gone: set<bytes>, name: bytes)
    requires name !in gone && HasSuffix(name, LOG)
    ensures name !in WithIndexes(gone)
  {
    forall f | f in gone
      ensures IndexOf(f) != name
    {
      var stem := TrimSuffix(f, LOG);
      assert (stem + INDEX)[|stem + INDEX| - 4..][3] == 120;
    }
  }
}
