/** The on-disk record layout: a four-byte big-endian length, then the payload. */
module RecordLog {
  import opened Bytes
  import opened Outcomes
  import opened Seqs

  const HEADER: int := 4

  /** The bytes one appended payload occupies. The length field keeps 32 bits. */
  function Frame(p: bytes): (s: bytes)
    ensures |s| == HEADER + |p|
  {
    PutU32(|p|) + p
  }

  /** The log holding `ps` in order. */
  function Frames(ps: seq<bytes>): (s: bytes)
    ensures |s| >= HEADER * |ps|
  {
    if ps == [] then [] else Frames(ps[..|ps| - 1]) + Frame(ps[|ps| - 1])
  }

  /** The byte position of record `i`; `Start(ps, |ps|)` is the end of the log. */
  function Start(ps: seq<bytes>, i: nat): (n: nat)
    requires i <= |ps|
  {
    |Frames(ps[..i])|
  }

  /** No payload is longer than its 32-bit length field can say. */
  ghost predicate Fits(ps: seq<bytes>) {
    forall i :: 0 <= i < |ps| ==> |ps[i]| < TWO32
  }

  lemma FramesAppend(ps: seq<bytes>, p: bytes)
    ensures Frames(ps + [p]) == Frames(ps) + Frame(p)
  {
    hide Frame;
    assert (ps + [p])[..|ps|] == ps;
  }

  lemma {:induction false} FramesConcat(a: seq<bytes>, b: seq<bytes>)
    ensures Frames(a + b) == Frames(a) + Frames(b)
  {
    hide Frame;
    if b == [] {
      assert a + b == a;
    } else {
      var b0 := b[..|b| - 1];
      FramesConcat(a, b0);
      assert (a + b)[..|a + b| - 1] == a + b0;
      Assoc(Frames(a), Frames(b0), Frame(b[|b| - 1]));
    }
  }

  /** Record `i` sits between its start and the next start, after the records before it. */
  lemma FrameAt(ps: seq<bytes>, i: nat)
    requires i < |ps|
    ensures Start(ps, i + 1) == Start(ps, i) + HEADER + |ps[i]|
    ensures Start(ps, i + 1) <= |Frames(ps)|
    ensures Frames(ps)[..Start(ps, i)] == Frames(ps[..i])
    ensures Frames(ps)[Start(ps, i)..Start(ps, i + 1)] == Frame(ps[i])
  {
    hide Frame, Frames;
    FramesUpTo(ps, i);
    FramesUpTo(ps, i + 1);
    assert ps[..i + 1] == ps[..i] + [ps[i]];
    FramesAppend(ps[..i], ps[i]);
    var log, a, b := Frames(ps), Start(ps, i), Start(ps, i + 1);
    SliceOfSlice(log, 0, b, a, b);
    assert log[..b] == log[0..b];
    SliceRight(Frames(ps[..i]), Frame(ps[i]), 0, |Frame(ps[i])|);
  }

  lemma FramesUpTo(ps: seq<bytes>, i: nat)
    requires i <= |ps|
    ensures Start(ps, i) <= |Frames(ps)|
    ensures Frames(ps)[..Start(ps, i)] == Frames(ps[..i])
  {
    hide Frame, Frames;
    Split(ps, i);
    FramesConcat(ps[..i], ps[i..]);
  }

  /** Later records do not move earlier ones. */
  lemma StartStable(ps: seq<bytes>, more: seq<bytes>, i: nat)
    requires i <= |ps|
    ensures Start(ps + more, i) == Start(ps, i)
  {
    hide Frames;
    assert (ps + more)[..i] == ps[..i];
  }

  /** In a log of at most 4 GiB every payload fits its length field. */
  lemma SmallLogFits(ps: seq<bytes>)
    requires |Frames(ps)| <= TWO32
    ensures Fits(ps)
  {
    hide Frames;
    forall i | 0 <= i < |ps|
      ensures |ps[i]| < TWO32
    {
      FrameAt(ps, i);
    }
  }

  lemma EmptyLog()
    ensures Frames([]) == []
  {
  }

  lemma {:induction false} StartsIncrease(ps: seq<bytes>, i: nat, j: nat)
    requires i < j <= |ps|
    ensures Start(ps, i) + HEADER <= Start(ps, j) <= |Frames(ps)|
  {
    hide *;
    FrameAt(ps, j - 1);
    if i < j - 1 {
      StartsIncrease(ps, i, j - 1);
    }
  }

  /**
   * What a read of the record at byte `off` yields once every byte of `log` is
   * visible: nothing when the header or the payload runs past the end.
   */
  function RecordAt(log: bytes, off: nat): (r: Option<bytes>)
    ensures r.Some? ==> off + HEADER + |r.value| <= |log|
  {
    if off + HEADER > |log| then None
    else
      var n := GetU32(log[off..off + HEADER]);
      if off + HEADER + n > |log| then None
      else Some(log[off + HEADER..off + HEADER + n])
  }

  /** A record reads back at its start, whatever follows the log, exactly when its length fits its field. */
  lemma RecordAtStart(ps: seq<bytes>, i: nat, tail: bytes)
    requires i < |ps|
    ensures RecordAt(Frames(ps) + tail, Start(ps, i)) == Some(ps[i]) <==> |ps[i]| < TWO32
  {
    hide *;
    FrameAt(ps, i);
    var a, b := Start(ps, i), Start(ps, i + 1);
    SliceLeft(Frames(ps), tail, a, b);
    RecordAtFrame(Frames(ps) + tail, a, ps[i]);
  }

  lemma RecordAtFrame(log: bytes, a: nat, p: bytes)
    requires a + HEADER + |p| <= |log| && log[a..a + HEADER + |p|] == Frame(p)
    ensures RecordAt(log, a) == Some(p) <==> |p| < TWO32
  {
    FrameParts(p);
    FrameLength(p);
    hide Frame, GetU32;
    SliceOfSlice(log, a, a + HEADER + |p|, 0, HEADER);
    SliceOfSlice(log, a, a + HEADER + |p|, HEADER, HEADER + |p|);
  }

  lemma FrameParts(p: bytes)
    ensures Frame(p)[..HEADER] == PutU32(|p|)
    ensures Frame(p)[HEADER..] == p
    ensures |p| < TWO32 ==> GetU32(Frame(p)[..HEADER]) == |p|
  {
    hide PutU32;
  }

  /** The length field keeps the low 32 bits of the length. */
  lemma FrameLength(p: bytes)
    ensures GetU32(Frame(p)[..HEADER]) == |p| % TWO32
  {
    hide PutU32;
    FrameParts(p);
  }

  /** The forward scan the index is for: step record by record from `pos` up to `target`. */
  function Scan(log: bytes, pos: nat, target: nat): (r: Option<bytes>)
    decreases target - pos
  {
    if pos > target then None
    else
      match RecordAt(log, pos)
      case None => None
      case Some(p) => if pos == target then Some(p) else Scan(log, pos + HEADER + |p|, target)
  }

  /** `target` is where some record of `ps` starts. */
  ghost predicate IsStart(ps: seq<bytes>, target: nat) {
    exists i | 0 <= i < |ps| :: Start(ps, i) == target
  }

  /** A scan from a boundary behind short records, at or before the target, ends as a scan from zero does. */
  lemma {:induction false} ScanFromBoundary(ps: seq<bytes>, i: nat, target: nat)
    requires i <= |ps| && Start(ps, i) <= target
    requires forall k :: 0 <= k < i ==> |ps[k]| < TWO32
    ensures Scan(Frames(ps), Start(ps, i), target) == Scan(Frames(ps), 0, target)
  {
    hide Frames, RecordAt;
    if i == 0 {
      EmptyLog();
      assert ps[..0] == [];
    } else {
      FrameAt(ps, i - 1);
      ScanFromBoundary(ps, i - 1, target);
      RecordAtStart(ps, i - 1, []);
      assert Frames(ps) + [] == Frames(ps);
    }
  }

  /** A scan from zero finds the record at `target` exactly when one starts there. */
  lemma {:induction false} ScanFinds(ps: seq<bytes>, target: nat)
    requires Fits(ps)
    ensures Scan(Frames(ps), 0, target).Some? <==> IsStart(ps, target)
    ensures forall i :: 0 <= i < |ps| && Start(ps, i) == target ==> Scan(Frames(ps), 0, target) == Some(ps[i])
  {
    hide Frames, RecordAt;
    EmptyLog();
    assert ps[..0] == [];
    forall i | 0 <= i < |ps| && Start(ps, i) == target
      ensures Scan(Frames(ps), 0, target) == Some(ps[i])
    {
      ScanFromBoundary(ps, i, target);
      RecordAtStart(ps, i, []);
      assert Frames(ps) + [] == Frames(ps);
    }
    if !IsStart(ps, target) {
      ScanMisses(ps, 0, target);
    }
  }

  lemma {:induction false} ScanMisses(ps: seq<bytes>, i: nat, target: nat)
    requires Fits(ps) && !IsStart(ps, target)
    requires i <= |ps|
    ensures Scan(Frames(ps), Start(ps, i), target).None?
    decreases |ps| - i
  {
    hide Frames;
    if Start(ps, i) <= target {
      if i == |ps| {
        assert ps[..i] == ps;
      } else {
        FrameAt(ps, i);
        RecordAtStart(ps, i, []);
        assert Frames(ps) + [] == Frames(ps);
        ScanMisses(ps, i + 1, target);
      }
    }
  }
}
