/** How full a partition's segments are when it leaves them. */
module FilledSegments {
  import opened Bytes
  import opened RecordLog
  import opened Segments
  import opened Partitions

  /** Each closed segment had no room for the first record of the next one. */
  ghost predicate Tight(chain: seq<Link>, max: int) {
    forall i :: 0 < i < |chain| ==>
      chain[i].recs != [] && |Frames(chain[i - 1].recs)| + 4 + |chain[i].recs[0]| > max
  }

  /** The limit of every segment of a partition with this configuration. */
  function Limit(cfg: int64): int64 {
    if cfg > 0 then cfg else 0x4000_0000
  }

  ghost predicate NoOversize(ops: seq<PartOp>, max: int) {
    forall i :: 0 <= i < |ops| && ops[i].AppendOp? ==> 4 + |ops[i].data| <= max
  }

  lemma AppendTight(p: PartState, chain: seq<Link>, data: bytes)
    requires chain != [] && ChainHolds(p, chain) && Tight(chain, Limit(p.cfg)) && 4 + |data| <= Limit(p.cfg)
    ensures Tight(ChainAfter(p, chain, data), Limit(p.cfg))
  {
    hide Frames, ChainHolds, PartOffset;
    var n, c := |chain| - 1, ChainAfter(p, chain, data);
    ActiveSize(p, chain);
    RefusedIffOversize(p, chain, data);
    if p.active.size + 4 + |data| <= Limit(p.cfg) {
      assert c == chain[n := Link(chain[n].base, chain[n].recs + [data])];
      TightLonger(chain, data, Limit(p.cfg));
    } else {
      assert c == chain + [Link(p.nextBase + p.active.size, [] + [data])];
      TightNext(chain, c[n + 1], Limit(p.cfg));
    }
  }

  lemma ActiveSize(p: PartState, chain: seq<Link>)
    requires chain != [] && ChainHolds(p, chain)
    ensures p.active.size == |Frames(chain[|chain| - 1].recs)| && p.active.maxSize == Limit(p.cfg)
  {
    hide Frames, Tiles, ClosedOnDisk, IndexHolds;
  }

  lemma TightLonger(chain: seq<Link>, data: bytes, max: int)
    requires chain != [] && Tight(chain, max)
    ensures var n := |chain| - 1;
            Tight(chain[n := Link(chain[n].base, chain[n].recs + [data])], max)
  {
    hide Frames;
    var n := |chain| - 1;
    var c := chain[n := Link(chain[n].base, chain[n].recs + [data])];
    forall i | 0 < i < |c|
      ensures c[i].recs != [] && |Frames(c[i - 1].recs)| + 4 + |c[i].recs[0]| > max
    {
      assert chain[i].recs != [] && c[i - 1] == chain[i - 1];
    }
  }

  lemma TightNext(chain: seq<Link>, next: Link, max: int)
    requires chain != [] && Tight(chain, max) && next.recs != []
    requires |Frames(chain[|chain| - 1].recs)| + 4 + |next.recs[0]| > max
    ensures Tight(chain + [next], max)
  {
    hide Frames;
  }

  lemma {:induction false} RunTight(p: PartState, chain: seq<Link>, ops: seq<PartOp>)
    requires chain != [] && ChainHolds(p, chain) && Tight(chain, Limit(p.cfg)) && NoOversize(ops, Limit(p.cfg))
    ensures Tight(ChainRun(p, chain, ops), Limit(p.cfg))
    decreases |ops|
  {
    hide ChainHolds, Tight, PartStep, ChainAfter;
    if ops != [] {
      var op := ops[0];
      if op.AppendOp? {
        AppendTight(p, chain, op.data);
      }
      StepKeepsChain(p, chain, op);
      SameConfig(p, op);
      RunTight(PartStep(p, op), if op.AppendOp? then ChainAfter(p, chain, op.data) else chain, ops[1..]);
    }
  }

  lemma SameConfig(p: PartState, op: PartOp)
    ensures PartStep(p, op).cfg == p.cfg
  {
    hide Appended, OpenAt, FilesOf, HasRoom;
  }

  /**
   * In every session on an empty directory in which no record is offered that no segment could
   * take, a segment is left only for a record it has no room for, which then begins the next.
   */
  lemma SessionsFill(cfg: int64, ops: seq<PartOp>)
    requires NoOversize(ops, Limit(cfg))
    ensures Tight(ChainRun(OpenedPart(map[], cfg), FIRST, ops), Limit(cfg))
  {
    hide ChainHolds, ChainRun, OpenAt;
    EmptyPart(cfg);
    RunTight(OpenedPart(map[], cfg), FIRST, ops);
  }

  // --------------------------------------------- the condition is needed

  /** An empty record, one that no segment can take, and another empty record. */
  function EarlyOps(cfg: int64): seq<PartOp>
    requires Limit(cfg) >= 0
  {
    [AppendOp([]), AppendOp(seq(Limit(cfg), _ => 0)), AppendOp([])]
  }

  lemma OneAppend(p: PartState, chain: seq<Link>, data: bytes)
    requires chain != [] && ChainHolds(p, chain)
    ensures var q, c := PartStep(p, AppendOp(data)), ChainAfter(p, chain, data);
            var n, max := |chain| - 1, Limit(p.cfg);
            && ChainHolds(q, c) && q.cfg == p.cfg
            && (p.active.size + 4 + |data| <= max ==> c == chain[n := Link(chain[n].base, chain[n].recs + [data])])
            && (p.active.size > 0 && 4 + |data| > max ==> c == chain + [Link(p.nextBase + p.active.size, [])])
  {
    hide Frames, ChainHolds, PartOffset, PartStep;
    StepKeepsChain(p, chain, AppendOp(data));
    SameConfig(p, AppendOp(data));
    ActiveSize(p, chain);
    RefusedIffOversize(p, chain, data);
  }

  /** The refused record has closed a segment that the last one would have fitted. */
  lemma OversizeRollsEarly(cfg: int64)
    requires Limit(cfg) >= 8
    ensures !Tight(ChainRun(OpenedPart(map[], cfg), FIRST, EarlyOps(cfg)), Limit(cfg))
  {
    hide Frames, ChainHolds, PartStep, ChainAfter, OpenedPart;
    var p0, ops := OpenedPart(map[], cfg), EarlyOps(cfg);
    EmptyPart(cfg);
    assert p0.cfg == cfg by { OpenedConfig(cfg); }
    EmptyLog();
    FramesAppend([], []);
    ActiveSize(p0, FIRST);
    OneAppend(p0, FIRST, []);
    var p1, c1 := PartStep(p0, ops[0]), ChainAfter(p0, FIRST, []);
    var empty: bytes := [];
    assert [] + [empty] == [empty];
    assert c1 == [Link(0, [empty])];
    ActiveSize(p1, c1);
    OneAppend(p1, c1, ops[1].data);
    var p2, c2 := PartStep(p1, ops[1]), ChainAfter(p1, c1, ops[1].data);
    ActiveSize(p2, c2);
    OneAppend(p2, c2, []);
    var c3 := ChainAfter(p2, c2, []);
    assert c3[0] == c1[0] && c3[1].recs == [empty];
    assert ops[1..][1..] == [ops[2]] && ops[1..][0] == ops[1] && [ops[2]][1..] == [];
    assert ChainRun(p0, FIRST, ops) == c3 by { ThreeSteps(p0, FIRST, ops, c1, c2); }
  }

  lemma OpenedConfig(cfg: int64)
    ensures OpenedPart(map[], cfg).cfg == cfg
  {
  }

  lemma ThreeSteps(p: PartState, chain: seq<Link>, ops: seq<PartOp>, c1: seq<Link>, c2: seq<Link>)
    requires chain != [] && |ops| == 3 && forall i :: 0 <= i < 3 ==> ops[i].AppendOp?
    requires c1 == ChainAfter(p, chain, ops[0].data)
    requires c2 == ChainAfter(PartStep(p, ops[0]), c1, ops[1].data)
    ensures ChainRun(p, chain, ops) == ChainAfter(PartStep(PartStep(p, ops[0]), ops[1]), c2, ops[2].data)
  {
    hide PartStep, ChainAfter;
    var p1 := PartStep(p, ops[0]);
    var p2 := PartStep(p1, ops[1]);
    assert ChainRun(p2, c2, ops[1..][1..]) == ChainAfter(p2, c2, ops[2].data);
    assert ChainRun(p1, c1, ops[1..]) == ChainRun(p2, c2, ops[1..][1..]);
  }

  /** Every session fills its segments if and only if oversize records are kept out. */
  lemma FilledIffNoOversize(cfg: int64, oversize: bool)
    requires Limit(cfg) >= 8
    ensures (forall ops :: oversize || NoOversize(ops, Limit(cfg)) ==>
               Tight(ChainRun(OpenedPart(map[], cfg), FIRST, ops), Limit(cfg)))
            <==> !oversize
  {
    hide Tight, ChainRun, OpenedPart, NoOversize;
    if !oversize {
      forall ops | NoOversize(ops, Limit(cfg))
        ensures Tight(ChainRun(OpenedPart(map[], cfg), FIRST, ops), Limit(cfg))
      {
        SessionsFill(cfg, ops);
      }
    } else {
      OversizeRollsEarly(cfg);
    }
  }
}
