/** The sparse index paired with a segment: offset to byte position, one entry per 4 KiB of log. */
module SparseIndex {
  import opened Bytes
  import opened Outcomes
  import opened Seqs

  const INTERVAL: int := 4096
  const ENTRY_SIZE: int := 12

  /** One entry: an offset (uint64) and a byte position in the log file (uint32). */
  datatype Entry = Entry(offset: nat, position: nat)

  ghost predicate InRange(e: Entry) {
    e.offset < TWO64 && e.position < TWO32
  }

  function EncodeEntry(e: Entry): (s: bytes)
    ensures |s| == ENTRY_SIZE
  {
    PutU64(e.offset) + PutU32(e.position)
  }

  function DecodeEntry(s: bytes): (e: Entry)
    requires |s| == ENTRY_SIZE
    ensures InRange(e)
  {
    Entry(GetU64(s[..8]), GetU32(s[8..]))
  }

  lemma EntryRoundTrip(e: Entry)
    requires InRange(e)
    ensures DecodeEntry(EncodeEntry(e)) == e
  {
    hide PutU64, PutU32;
    var s := EncodeEntry(e);
    assert s[..8] == PutU64(e.offset) && s[8..] == PutU32(e.position);
  }

  /** The index file that holds `es` in order. */
  function EncodeEntries(es: seq<Entry>): (s: bytes) {
    if es == [] then [] else EncodeEntries(es[..|es| - 1]) + EncodeEntry(es[|es| - 1])
  }

  /** Every whole entry of an index file, in order; a cut-off last entry is dropped. */
  function DecodeEntries(s: bytes): (es: seq<Entry>)
    ensures |es| == |s| / ENTRY_SIZE
  {
    if |s| < ENTRY_SIZE then []
    else [DecodeEntry(s[..ENTRY_SIZE])] + DecodeEntries(s[ENTRY_SIZE..])
  }

  /** Decoding one more whole entry appends it. */
  lemma {:induction false} DecodeAppend(s: bytes, e: bytes)
    requires |s| % ENTRY_SIZE == 0 && |e| == ENTRY_SIZE
    ensures DecodeEntries(s + e) == DecodeEntries(s) + [DecodeEntry(e)]
  {
    hide DecodeEntry;
    if s == [] {
      assert s + e == e;
      assert e[..ENTRY_SIZE] == e;
      assert DecodeEntries(e[ENTRY_SIZE..]) == [];
    } else {
      DecodeAppend(s[ENTRY_SIZE..], e);
      assert (s + e)[..ENTRY_SIZE] == s[..ENTRY_SIZE];
      assert (s + e)[ENTRY_SIZE..] == s[ENTRY_SIZE..] + e;
    }
  }

  /** Reopening an index file written by appends restores exactly the entries written. */
  lemma {:induction false} EntriesRoundTrip(es: seq<Entry>)
    requires forall k :: 0 <= k < |es| ==> InRange(es[k])
    ensures |EncodeEntries(es)| == ENTRY_SIZE * |es|
    ensures DecodeEntries(EncodeEntries(es)) == es
  {
    hide EncodeEntry, DecodeEntry, DecodeEntries;
    if es == [] {
      DecodeNothing();
    } else {
      var n := |es| - 1;
      EntriesRoundTrip(es[..n]);
      EntryRoundTrip(es[n]);
      DecodeAppend(EncodeEntries(es[..n]), EncodeEntry(es[n]));
    }
  }

  lemma DecodeNothing()
    ensures DecodeEntries([]) == []
  {
  }

  /** Offsets strictly increase along the entries. */
  ghost predicate Sorted(es: seq<Entry>) {
    forall i, j :: 0 <= i < j < |es| ==> es[i].offset < es[j].offset
  }

  /** The position of the last entry whose offset is at most `target`, searched from the end. */
  function Floor(es: seq<Entry>, target: nat): (r: Option<nat>) {
    if es == [] then None
    else if es[|es| - 1].offset <= target then Some(es[|es| - 1].position)
    else Floor(es[..|es| - 1], target)
  }

  /** On sorted entries, entry `k` is the floor when the next one is beyond the target. */
  lemma {:induction false} FloorIs(es: seq<Entry>, target: nat, k: nat)
    requires k < |es| && es[k].offset <= target
    requires forall j :: k < j < |es| ==> es[j].offset > target
    ensures Floor(es, target) == Some(es[k].position)
  {
    if k < |es| - 1 {
      FloorIs(es[..|es| - 1], target, k);
    }
  }

  lemma {:induction false} FloorNone(es: seq<Entry>, target: nat)
    requires forall j :: 0 <= j < |es| ==> es[j].offset > target
    ensures Floor(es, target) == None
  {
    if es != [] {
      FloorNone(es[..|es| - 1], target);
    }
  }

  /** The in-memory and on-disk state of an index. */
  datatype IndexState = IndexState(file: bytes, buf: bytes, entries: seq<Entry>, since: int)

  /** `since` grows by the record; an entry is written once it reaches the interval. */
  function Recorded(x: IndexState, offset: nat, position: nat, recordSize: int): (y: IndexState) {
    var since := x.since + recordSize;
    if since < INTERVAL then x.(since := since)
    else
      var e := Entry(offset, position);
      IndexState(x.file, x.buf + EncodeEntry(e), x.entries + [e], 0)
  }

  function FlushedIndex(x: IndexState): (y: IndexState) {
    x.(file := x.file + x.buf, buf := [])
  }

  function OpenedIndex(disk: bytes): (y: IndexState) {
    IndexState(disk, [], DecodeEntries(disk), 0)
  }

  /** The bytes of the index file are the encoded entries. */
  ghost predicate Coherent(x: IndexState) {
    && (forall k :: 0 <= k < |x.entries| ==> InRange(x.entries[k]))
    && x.file + x.buf == EncodeEntries(x.entries)
  }

  lemma RecordedCoherent(x: IndexState, offset: nat, position: nat, recordSize: int)
    requires Coherent(x) && offset < TWO64 && position < TWO32
    ensures Coherent(Recorded(x, offset, position, recordSize))
  {
    hide EncodeEntry;
    var e := Entry(offset, position);
    assert (x.entries + [e])[..|x.entries|] == x.entries;
    Assoc(x.file, x.buf, EncodeEntry(e));
  }

  /** A clean close and reopen keeps the entries and clears the byte count. */
  lemma ReopenIndex(x: IndexState)
    requires Coherent(x)
    ensures Coherent(OpenedIndex(FlushedIndex(x).file))
    ensures OpenedIndex(FlushedIndex(x).file).entries == x.entries
  {
    hide EncodeEntries, DecodeEntries;
    EntriesRoundTrip(x.entries);
  }

  class Index {
    var file: bytes
    var buf: bytes
    var entries: seq<Entry>
    var since: int

    ghost function State(): IndexState
      reads this
    {
      IndexState(file, buf, entries, since)
    }

    constructor (disk: bytes)
      ensures State() == OpenedIndex(disk)
    {
      file, buf, since := disk, [], 0;
      var loaded := LoadEntries(disk);
      entries := loaded;
    }

    /** Reads 12-byte entries until the file has no whole one left. */
    static method LoadEntries(f: bytes) returns (entries: seq<Entry>)
      ensures entries == DecodeEntries(f)
    {
      entries := [];
      var pos := 0;
      assert f[0..] == f;
      while true
        invariant 0 <= pos <= |f|
        invariant DecodeEntries(f) == entries + DecodeEntries(f[pos..])
        decreases |f| - pos
      {
        if pos + ENTRY_SIZE > |f| {
          break;
        }
        var chunk := f[pos..pos + ENTRY_SIZE];
        assert f[pos..][..ENTRY_SIZE] == chunk;
        assert f[pos..][ENTRY_SIZE..] == f[pos + ENTRY_SIZE..];
        entries := entries + [DecodeEntry(chunk)];
        pos := pos + ENTRY_SIZE;
      }
    }

    /**
     * Counts the record and indexes it once the interval is reached. The file goes on
     * being the encoded entries, entries stay sorted under growing offsets, and no more
     * than one entry is kept for each interval of bytes counted.
     */
    method MaybeAppend(logOffset: nat, position: nat, recordSize: int)
      modifies this
      ensures State() == Recorded(old(State()), logOffset, position, recordSize)
      ensures old(Coherent(State())) && logOffset < TWO64 && position < TWO32 ==> Coherent(State())
      ensures old(Sorted(entries)) && (forall k :: 0 <= k < |old(entries)| ==> old(entries)[k].offset < logOffset) ==>
                Sorted(entries)
      ensures 4096 * |entries| + since <= 4096 * |old(entries)| + old(since) + recordSize
      ensures recordSize >= 0 && 0 <= old(since) ==> 0 <= since < 4096
    {
      hide EncodeEntry, EncodeEntries;
      ghost var x := State();
      if Coherent(x) && logOffset < TWO64 && position < TWO32 {
        RecordedCoherent(x, logOffset, position, recordSize);
      }
      since := since + recordSize;
      if since < INTERVAL {
        return;
      }
      var e := Entry(logOffset, position);
      buf := buf + EncodeEntry(e);
      entries := entries + [e];
      since := 0;
    }

    /**
     * Bisection for the greatest offset at most `target`. Whatever the entries, a
     * position found belongs to an entry at or before the target; on sorted
     * entries it is the last such entry's, and nothing is found only when every
     * offset is beyond the target.
     */
    method Lookup(target: nat) returns (r: Option<nat>)
      ensures r.Some? ==> exists k ::
                0 <= k < |entries| && entries[k].offset <= target && r.value == entries[k].position
      ensures Sorted(entries) ==> r == Floor(entries, target)
    {
      if |entries| == 0 {
        return None;
      }
      var lo, hi := 0, |entries| - 1;
      var result := -1;
      while lo <= hi
        invariant 0 <= lo <= |entries| && -1 <= hi < |entries| && lo <= hi + 1
        invariant result == -1 || (0 <= result < |entries| && entries[result].offset <= target)
        invariant Sorted(entries) ==> result == lo - 1
        invariant Sorted(entries) ==> forall j :: hi < j < |entries| ==> entries[j].offset > target
        decreases hi - lo + 1
      {
        var mid := (lo + hi) / 2;
        if entries[mid].offset <= target {
          result := mid;
          lo := mid + 1;
        } else {
          hi := mid - 1;
        }
      }
      if result == -1 {
        if Sorted(entries) {
          FloorNone(entries, target);
        }
        return None;
      }
      if Sorted(entries) {
        FloorIs(entries, target, result);
      }
      return Some(entries[result].position);
    }

    method Flush()
      modifies this
      ensures State() == FlushedIndex(old(State()))
    {
      file, buf := file + buf, [];
    }
  }
}
