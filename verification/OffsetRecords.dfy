/** Committed consumer offsets as records: their encoding, and the replay that rebuilds the cache. */
module OffsetRecords {
  import opened Bytes
  import opened Outcomes
  import opened Seqs
  import opened RecordLog

  datatype OffsetKey = OffsetKey(group: bytes, topic: bytes, partition: int32)
  datatype Commit = Commit(key: OffsetKey, offset: int64)
  type Cache = map<OffsetKey, int64>

  /** Both names are short enough for their 16-bit length fields. */
  predicate FitsKey(k: OffsetKey) {
    |k.group| < TWO16 && |k.topic| < TWO16
  }

  // ---------------------------------------------------------------- encoding

  /** A name behind its 16-bit length. */
  function Name16(s: bytes): (r: bytes)
    ensures |r| == 2 + |s|
  {
    PutU16(|s|) + s
  }

  /** Bytes behind their 32-bit length. */
  function Block32(s: bytes): (r: bytes)
    ensures |r| == 4 + |s|
  {
    PutU32(|s|) + s
  }

  function KeyBytes(k: OffsetKey): bytes {
    Name16(k.group) + Name16(k.topic) + PutU32(k.partition)
  }

  function RecordBytes(c: Commit): bytes {
    Block32(KeyBytes(c.key)) + Block32(PutU64(c.offset))
  }

  // ---------------------------------------------------------------- decoding

  /** A length-prefixed field at the front of `s`, with what follows it. */
  function TakeName16(s: bytes): (r: Option<(bytes, bytes)>)
    ensures r.Some? ==> |r.value.0| < TWO16 && |s| == 2 + |r.value.0| + |r.value.1|
  {
    if |s| < 2 then None
    else
      var n := GetU16(s[..2]);
      if 2 + n > |s| then None else Some((s[2..2 + n], s[2 + n..]))
  }

  function TakeBlock32(s: bytes): (r: Option<(bytes, bytes)>)
    ensures r.Some? ==> |r.value.0| < TWO32 && |s| == 4 + |r.value.0| + |r.value.1|
  {
    if |s| < 4 then None
    else
      var n := GetU32(s[..4]);
      if 4 + n > |s| then None else Some((s[4..4 + n], s[4 + n..]))
  }

  function DecodeKey(key: bytes): Option<OffsetKey> {
    match TakeName16(key)
    case None => None
    case Some(g) =>
      match TakeName16(g.1)
      case None => None
      case Some(t) => if |t.1| < 4 then None else Some(OffsetKey(g.0, t.0, ToInt32(GetU32(t.1[..4]))))
  }

  /** What the broker makes of one stored record; anything malformed is `None`. */
  function Decode(record: bytes): Option<Commit> {
    match TakeBlock32(record)
    case None => None
    case Some(k) =>
      match TakeBlock32(k.1)
      case None => None
      case Some(v) =>
        match DecodeKey(k.0)
        case None => None
        case Some(key) => if |v.0| < 8 then None else Some(Commit(key, ToInt64(GetU64(v.0[..8]))))
  }

  // ------------------------------------------------------- the stored layout

  /** `key` starts with the three fields of `k`. */
  ghost predicate KeyLayout(key: bytes, k: OffsetKey) {
    FitsKey(k) && KeyBytes(k) <= key
  }

  /** `record` starts with a key block for `c.key` and a value block that starts with `c.offset`. */
  ghost predicate RecordLayout(record: bytes, c: Commit, key: bytes, value: bytes) {
    && |key| < TWO32 && |value| < TWO32
    && Block32(key) + Block32(value) <= record
    && KeyLayout(key, c.key)
    && PutU64(c.offset) <= value
  }

  lemma TakeName16Is(s: bytes, n: bytes, rest: bytes)
    ensures TakeName16(s) == Some((n, rest)) <==> |n| < TWO16 && s == Name16(n) + rest
  {
    hide PutU16, GetU16;
    if |n| < TWO16 && s == Name16(n) + rest {
      assert s[..2] == PutU16(|n|) && s[2..2 + |n|] == n && s[2 + |n|..] == rest;
      WordIs(n);
    }
    if TakeName16(s) == Some((n, rest)) {
      assert s == s[..2] + n + rest;
      PutGetU16(s[..2]);
      assert s == Name16(n) + rest;
    }
  }

  lemma WordIs(n: bytes)
    ensures |n| < TWO16 ==> GetU16(PutU16(|n|)) == |n|
    ensures |n| < TWO32 ==> GetU32(PutU32(|n|)) == |n|
  {
    hide PutU16, PutU32, Get;
  }

  lemma PutGetU16(s: bytes)
    requires |s| == 2
    ensures PutU16(GetU16(s)) == s
  {
    hide Put, Get;
    PutGet(s);
  }

  lemma TakeBlock32Is(s: bytes, n: bytes, rest: bytes)
    ensures TakeBlock32(s) == Some((n, rest)) <==> |n| < TWO32 && s == Block32(n) + rest
  {
    hide PutU32, GetU32;
    if |n| < TWO32 && s == Block32(n) + rest {
      assert s[..4] == PutU32(|n|) && s[4..4 + |n|] == n && s[4 + |n|..] == rest;
      WordIs(n);
    }
    if TakeBlock32(s) == Some((n, rest)) {
      assert s == s[..4] + n + rest;
      PutGetU32(s[..4]);
      assert s == Block32(n) + rest;
    }
  }

  lemma DecodeKeyIs(key: bytes, k: OffsetKey)
    ensures DecodeKey(key) == Some(k) <==> KeyLayout(key, k)
  {
    hide TakeName16, Name16, PutU32, GetU32;
    if KeyLayout(key, k) {
      var rest := key[|KeyBytes(k)|..];
      assert key == Name16(k.group) + (Name16(k.topic) + (PutU32(k.partition) + rest));
      TakeName16Is(key, k.group, Name16(k.topic) + (PutU32(k.partition) + rest));
      TakeName16Is(Name16(k.topic) + (PutU32(k.partition) + rest), k.topic, PutU32(k.partition) + rest);
      assert (PutU32(k.partition) + rest)[..4] == PutU32(k.partition);
      Int32RoundTrip(k.partition);
    }
    if DecodeKey(key) == Some(k) {
      var g := TakeName16(key).value;
      var t := TakeName16(g.1).value;
      TakeName16Is(key, g.0, g.1);
      TakeName16Is(g.1, t.0, t.1);
      Word32Is(t.1[..4], k.partition);
      assert t.1 == PutU32(k.partition) + t.1[4..];
      assert key == KeyBytes(k) + t.1[4..];
    }
  }

  lemma Word32Is(w: bytes, i: int32)
    requires |w| == 4 && i == ToInt32(GetU32(w))
    ensures PutU32(i) == w
  {
    PutGetU32(w);
    hide Put, Get;
  }

  lemma Word64Is(w: bytes, i: int64)
    requires |w| == 8 && i == ToInt64(GetU64(w))
    ensures PutU64(i) == w
  {
    PutGet(w);
    hide Put, Get;
  }

  /** Decoding succeeds exactly on the stored layout, and then with the commit laid out. */
  lemma DecodeIsLayout(record: bytes, c: Commit)
    ensures Decode(record) == Some(c) <==> exists key, value :: RecordLayout(record, c, key, value)
  {
    hide TakeBlock32, Block32, DecodeKey, KeyLayout, PutU64, GetU64;
    if key, value :| RecordLayout(record, c, key, value) {
      LayoutDecodes(record, c, key, value);
    }
    if Decode(record) == Some(c) {
      var k := TakeBlock32(record).value;
      var v := TakeBlock32(k.1).value;
      TakeBlock32Is(record, k.0, k.1);
      TakeBlock32Is(k.1, v.0, v.1);
      DecodeKeyIs(k.0, c.key);
      Word64Is(v.0[..8], c.offset);
      assert record == Block32(k.0) + Block32(v.0) + v.1;
      assert RecordLayout(record, c, k.0, v.0);
    }
  }

  lemma LayoutDecodes(record: bytes, c: Commit, key: bytes, value: bytes)
    requires RecordLayout(record, c, key, value)
    ensures Decode(record) == Some(c)
  {
    hide TakeBlock32, Block32, DecodeKey, KeyLayout, PutU64;
    var rest := record[|Block32(key) + Block32(value)|..];
    assert record == Block32(key) + (Block32(value) + rest);
    TakeBlock32Is(record, key, Block32(value) + rest);
    TakeBlock32Is(Block32(value) + rest, value, rest);
    DecodeKeyIs(key, c.key);
    assert value[..8] == PutU64(c.offset);
    Int64RoundTrip(c.offset);
  }

  /** A commit reads back from its own record exactly when both names fit their length fields. */
  lemma RecordRoundTrip(c: Commit)
    ensures Decode(RecordBytes(c)) == Some(c) <==> FitsKey(c.key)
  {
    hide Block32, KeyBytes, PutU64;
    if FitsKey(c.key) {
      KeyBytesSize(c.key);
      assert RecordLayout(RecordBytes(c), c, KeyBytes(c.key), PutU64(c.offset));
      LayoutDecodes(RecordBytes(c), c, KeyBytes(c.key), PutU64(c.offset));
    }
  }

  lemma KeyBytesSize(k: OffsetKey)
    requires FitsKey(k)
    ensures |KeyBytes(k)| < TWO32
  {
    hide Name16, PutU32;
  }

  /** Distinct keys are stored differently. */
  lemma KeysApart(a: OffsetKey, b: OffsetKey)
    requires FitsKey(a) && FitsKey(b) && KeyBytes(a) == KeyBytes(b)
    ensures a == b
  {
    hide KeyBytes, DecodeKey;
    DecodeKeyIs(KeyBytes(a), a);
    DecodeKeyIs(KeyBytes(b), b);
  }

  // ------------------------------------------------- the source's procedures

  /** Go's copy into a slice at `pos`, and its fixed-width Put calls. */
  method CopyAt(buf: array<byte>, pos: nat, src: bytes)
    requires pos + |src| <= buf.Length
    modifies buf
    ensures buf[..pos] == old(buf[..pos]) && buf[pos..pos + |src|] == src
  {
    forall i | 0 <= i < |src| {
      buf[pos + i] := src[i];
    }
  }

  method EncodeOffsetKey(group: bytes, topic: bytes, partition: int32) returns (buf: array<byte>)
    ensures buf[..] == KeyBytes(OffsetKey(group, topic, partition))
    ensures fresh(buf)
  {
    hide PutU16, PutU32;
    buf := new byte[2 + |group| + 2 + |topic| + 4];
    var pos := 0;
    CopyAt(buf, pos, PutU16(|group|));
    pos := pos + 2;
    CopyAt(buf, pos, group);
    pos := pos + |group|;
    ghost var a := pos;
    assert buf[..a] == Name16(group) by { Halves(buf[..], 2, a); }
    CopyAt(buf, pos, PutU16(|topic|));
    pos := pos + 2;
    ghost var b := pos;
    assert buf[..b] == Name16(group) + PutU16(|topic|) by { Halves(buf[..], a, b); }
    CopyAt(buf, pos, topic);
    pos := pos + |topic|;
    assert buf[..pos] == Name16(group) + PutU16(|topic|) + topic by { Halves(buf[..], b, pos); }
    Assoc(Name16(group), PutU16(|topic|), topic);
    CopyAt(buf, pos, PutU32(partition));
    assert buf[..] == KeyBytes(OffsetKey(group, topic, partition)) by { Halves(buf[..], pos, buf.Length); }
  }

  lemma Halves(s: bytes, i: nat, j: nat)
    requires i <= j <= |s|
    ensures s[..j] == s[..i] + s[i..j]
  {
  }

  method EncodeOffsetRecord(key: bytes, value: bytes) returns (buf: array<byte>)
    ensures buf[..] == Block32(key) + Block32(value)
    ensures fresh(buf)
  {
    hide PutU32;
    buf := new byte[4 + |key| + 4 + |value|];
    var pos := 0;
    CopyAt(buf, pos, PutU32(|key|));
    pos := pos + 4;
    CopyAt(buf, pos, key);
    pos := pos + |key|;
    ghost var a := pos;
    assert buf[..a] == Block32(key) by { Halves(buf[..], 4, a); }
    CopyAt(buf, pos, PutU32(|value|));
    pos := pos + 4;
    assert buf[..pos] == Block32(key) + PutU32(|value|) by { Halves(buf[..], a, pos); }
    CopyAt(buf, pos, value);
    assert buf[..] == Block32(key) + PutU32(|value|) + value by { Halves(buf[..], pos, buf.Length); }
    Assoc(Block32(key), PutU32(|value|), value);
  }

  /** The cursor-based decoder; it stays in bounds on every byte string. */
  method DecodeOffsetRecord(record: bytes) returns (r: Option<Commit>)
    ensures r == Decode(record)
  {
    hide GetU32, GetU64;
    if |record| < 4 {
      return None;
    }
    var pos := 0;
    var keyLen := GetU32(record[pos..pos + 4]);
    pos := pos + 4;
    if pos + keyLen > |record| {
      return None;
    }
    var key := record[pos..pos + keyLen];
    pos := pos + keyLen;
    ghost var rest := record[pos..];
    if pos + 4 > |record| {
      return None;
    }
    assert record[pos..pos + 4] == rest[..4];
    var valueLen := GetU32(record[pos..pos + 4]);
    pos := pos + 4;
    if pos + valueLen > |record| {
      return None;
    }
    assert record[pos..pos + valueLen] == rest[4..4 + valueLen];
    var value := record[pos..pos + valueLen];
    var k := DecodeOffsetKey(key);
    if k == None {
      return None;
    }
    if |value| < 8 {
      return None;
    }
    return Some(Commit(k.value, ToInt64(GetU64(value[..8]))));
  }

  method DecodeOffsetKey(key: bytes) returns (r: Option<OffsetKey>)
    ensures r == DecodeKey(key)
  {
    hide GetU16, GetU32;
    var kpos := 0;
    if |key| < 2 {
      return None;
    }
    var groupIDLen := GetU16(key[kpos..kpos + 2]);
    kpos := kpos + 2;
    if kpos + groupIDLen > |key| {
      return None;
    }
    var groupID := key[kpos..kpos + groupIDLen];
    kpos := kpos + groupIDLen;
    ghost var rest := key[kpos..];
    if kpos + 2 > |key| {
      return None;
    }
    assert key[kpos..kpos + 2] == rest[..2];
    var topicLen := GetU16(key[kpos..kpos + 2]);
    kpos := kpos + 2;
    if kpos + topicLen > |key| {
      return None;
    }
    assert key[kpos..kpos + topicLen] == rest[2..2 + topicLen];
    var topic := key[kpos..kpos + topicLen];
    kpos := kpos + topicLen;
    ghost var last := rest[2 + topicLen..];
    assert last == key[kpos..];
    if kpos + 4 > |key| {
      return None;
    }
    assert key[kpos..kpos + 4] == last[..4];
    return Some(OffsetKey(groupID, topic, ToInt32(GetU32(key[kpos..kpos + 4]))));
  }

  // ------------------------------------------------------------------ replay

  /** The effect of one stored record on the cache; a malformed one is skipped. */
  function Apply(cache: Cache, record: bytes): Cache {
    match Decode(record)
    case None => cache
    case Some(c) => cache[c.key := c.offset]
  }

  /** Last writer wins, over the records in order. */
  function Replay(cache: Cache, recs: seq<bytes>): Cache {
    if recs == [] then cache else Apply(Replay(cache, recs[..|recs| - 1]), recs[|recs| - 1])
  }

  /** The byte-level load: record by record until no header is left; a cut-off body is an error. */
  function Hydrate(cache: Cache, s: bytes): (Cache, bool)
    decreases |s|
  {
    if |s| < HEADER then (cache, true)
    else
      var n := GetU32(s[..HEADER]);
      if HEADER + n > |s| then (cache, false)
      else Hydrate(Apply(cache, s[HEADER..HEADER + n]), s[HEADER + n..])
  }

  lemma HydrateFrame(cache: Cache, p: bytes, rest: bytes)
    requires |p| < TWO32
    ensures Hydrate(cache, Frame(p) + rest) == Hydrate(Apply(cache, p), rest)
  {
    hide Apply, Frame, GetU32;
    FrameParts(p);
    var s := Frame(p) + rest;
    assert s[..HEADER] == Frame(p)[..HEADER];
    assert s[HEADER..HEADER + |p|] == Frame(p)[HEADER..];
    assert s[HEADER + |p|..] == rest;
  }

  /** Loading whole records followed by a remainder replays the records, then loads the remainder. */
  lemma {:induction false} HydrateRecords(cache: Cache, recs: seq<bytes>, tail: bytes)
    requires Fits(recs)
    ensures Hydrate(cache, Frames(recs) + tail) == Hydrate(Replay(cache, recs), tail)
  {
    hide Hydrate, Apply, Frame;
    if recs == [] {
      EmptyLog();
      assert Frames(recs) + tail == tail;
    } else {
      var n := |recs| - 1;
      Assoc(Frames(recs[..n]), Frame(recs[n]), tail);
      HydrateRecords(cache, recs[..n], Frame(recs[n]) + tail);
      HydrateFrame(Replay(cache, recs[..n]), recs[n], tail);
    }
  }

  /** Loading the whole log is the replay of its records. */
  lemma HydrateLog(cache: Cache, recs: seq<bytes>)
    requires Fits(recs)
    ensures Hydrate(cache, Frames(recs)) == (Replay(cache, recs), true)
  {
    HydrateRecords(cache, recs, []);
    assert Frames(recs) + [] == Frames(recs);
    assert Hydrate(Replay(cache, recs), []) == (Replay(cache, recs), true);
  }

  /**
   * Loading a window that ends inside record `i` replays the records before it,
   * and fails exactly when the window holds that record's header but not its body.
   */
  lemma HydrateWindow(cache: Cache, recs: seq<bytes>, i: nat, w: nat)
    requires Fits(recs) && i < |recs| && Start(recs, i) <= w < Start(recs, i + 1)
    ensures w <= |Frames(recs)|
    ensures Hydrate(cache, Frames(recs)[..w]) == (Replay(cache, recs[..i]), w - Start(recs, i) < HEADER)
  {
    hide Frames, Apply, Replay, Frame, GetU32;
    FrameAt(recs, i);
    var log, a, b := Frames(recs), Start(recs, i), Start(recs, i + 1);
    var tail := Frame(recs[i])[..w - a];
    assert log[..w] == log[..a] + tail by {
      SliceOfSlice(log, a, b, 0, w - a);
    }
    HydrateRecords(cache, recs[..i], tail);
    if w - a >= HEADER {
      FrameParts(recs[i]);
      assert tail[..HEADER] == Frame(recs[i])[..HEADER];
    }
  }

  /** Replaying the records of commits is the fold over the commits, last writer winning. */
  function Fold(cache: Cache, log: seq<Commit>): Cache {
    if log == [] then cache else Fold(cache, log[..|log| - 1])[log[|log| - 1].key := log[|log| - 1].offset]
  }

  function Encoded(log: seq<Commit>): (r: seq<bytes>)
    ensures |r| == |log|
  {
    seq(|log|, i requires 0 <= i < |log| => RecordBytes(log[i]))
  }

  lemma {:induction false} ReplayCommits(cache: Cache, log: seq<Commit>)
    requires forall i :: 0 <= i < |log| ==> FitsKey(log[i].key)
    ensures Replay(cache, Encoded(log)) == Fold(cache, log)
  {
    hide RecordBytes, Decode;
    if log != [] {
      var n := |log| - 1;
      ReplayCommits(cache, log[..n]);
      assert Encoded(log)[..n] == Encoded(log[..n]);
      RecordRoundTrip(log[n]);
    }
  }

  // ------------------------------------------------------------ key by key

  ghost predicate SameEntry(a: Cache, b: Cache, k: OffsetKey) {
    (k in a <==> k in b) && (k in a && k in b ==> a[k] == b[k])
  }

  lemma SameEverywhere(a: Cache, b: Cache)
    requires forall k :: SameEntry(a, b, k)
    ensures a == b
  {
    assert forall k :: k in a ==> SameEntry(a, b, k);
    assert forall k :: k in b ==> SameEntry(a, b, k);
  }

  /** The offset the last of the records that decode to a commit of `k` carries. */
  function LastSet(recs: seq<bytes>, k: OffsetKey): Option<int64> {
    if recs == [] then None
    else
      var c := Decode(recs[|recs| - 1]);
      if c.Some? && c.value.key == k then Some(c.value.offset) else LastSet(recs[..|recs| - 1], k)
  }

  /** Further records leave a key as it was unless one of them sets it, and the last that does decides. */
  lemma {:induction false} ReplaySets(cache: Cache, a: seq<bytes>, b: seq<bytes>, k: OffsetKey)
    ensures match LastSet(b, k)
            case None => SameEntry(Replay(cache, a + b), Replay(cache, a), k)
            case Some(v) => k in Replay(cache, a + b) && Replay(cache, a + b)[k] == v
  {
    hide Decode;
    if b == [] {
      assert a + b == a;
    } else {
      ReplaySets(cache, a, b[..|b| - 1], k);
      assert (a + b)[..|a + b| - 1] == a + b[..|b| - 1];
    }
  }

  lemma ReplayMore(cache: Cache, recs: seq<bytes>, rec: bytes)
    ensures Replay(cache, recs + [rec]) == Apply(Replay(cache, recs), rec)
  {
    hide Apply;
    assert (recs + [rec])[..|recs|] == recs;
  }
}
