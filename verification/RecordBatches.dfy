/** Kafka record batches (magic 2): the broker's shallow check, and its rewriting of BaseOffset on fetch. */
module RecordBatches {
  import opened Bytes
  import opened Seqs

  // Field positions inside a batch.
  const LENGTH: int := 8
  const MAGIC: int := 16
  const CRC: int := 17
  const CRC_BODY: int := 21
  const LAST_OFFSET_DELTA: int := 23
  const RECORDS_COUNT: int := 57
  const MIN_BYTES: int := 61
  const MIN_PATCH_BYTES: int := 27
  const RECORD_HEADER: int := 4

  /** How the check of a batch ends; `Panics` is Go's failure to slice [21:Length+12]. */
  datatype Verdict = Valid(records: int32) | TooShort | WrongMagic | LengthExceedsBuffer | Panics | CrcMismatch

  /** The Length field, plus the 12 bytes before what it counts. */
  function Total(b: bytes): nat
    requires |b| >= 12
  {
    12 + GetU32(b[LENGTH..12])
  }

  /** The LastOffsetDelta field. */
  function Delta(b: bytes): int32
    requires |b| >= MIN_PATCH_BYTES
  {
    ToInt32(GetU32(b[LAST_OFFSET_DELTA..27]))
  }

  function BaseOffset(b: bytes): nat
    requires |b| >= 8
  {
    GetU64(b[..8])
  }

  /** The shallow check, with the CRC32C of a byte range as an unspecified function. */
  function Validate(b: bytes, crc: bytes -> nat): Verdict {
    if |b| < MIN_BYTES then TooShort
    else if b[MAGIC] != 2 then WrongMagic
    else if |b| < Total(b) then LengthExceedsBuffer
    else if Total(b) < CRC_BODY then Panics
    else if GetU32(b[CRC..21]) != crc(b[CRC_BODY..Total(b)]) then CrcMismatch
    else Valid(ToInt32(GetU32(b[RECORDS_COUNT..61])))
  }

  /**
   * What the check promises of a batch it lets through: sixty-one bytes or more, magic 2, as long
   * as it says, and four bytes at 17 that are the checksum of byte 21 to the end it gives.
   */
  ghost predicate Passes(b: bytes, crc: bytes -> nat) {
    && |b| >= 61 && b[16] == 2
    && 9 <= Get(b[8..12]) <= |b| - 12
    && Get(b[17..21]) == crc(b[21..12 + Get(b[8..12])])
  }

  lemma ValidIffPasses(b: bytes, crc: bytes -> nat)
    ensures Validate(b, crc).Valid? <==> Passes(b, crc)
  {
    hide Get;
  }

  /** The check panics exactly on a batch of magic 2 whose length field leaves no room for its checksum. */
  lemma PanicsIff(b: bytes, crc: bytes -> nat)
    ensures Validate(b, crc).Panics? <==> |b| >= 61 && b[16] == 2 && Get(b[8..12]) < 9
  {
    hide Get;
  }

  /** The check reads nothing before byte 8, so the base offset can be rewritten under it. */
  lemma ValidateIgnoresBaseOffset(a: bytes, b: bytes, crc: bytes -> nat)
    requires |a| == |b| && (|a| >= 8 ==> a[8..] == b[8..])
    ensures Validate(a, crc) == Validate(b, crc)
  {
    hide GetU32;
    if |a| >= MIN_BYTES {
      assert a[MAGIC] == a[8..][MAGIC - 8] && b[MAGIC] == b[8..][MAGIC - 8];
      SameAfterBase(a, b, LENGTH, 12);
      SameAfterBase(a, b, CRC, 21);
      SameAfterBase(a, b, RECORDS_COUNT, 61);
      if CRC_BODY <= Total(a) <= |a| {
        SameAfterBase(a, b, CRC_BODY, Total(a));
      }
    }
  }

  lemma SameAfterBase(a: bytes, b: bytes, i: nat, j: nat)
    requires 8 <= i <= j <= |a| == |b| && a[8..] == b[8..]
    ensures a[i..j] == b[i..j]
  {
    SliceOfSlice(a, 8, |a|, i - 8, j - 8);
    SliceOfSlice(b, 8, |b|, i - 8, j - 8);
    assert a[8..|a|] == a[8..] && b[8..|b|] == b[8..];
  }

  // ------------------------------------------------------------------- patch

  /**
   * What the patch loop makes of the bytes it has not reached yet, `at` being the
   * physical position it takes the next stored record to be at. It stops at the
   * first batch that is too short or runs past the end.
   */
  function Patch(s: bytes, at: int): (r: bytes)
    ensures |r| == |s|
  {
    if |s| < MIN_PATCH_BYTES then s
    else if Total(s) > |s| then s
    else PutU64(at + RECORD_HEADER + Total(s) - Delta(s) - 1) + s[8..Total(s)] + Patch(s[Total(s)..], at + Total(s))
  }

  /** Byte `j` lies in the BaseOffset field of a batch the loop reaches. */
  ghost predicate InBaseField(s: bytes, j: nat)
    decreases |s|
  {
    && !Stops(s)
    && (j < 8 || (j >= Total(s) && InBaseField(s[Total(s)..], j - Total(s))))
  }

  /** On any payload whatever, the loop changes no byte outside the BaseOffset fields it reaches. */
  lemma {:induction false} PatchTouchesOnlyBases(s: bytes, at: int, j: nat)
    requires j < |s| && !InBaseField(s, j)
    ensures Patch(s, at)[j] == s[j]
    decreases |s|
  {
    hide PutU64, GetU32;
    if !Stops(s) && j >= Total(s) {
      PatchTouchesOnlyBases(s[Total(s)..], at + Total(s), j - Total(s));
    }
  }

  /** One complete batch: it is as long as its length field says, and long enough to patch. */
  predicate IsBatch(b: bytes) {
    |b| >= MIN_PATCH_BYTES && Total(b) == |b|
  }

  /** Bytes at which the loop stops. */
  ghost predicate Stops(t: bytes) {
    |t| < MIN_PATCH_BYTES || Total(t) > |t|
  }

  function Concat(bs: seq<bytes>): (s: bytes) {
    if bs == [] then [] else bs[0] + Concat(bs[1..])
  }

  /** A batch whose cursor, BaseOffset + LastOffsetDelta + 1, is `next` modulo 2^64. */
  function Rebase(b: bytes, next: int): (r: bytes)
    requires |b| >= MIN_PATCH_BYTES
    ensures |r| == |b|
  {
    PutU64(next - Delta(b) - 1) + b[8..]
  }

  /** The batches with their cursors on the ends of the batches, after the record header at `at`. */
  function Rebased(bs: seq<bytes>, at: int): (r: seq<bytes>)
    requires forall i :: 0 <= i < |bs| ==> IsBatch(bs[i])
    ensures |r| == |bs|
  {
    if bs == [] then []
    else
      assert IsBatch(bs[0]);
      [Rebase(bs[0], at + RECORD_HEADER + |bs[0]|)] + Rebased(bs[1..], at + |bs[0]|)
  }

  /** A fetch client moves its cursor to the field sum; rebasing puts that on `next` and moves nothing else. */
  lemma RebaseCursor(b: bytes, next: int)
    requires |b| >= MIN_PATCH_BYTES
    ensures Rebase(b, next)[8..] == b[8..]
    ensures Delta(Rebase(b, next)) == Delta(b)
    ensures (BaseOffset(Rebase(b, next)) + Delta(b) + 1) % TWO64 == next % TWO64
  {
    hide PutU64, GetU32;
    var r := Rebase(b, next);
    assert r[8..] == b[8..];
    SameAfterBase(r, b, LAST_OFFSET_DELTA, 27);
    assert r[..8] == PutU64(next - Delta(b) - 1);
  }

  lemma ConcatRebased(bs: seq<bytes>, at: int)
    requires bs != [] && forall i :: 0 <= i < |bs| ==> IsBatch(bs[i])
    ensures Concat(bs) == bs[0] + Concat(bs[1..])
    ensures |bs[0]| >= MIN_PATCH_BYTES
    ensures Concat(Rebased(bs, at))
            == Rebase(bs[0], at + RECORD_HEADER + |bs[0]|) + Concat(Rebased(bs[1..], at + |bs[0]|))
  {
    hide Rebase;
    assert IsBatch(bs[0]);
    assert Rebased(bs, at)[1..] == Rebased(bs[1..], at + |bs[0]|);
  }

  lemma NothingRebased(at: int)
    ensures Concat([]) == [] && Rebased([], at) == []
  {
  }

  /** The loop rebases each of a row of batches, whatever follows them, and goes on behind them. */
  lemma {:induction false} PatchBatches(bs: seq<bytes>, t: bytes, at: int)
    requires forall i :: 0 <= i < |bs| ==> IsBatch(bs[i])
    ensures Patch(Concat(bs) + t, at) == Concat(Rebased(bs, at)) + Patch(t, at + |Concat(bs)|)
    ensures |Concat(Rebased(bs, at))| == |Concat(bs)|
    decreases |bs|
  {
    hide Patch, Rebase, Rebased, Concat, IsBatch;
    if bs == [] {
      NothingRebased(at);
      assert [] + t == t && [] + Patch(t, at) == Patch(t, at);
    } else {
      var b, more := bs[0], bs[1..];
      ConcatRebased(bs, at);
      PatchBatches(more, t, at + |b|);
      Assoc(b, Concat(more), t);
      PatchFirst(b, Concat(more) + t, at);
      Assoc(Rebase(b, at + RECORD_HEADER + |b|), Concat(Rebased(more, at + |b|)), Patch(t, at + |b| + |Concat(more)|));
    }
  }

  lemma PatchFirst(b: bytes, rest: bytes, at: int)
    requires IsBatch(b)
    ensures Patch(b + rest, at) == Rebase(b, at + RECORD_HEADER + |b|) + Patch(rest, at + |b|)
  {
    hide PutU64, GetU32;
    var s := b + rest;
    SliceLeft(b, rest, LENGTH, 12);
    SliceLeft(b, rest, LAST_OFFSET_DELTA, 27);
    SliceLeft(b, rest, 8, |b|);
    assert b[8..|b|] == b[8..] && s[|b|..] == rest;
  }

  /** The total length of the first `i` batches. */
  function Sum(bs: seq<bytes>, i: nat): nat
    requires i <= |bs|
  {
    if i == 0 then 0 else Sum(bs, i - 1) + |bs[i - 1]|
  }

  /**
   * Batch `i` of a patched payload: its cursor is the physical end of batch `i`,
   * FetchOffset + 4 + the lengths of batches 0..i, for any signed delta, and its
   * bytes from 8 on are what they were.
   */
  lemma {:induction false} RebasedAt(bs: seq<bytes>, at: int, i: nat)
    requires forall k :: 0 <= k < |bs| ==> IsBatch(bs[k])
    requires i < |bs|
    ensures |Rebased(bs, at)[i]| == |bs[i]| && Rebased(bs, at)[i][8..] == bs[i][8..]
    ensures (BaseOffset(Rebased(bs, at)[i]) + Delta(Rebased(bs, at)[i]) + 1) % TWO64
            == (at + RECORD_HEADER + Sum(bs, i + 1)) % TWO64
    decreases i
  {
    hide BaseOffset, Delta, Rebase, Total;
    if i == 0 {
      RebaseCursor(bs[0], at + RECORD_HEADER + |bs[0]|);
      assert Sum(bs, 1) == |bs[0]|;
    } else {
      RebasedAt(bs[1..], at + |bs[0]|, i - 1);
      SumTail(bs, i + 1);
    }
  }

  lemma {:induction false} SumTail(bs: seq<bytes>, i: nat)
    requires 1 <= i <= |bs|
    ensures Sum(bs, i) == |bs[0]| + Sum(bs[1..], i - 1)
  {
    if i > 1 {
      SumTail(bs, i - 1);
    }
  }

  /** The loop itself, rewriting the payload in place. */
  method PatchBaseOffsets(payload: array<byte>, fetchOffset: int64)
    modifies payload
    ensures payload[..] == Patch(old(payload[..]), fetchOffset)
  {
    hide PutU64, GetU32, Patch, ToInt32;
    ghost var orig := payload[..];
    assert orig[0..] == orig && orig[..0] == [];
    var currentPos := fetchOffset % TWO64;
    var pos := 0;
    ghost var at: int := fetchOffset;
    while pos + MIN_PATCH_BYTES <= payload.Length
      invariant 0 <= pos <= payload.Length
      invariant currentPos == at % TWO64
      invariant payload[pos..] == orig[pos..]
      invariant payload[..pos] + Patch(orig[pos..], at) == Patch(orig, fetchOffset)
      decreases payload.Length - pos
    {
      ghost var done, s := payload[..pos], orig[pos..];
      assert payload[pos + LENGTH..pos + 12] == s[LENGTH..12];
      var batchLen := GetU32(payload[pos + LENGTH..pos + 12]);
      var total := 12 + batchLen;
      if pos + total > payload.Length {
        break;
      }
      assert payload[pos + LAST_OFFSET_DELTA..pos + 27] == s[LAST_OFFSET_DELTA..27];
      var lastOffsetDelta := ToInt32(GetU32(payload[pos + LAST_OFFSET_DELTA..pos + 27]));
      var nextPhysical := (currentPos + RECORD_HEADER + total) % TWO64;
      var targetBase := (nextPhysical - lastOffsetDelta % TWO64 - 1) % TWO64;
      TargetWord(at, total, lastOffsetDelta);
      PatchLoopStep(done, s, at);
      PatchOne(payload, pos, targetBase, total);
      assert orig[pos + total..] == s[total..];
      currentPos := (nextPhysical - RECORD_HEADER) % TWO64;
      pos := pos + total;
      at := at + total;
    }
    PatchStops(payload[pos..], at);
    assert payload[..pos] + payload[pos..] == payload[..];
  }

  /** Rewrites the first eight bytes of the batch of `total` bytes at `pos`. */
  method PatchOne(payload: array<byte>, pos: nat, base: nat, total: nat)
    requires 8 <= total && pos + total <= payload.Length
    modifies payload
    ensures payload[..pos + total] == old(payload[..pos]) + (PutU64(base) + old(payload[pos..])[8..total])
    ensures payload[pos + total..] == old(payload[pos..])[total..]
  {
    hide PutU64;
    ghost var before := payload[..];
    assert before[..pos] == payload[..pos] && before[pos..] == payload[pos..];
    PutAt(payload, pos, base);
    AfterPut(before, payload[..], pos, PutU64(base), total);
  }

  /** The wrapping arithmetic of one round agrees with exact arithmetic on the same words. */
  lemma TargetWord(at: int, total: nat, delta: int32)
    ensures var next := (at % TWO64 + RECORD_HEADER + total) % TWO64;
            && PutU64((next - delta % TWO64 - 1) % TWO64) == PutU64(at + RECORD_HEADER + total - delta - 1)
            && (next - RECORD_HEADER) % TWO64 == (at + total) % TWO64
  {
    hide PutU64;
    var n := at + RECORD_HEADER + total;
    var next := (at % TWO64 + RECORD_HEADER + total) % TWO64;
    assert next == n % TWO64 by {
      Wrap(at, RECORD_HEADER + total);
    }
    var target := (next - delta % TWO64 - 1) % TWO64;
    assert target == (n - delta - 1) % TWO64 by {
      Wrap(n, -(delta % TWO64) - 1);
      Wraps(n - delta % TWO64 - 1, n - delta - 1, delta / TWO64);
    }
    SameWord(target, n - delta - 1);
    assert (next - RECORD_HEADER) % TWO64 == (at + total) % TWO64 by {
      Wrap(n, -RECORD_HEADER);
    }
  }

  lemma SameWord(a: int, b: int)
    requires a == b % TWO64
    ensures PutU64(a) == PutU64(b)
  {
    hide Put, Get;
  }

  lemma Wrap(a: int, b: int)
    ensures (a % TWO64 + b) % TWO64 == (a + b) % TWO64
  {
    Wraps(a % TWO64 + b, a + b, -(a / TWO64));
  }

  lemma Wraps(a: int, b: int, k: int)
    requires a == b + k * TWO64
    ensures a % TWO64 == b % TWO64
  {
  }

  lemma AfterPut(before: bytes, after: bytes, pos: nat, word: bytes, total: nat)
    requires |word| == 8 <= total && pos + total <= |before|
    requires after == before[..pos] + word + before[pos + 8..]
    ensures |after| == |before|
    ensures after[..pos + total] == before[..pos] + (word + before[pos..][8..total])
    ensures after[pos + total..] == before[pos..][total..]
  {
    SliceOfSlice(before, pos, |before|, 8, total);
    assert before[pos..|before|] == before[pos..];
  }

  lemma PatchStops(t: bytes, at: int)
    requires Stops(t)
    ensures Patch(t, at) == t
  {
  }

  lemma PatchLoopStep(done: bytes, s: bytes, at: int)
    requires |s| >= MIN_PATCH_BYTES && Total(s) <= |s|
    ensures done + (PutU64(at + RECORD_HEADER + Total(s) - Delta(s) - 1) + s[8..Total(s)])
              + Patch(s[Total(s)..], at + Total(s))
            == done + Patch(s, at)
  {
    hide PutU64, GetU32;
    var first := PutU64(at + RECORD_HEADER + Total(s) - Delta(s) - 1) + s[8..Total(s)];
    Assoc(done, first, Patch(s[Total(s)..], at + Total(s)));
  }

  /** Go's PutUint64 into a slice. */
  method PutAt(a: array<byte>, pos: nat, v: nat)
    requires pos + 8 <= a.Length
    modifies a
    ensures a[..] == old(a[..pos]) + PutU64(v) + old(a[pos + 8..])
  {
    var word := PutU64(v);
    hide PutU64;
    forall i | 0 <= i < 8 {
      a[pos + i] := word[i];
    }
  }
}
