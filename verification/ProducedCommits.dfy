/** A record batch that passes the broker's check and also reads as a committed offset. */
module ProducedCommits {
  import opened Bytes
  import opened Outcomes
  import opened RecordBatches
  import opened OffsetRecords

  function Nulls(n: nat): (s: bytes)
    ensures |s| == n
  {
    seq(n, _ => 0)
  }

  /** The group name such a commit has: bytes 6 to 25 of the batch, its length, magic and checksum among them. */
  function Group(sum: nat): (s: bytes)
    ensures |s| == 20
  {
    Nulls(2) + PutU32(49) + Nulls(4) + [2] + PutU32(sum) + Nulls(5)
  }

  function TheCommit(sum: nat): Commit {
    Commit(OffsetKey(Group(sum), [], 7), 42)
  }

  /** The commit's record, filled up to the length of a batch header. */
  function Ambiguous(sum: nat): bytes {
    RecordBytes(TheCommit(sum)) + Nulls(17)
  }

  /** The bytes the checksum covers. */
  function Covered(): (s: bytes)
    ensures |s| == 40
  {
    Nulls(5) + PutU16(0) + PutU32(7) + PutU32(8) + PutU64(42) + Nulls(17)
  }

  lemma AsBatch(sum: nat)
    ensures Ambiguous(sum)
            == PutU32(28) + PutU16(20) + Nulls(2) + PutU32(49) + Nulls(4) + [2] + PutU32(sum) + Covered()
  {
    hide PutU16, PutU32, PutU64, Nulls;
    assert |KeyBytes(TheCommit(sum).key)| == 28;
    assert PutU16(0) + [] == PutU16(0);
  }

  lemma Fields(sum: nat)
    ensures var b := Ambiguous(sum);
            && |b| == 61 && b[LENGTH..12] == PutU32(49) && b[MAGIC] == 2
            && b[CRC..21] == PutU32(sum) && b[CRC_BODY..61] == Covered()
  {
    hide PutU16, PutU32, PutU64, Nulls, Ambiguous, Covered;
    AsBatch(sum);
  }

  /** It decodes as a commit, whatever its checksum field holds. */
  lemma Decodes(sum: nat)
    ensures Decode(Ambiguous(sum)) == Some(TheCommit(sum)) && FitsKey(TheCommit(sum).key)
  {
    hide PutU16, PutU32, PutU64, Nulls, Group, Decode;
    var c := TheCommit(sum);
    KeyBytesSize(c.key);
    assert RecordLayout(Ambiguous(sum), c, KeyBytes(c.key), PutU64(c.offset));
    LayoutDecodes(Ambiguous(sum), c, KeyBytes(c.key), PutU64(c.offset));
  }

  /**
   * For every 32-bit checksum there is a batch, exactly as long as it says, that the broker
   * accepts from a producer and that a replay of the offsets partition takes for a commit.
   */
  lemma AmbiguousIsValid(crc: bytes -> nat)
    requires crc(Covered()) < TWO32
    ensures var b := Ambiguous(crc(Covered()));
            && |b| == 61 == Total(b) && Validate(b, crc).Valid?
            && Decode(b) == Some(TheCommit(crc(Covered())))
  {
    hide Ambiguous, Covered, Decode, PutU32, Get;
    Fields(crc(Covered()));
    Decodes(crc(Covered()));
    assert GetU32(PutU32(49)) == 49;
    assert GetU32(PutU32(crc(Covered()))) == crc(Covered());
  }

  // -------------------------------------------------------------- a long batch

  /** The length of a batch whose record fills the first 2^31 - 1 bytes of a log. */
  const LONG: nat := 0x7fff_fffb

  function LongBatch(sum: nat): (b: bytes)
    ensures |b| == LONG
  {
    PutU32(0xFFFF_FFFF) + Nulls(4) + PutU32(LONG - 12) + Nulls(4) + [2] + PutU32(sum) + Nulls(LONG - 21)
  }

  lemma LongFields(sum: nat)
    ensures var b := LongBatch(sum);
            && b[..4] == PutU32(0xFFFF_FFFF) && b[LENGTH..12] == PutU32(LONG - 12) && b[MAGIC] == 2
            && b[CRC..21] == PutU32(sum) && b[CRC_BODY..LONG] == Nulls(LONG - 21)
  {
    hide PutU32, Nulls;
  }

  /** For every 32-bit checksum there is such a batch that the broker accepts and no replay takes for a commit. */
  lemma LongIsValid(crc: bytes -> nat)
    requires crc(Nulls(LONG - 21)) < TWO32
    ensures var b := LongBatch(crc(Nulls(LONG - 21)));
            Validate(b, crc).Valid? && Decode(b) == None
  {
    hide LongBatch, Nulls, PutU32, Get, DecodeKey;
    var sum := crc(Nulls(LONG - 21));
    LongFields(sum);
    assert GetU32(PutU32(LONG - 12)) == LONG - 12;
    assert GetU32(PutU32(sum)) == sum;
    assert GetU32(PutU32(0xFFFF_FFFF)) == 0xFFFF_FFFF;
  }
}
