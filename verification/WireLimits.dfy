/** What the parsers do with the array counts they are sent. */
module WireLimits {
  import opened Bytes
  import opened Seqs
  import opened Messages
  import opened Wire
  import opened Requests

  /** A checked array is read back if and only if it has at most 1024 elements; an unchecked one always is. */
  lemma CountedBack<T(!new)>(p: Reader<T>, e: T -> bytes, xs: seq<T>, rest: bytes)
    requires |xs| < TWO31 && forall i :: 0 <= i < |xs| ==> ReadsBack(p, e, xs[i])
    ensures ReadArray(Checked, p, EncArray(e, xs) + rest) == if |xs| <= 1024 then Got(xs, rest) else Failed
    ensures ReadArray(Unchecked, p, EncArray(e, xs) + rest) == Got(xs, rest)
  {
    hide PutU32, ReadInt32, Many, EncAll, ReadsBack;
    ArrayBack(Unchecked, p, e, xs, rest);
    if |xs| <= 1024 {
      ArrayBack(Checked, p, e, xs, rest);
    } else {
      Assoc(PutU32(|xs|), EncAll(e, xs), rest);
      Int32Back(|xs|, EncAll(e, xs) + rest);
    }
  }

  lemma CountFails<T>(p: Reader<T>, n: int32, rest: bytes)
    ensures n < 0 || n > 1024 ==> ReadArray(Checked, p, PutU32(n) + rest) == Failed
    ensures n < 0 ==> ReadArray(Unchecked, p, PutU32(n) + rest) == Panicked
  {
    hide PutU32, ReadInt32, Many;
    Int32Back(n, rest);
  }

  /** The same for the partitions of the first topic. */
  lemma PartCountFails<P>(p: Reader<P>, name: bytes, topics: int32, n: int32, rest: bytes)
    requires StrOk(name) && 0 < topics <= 1024
    ensures n < 0 || n > 1024 ==>
              ReadTopics(Checked, p, PutU32(topics) + (EncStr(name) + (PutU32(n) + rest))) == Failed
    ensures n < 0 ==> ReadTopics(Unchecked, p, PutU32(topics) + (EncStr(name) + (PutU32(n) + rest))) == Panicked
  {
    hide PutU32, ReadInt32, ReadString, EncStr;
    Int32Back(topics, EncStr(name) + (PutU32(n) + rest));
    StringBack(name, PutU32(n) + rest);
    CountFails(p, n, rest);
  }

  /** Produce and list-offsets refuse a topic count outside 0..1024. */
  lemma CheckedRequests(version: int16, u: Unseen, acks: int16, timeout: int32, replica: int32, n: int32, rest: bytes)
    requires StrOk(u.txn) && (n < 0 || n > 1024)
    ensures ReadBody(0, version, (if version >= 3 then EncNullable(u.txn, u.asNull) else [])
                                 + (PutU16(acks) + (PutU32(timeout) + (PutU32(n) + rest)))) == Failed
    ensures ReadBody(2, version, PutU32(replica) + (PutU32(n) + rest)) == Failed
  {
    hide PutU16, PutU32, ReadInt16, ReadInt32, ReadString, EncNullable, ReadArray, ReadProducePart, ReadListPart,
        TopicReader;
    PrimitivesBack();
    var tail := PutU16(acks) + (PutU32(timeout) + (PutU32(n) + rest));
    assert [] + tail == tail;
    CountFails(TopicReader(Checked, ReadProducePart), n, rest);
    CountFails(TopicReader(Checked, ReadListPart), n, rest);
  }

  /** Every other request with a count panics on a negative one. */
  lemma UncheckedRequests(version: int16, group: bytes, member: bytes, kind: bytes, a: int32, b: int32, c: int32,
      d: int32, flag: int8, retention: int64, n: int32, rest: bytes)
    requires StrOk(group) && StrOk(member) && StrOk(kind) && n < 0
    ensures ReadBody(1, version, PutU32(a) + (PutU32(b) + (PutU32(c) + (PutU32(d) + (PutU8(flag)
                                 + (PutU32(n) + rest)))))) == Panicked
    ensures ReadBody(3, version, PutU32(n) + rest) == Panicked
    ensures ReadBody(8, version, EncStr(group) + (PutU32(a) + (EncStr(member) + (PutU64(retention)
                                 + (PutU32(n) + rest))))) == Panicked
    ensures ReadBody(9, version, EncStr(group) + (PutU32(n) + rest)) == Panicked
    ensures ReadBody(11, version, EncStr(group) + (PutU32(a) + (PutU32(b) + (EncStr(member) + (EncStr(kind)
                                  + (PutU32(n) + rest)))))) == Panicked
    ensures ReadBody(14, version, EncStr(group) + (PutU32(a) + (EncStr(member) + (PutU32(n) + rest)))) == Panicked
  {
    hide PutU8, PutU16, PutU32, PutU64, ReadInt8, ReadInt16, ReadInt32, ReadInt64, ReadString, EncStr, EncNullable,
        ReadArray, ReadFetchPart, ReadCommitPart, ReadNamed, TopicReader;
    PrimitivesBack();
    CountFails(TopicReader(Unchecked, ReadFetchPart), n, rest);
    CountFails(ReadString, n, rest);
    CountFails(TopicReader(Unchecked, ReadCommitPart), n, rest);
    CountFails(TopicReader(Unchecked, ReadInt32), n, rest);
    CountFails(ReadNamed, n, rest);
  }
}
