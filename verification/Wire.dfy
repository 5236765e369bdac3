/** Reading Kafka's wire format from a byte stream, field by field. */
module Wire {
  import opened Bytes
  import opened Messages
  import opened Seqs

  /**
   * A read off the front of a stream: a value and what follows it, an error, or a Go
   * panic (an allocation with a negative count).
   */
  datatype Parsed<+T> = Got(value: T, rest: bytes) | Failed | Panicked {
    predicate IsFailure() {
      !Got?
    }

    function PropagateFailure<U>(): Parsed<U>
      requires IsFailure()
    {
      if Failed? then Failed else Panicked
    }

    function Extract(): (T, bytes)
      requires Got?
    {
      (value, rest)
    }
  }

  type Reader<T> = bytes -> Parsed<T>

  // --------------------------------------------------------------- primitives

  function ReadInt8(s: bytes): Parsed<int8> {
    if |s| < 1 then Failed else Got(ToInt8(Get(s[..1])), s[1..])
  }

  function ReadInt16(s: bytes): Parsed<int16> {
    if |s| < 2 then Failed else Got(ToInt16(GetU16(s[..2])), s[2..])
  }

  function ReadInt32(s: bytes): Parsed<int32> {
    if |s| < 4 then Failed else Got(ToInt32(GetU32(s[..4])), s[4..])
  }

  function ReadInt64(s: bytes): Parsed<int64> {
    if |s| < 8 then Failed else Got(ToInt64(GetU64(s[..8])), s[8..])
  }

  /** Nothing is read for a count of zero or less. */
  function ReadBytes(n: int, s: bytes): Parsed<bytes> {
    if n <= 0 then Got([], s)
    else if |s| < n then Failed
    else Got(s[..n], s[n..])
  }

  function ReadString(s: bytes): Parsed<bytes> {
    var (n, s1) :- ReadInt16(s);
    ReadBytes(n, s1)
  }

  /** Bytes behind a 32-bit length; a null or empty length reads as no bytes. */
  function ReadBytes32(s: bytes): Parsed<bytes> {
    var (n, s1) :- ReadInt32(s);
    ReadBytes(n, s1)
  }

  /** How a parser treats an array count it has read. */
  datatype Policy = Checked | Unchecked

  const MAX_COUNT: int := 1024

  /** A checked count must lie in 0..1024; an unchecked negative one panics the allocation. */
  function ReadCount(policy: Policy, s: bytes): Parsed<int32> {
    var (n, s1) :- ReadInt32(s);
    if policy.Checked? && (n < 0 || n > MAX_COUNT) then Failed
    else if n < 0 then Panicked
    else Got(n, s1)
  }

  /** `n` more elements after those in `acc`. */
  function Many<T>(n: int, p: Reader<T>, acc: seq<T>, s: bytes): Parsed<seq<T>>
    decreases n
  {
    if n <= 0 then Got(acc, s)
    else
      var (x, s1) :- p(s);
      Many(n - 1, p, acc + [x], s1)
  }

  function ReadArray<T>(policy: Policy, p: Reader<T>, s: bytes): Parsed<seq<T>> {
    var (n, s1) :- ReadCount(policy, s);
    Many(n, p, [], s1)
  }

  function ReadTopic<P>(policy: Policy, p: Reader<P>, s: bytes): Parsed<Topic<P>> {
    var (name, s1) :- ReadString(s);
    var (parts, s2) :- ReadArray(policy, p, s1);
    Got(Topic(name, parts), s2)
  }

  function TopicReader<P>(policy: Policy, p: Reader<P>): Reader<Topic<P>> {
    (s: bytes) => ReadTopic(policy, p, s)
  }

  function ReadTopics<P>(policy: Policy, p: Reader<P>, s: bytes): Parsed<seq<Topic<P>>> {
    ReadArray(policy, TopicReader(policy, p), s)
  }

  // ---------------------------------------------------------- wire encodings

  function EncStr(s: bytes): bytes { PutU16(|s|) + s }

  /** An empty nullable string may be written as null, length -1. */
  function EncNullable(s: bytes, asNull: bool): bytes {
    if asNull && s == [] then PutU16(-1) else EncStr(s)
  }

  function EncBytes32(s: bytes): bytes { PutU32(|s|) + s }

  function EncAll<T>(e: T -> bytes, xs: seq<T>): bytes {
    if xs == [] then [] else e(xs[0]) + EncAll(e, xs[1..])
  }

  function EncArray<T>(e: T -> bytes, xs: seq<T>): bytes {
    PutU32(|xs|) + EncAll(e, xs)
  }

  function EncTopic<P>(e: P -> bytes, t: Topic<P>): bytes {
    EncStr(t.name) + EncArray(e, t.parts)
  }

  function TopicWriter<P>(e: P -> bytes): Topic<P> -> bytes {
    (t: Topic<P>) => EncTopic(e, t)
  }

  function EncTopics<P>(e: P -> bytes, ts: seq<Topic<P>>): bytes {
    EncArray(TopicWriter(e), ts)
  }

  predicate StrOk(s: bytes) { |s| < 0x8000 }

  predicate CountOk<T>(policy: Policy, xs: seq<T>) {
    if policy.Checked? then |xs| <= MAX_COUNT else |xs| < TWO31
  }

  // --------------------------------------------------------------- round trips

  /** `p` reads back what `e` writes for `x`, and leaves whatever follows. */
  ghost predicate ReadsBack<T(!new)>(p: Reader<T>, e: T -> bytes, x: T) {
    forall rest :: p(e(x) + rest) == Got(x, rest)
  }

  lemma Int8Back(i: int8, rest: bytes)
    ensures ReadInt8(PutU8(i) + rest) == Got(i, rest)
  {
    hide PutU8, Get;
    var s := PutU8(i) + rest;
    assert s[..1] == PutU8(i) && s[1..] == rest;
    Int8RoundTrip(i);
  }

  lemma Int16Back(i: int16, rest: bytes)
    ensures ReadInt16(PutU16(i) + rest) == Got(i, rest)
  {
    hide PutU16, GetU16;
    var s := PutU16(i) + rest;
    assert s[..2] == PutU16(i) && s[2..] == rest;
    Int16RoundTrip(i);
  }

  lemma Int32Back(i: int32, rest: bytes)
    ensures ReadInt32(PutU32(i) + rest) == Got(i, rest)
  {
    hide PutU32, GetU32;
    var s := PutU32(i) + rest;
    assert s[..4] == PutU32(i) && s[4..] == rest;
    Int32RoundTrip(i);
  }

  lemma Int64Back(i: int64, rest: bytes)
    ensures ReadInt64(PutU64(i) + rest) == Got(i, rest)
  {
    hide PutU64, GetU64;
    var s := PutU64(i) + rest;
    assert s[..8] == PutU64(i) && s[8..] == rest;
    Int64RoundTrip(i);
  }

  lemma StringBack(v: bytes, rest: bytes)
    requires StrOk(v)
    ensures ReadString(EncStr(v) + rest) == Got(v, rest)
  {
    hide PutU16, ReadInt16;
    Assoc(PutU16(|v|), v, rest);
    Int16Back(|v|, v + rest);
    assert (v + rest)[..|v|] == v && (v + rest)[|v|..] == rest;
  }

  lemma NullableBack(v: bytes, asNull: bool, rest: bytes)
    requires StrOk(v)
    ensures ReadString(EncNullable(v, asNull) + rest) == Got(v, rest)
  {
    hide PutU16, ReadInt16;
    if asNull && v == [] {
      Int16Back(-1, rest);
    } else {
      StringBack(v, rest);
    }
  }

  lemma Bytes32Back(v: bytes, rest: bytes)
    requires |v| < TWO31
    ensures ReadBytes32(EncBytes32(v) + rest) == Got(v, rest)
  {
    hide PutU32, ReadInt32;
    Assoc(PutU32(|v|), v, rest);
    Int32Back(|v|, v + rest);
    assert (v + rest)[..|v|] == v && (v + rest)[|v|..] == rest;
  }

  lemma {:induction false} ManyBack<T(!new)>(p: Reader<T>, e: T -> bytes, xs: seq<T>, acc: seq<T>, rest: bytes)
    requires forall i :: 0 <= i < |xs| ==> ReadsBack(p, e, xs[i])
    ensures Many(|xs|, p, acc, EncAll(e, xs) + rest) == Got(acc + xs, rest)
    decreases |xs|
  {
    if xs == [] {
      assert EncAll(e, xs) + rest == rest;
      assert acc + xs == acc;
    } else {
      var x, more := xs[0], xs[1..];
      Assoc(e(x), EncAll(e, more), rest);
      assert ReadsBack(p, e, x);
      ManyBack(p, e, more, acc + [x], rest);
      assert acc + [x] + more == acc + xs;
    }
  }

  lemma ArrayBack<T(!new)>(policy: Policy, p: Reader<T>, e: T -> bytes, xs: seq<T>, rest: bytes)
    requires CountOk(policy, xs) && forall i :: 0 <= i < |xs| ==> ReadsBack(p, e, xs[i])
    ensures ReadArray(policy, p, EncArray(e, xs) + rest) == Got(xs, rest)
  {
    hide PutU32, ReadInt32, Many, EncAll;
    Assoc(PutU32(|xs|), EncAll(e, xs), rest);
    Int32Back(|xs|, EncAll(e, xs) + rest);
    ManyBack(p, e, xs, [], rest);
    assert [] + xs == xs;
  }

  ghost predicate TopicOk<P(!new)>(policy: Policy, p: Reader<P>, e: P -> bytes, t: Topic<P>) {
    StrOk(t.name) && CountOk(policy, t.parts) && forall j :: 0 <= j < |t.parts| ==> ReadsBack(p, e, t.parts[j])
  }

  lemma TopicBack<P(!new)>(policy: Policy, p: Reader<P>, e: P -> bytes, t: Topic<P>)
    requires TopicOk(policy, p, e, t)
    ensures ReadsBack(TopicReader(policy, p), TopicWriter(e), t)
  {
    hide ReadString, EncStr, ReadArray, EncArray;
    forall rest
      ensures ReadTopic(policy, p, EncTopic(e, t) + rest) == Got(t, rest)
    {
      Assoc(EncStr(t.name), EncArray(e, t.parts), rest);
      StringBack(t.name, EncArray(e, t.parts) + rest);
      ArrayBack(policy, p, e, t.parts, rest);
    }
  }

  lemma TopicsBack<P(!new)>(policy: Policy, p: Reader<P>, e: P -> bytes, ts: seq<Topic<P>>, rest: bytes)
    requires CountOk(policy, ts) && forall i :: 0 <= i < |ts| ==> TopicOk(policy, p, e, ts[i])
    ensures ReadTopics(policy, p, EncTopics(e, ts) + rest) == Got(ts, rest)
  {
    hide ReadArray, EncArray, TopicOk, TopicReader, TopicWriter;
    forall i | 0 <= i < |ts|
      ensures ReadsBack(TopicReader(policy, p), TopicWriter(e), ts[i])
    {
      TopicBack(policy, p, e, ts[i]);
    }
    ArrayBack(policy, TopicReader(policy, p), TopicWriter(e), ts, rest);
  }

  // -------------------------------------------------------- prefix stability

  /** A read that succeeded, or panicked, ends the same way with `u` behind its bytes. */
  ghost predicate Keeps<T>(before: Parsed<T>, after: Parsed<T>, u: bytes) {
    match before
    case Got(v, rest) => after == Got(v, rest + u)
    case Failed => true
    case Panicked => after == Panicked
  }

  /** A read that ran to an end is not changed by bytes that arrive after it. */
  ghost predicate StableAt<T(!new)>(p: Reader<T>, s: bytes, u: bytes) {
    Keeps(p(s), p(s + u), u)
  }

  ghost predicate Stable<T(!new)>(p: Reader<T>) {
    forall s, u :: StableAt(p, s, u)
  }

  lemma IntsStable(s: bytes, u: bytes)
    ensures StableAt(ReadInt8, s, u) && StableAt(ReadInt16, s, u)
    ensures StableAt(ReadInt32, s, u) && StableAt(ReadInt64, s, u)
  {
    hide Get, GetU16, GetU32, GetU64;
    Prefix(s, u, 1);
    Prefix(s, u, 2);
    Prefix(s, u, 4);
    Prefix(s, u, 8);
  }

  lemma Prefix(s: bytes, u: bytes, n: nat)
    ensures n <= |s| ==> (s + u)[..n] == s[..n] && (s + u)[n..] == s[n..] + u
  {
  }

  lemma BytesStable(n: int, s: bytes, u: bytes)
    ensures Keeps(ReadBytes(n, s), ReadBytes(n, s + u), u)
  {
    if n > 0 {
      Prefix(s, u, n);
    }
  }

  lemma StringStable(s: bytes, u: bytes)
    ensures StableAt(ReadString, s, u)
  {
    hide ReadInt16, ReadBytes, ReadInt8, ReadInt32, ReadInt64;
    IntsStable(s, u);
    if ReadInt16(s).Got? {
      BytesStable(ReadInt16(s).value, ReadInt16(s).rest, u);
    }
  }

  lemma Bytes32Stable(s: bytes, u: bytes)
    ensures StableAt(ReadBytes32, s, u)
  {
    hide ReadInt16, ReadBytes, ReadInt8, ReadInt32, ReadInt64;
    IntsStable(s, u);
    if ReadInt32(s).Got? {
      BytesStable(ReadInt32(s).value, ReadInt32(s).rest, u);
    }
  }

  lemma {:induction false} ManyStable<T(!new)>(n: int, p: Reader<T>, acc: seq<T>, s: bytes, u: bytes)
    requires Stable(p)
    ensures Keeps(Many(n, p, acc, s), Many(n, p, acc, s + u), u)
    decreases n
  {
    if n > 0 {
      assert StableAt(p, s, u);
      if p(s).Got? {
        ManyStable(n - 1, p, acc + [p(s).value], p(s).rest, u);
      }
    }
  }

  lemma ArrayStable<T(!new)>(policy: Policy, p: Reader<T>, s: bytes, u: bytes)
    requires Stable(p)
    ensures Keeps(ReadArray(policy, p, s), ReadArray(policy, p, s + u), u)
  {
    hide ReadInt16, ReadInt8, ReadInt32, ReadInt64, Many;
    IntsStable(s, u);
    if ReadCount(policy, s).Got? {
      ManyStable(ReadCount(policy, s).value, p, [], ReadCount(policy, s).rest, u);
    }
  }

  lemma TopicStable<P(!new)>(policy: Policy, p: Reader<P>)
    requires Stable(p)
    ensures Stable(TopicReader(policy, p))
  {
    hide ReadString, ReadArray;
    forall s, u
      ensures StableAt(TopicReader(policy, p), s, u)
    {
      StringStable(s, u);
      if ReadString(s).Got? {
        ArrayStable(policy, p, ReadString(s).rest, u);
      }
    }
  }

  lemma TopicsStable<P(!new)>(policy: Policy, p: Reader<P>, s: bytes, u: bytes)
    requires Stable(p)
    ensures Keeps(ReadTopics(policy, p, s), ReadTopics(policy, p, s + u), u)
  {
    hide ReadArray, TopicReader;
    TopicStable(policy, p);
    ArrayStable(policy, TopicReader(policy, p), s, u);
  }

  // ----------------------------------- the same facts for whole-parser proofs

  lemma PrimitivesBack()
    ensures forall i: int8, rest: bytes {:trigger PutU8(i) + rest} :: ReadInt8(PutU8(i) + rest) == Got(i, rest)
    ensures forall i: int16, rest: bytes {:trigger PutU16(i) + rest} :: ReadInt16(PutU16(i) + rest) == Got(i, rest)
    ensures forall i: int32, rest: bytes {:trigger PutU32(i) + rest} :: ReadInt32(PutU32(i) + rest) == Got(i, rest)
    ensures forall i: int64, rest: bytes {:trigger PutU64(i) + rest} :: ReadInt64(PutU64(i) + rest) == Got(i, rest)
    ensures forall v: bytes, rest: bytes {:trigger EncStr(v) + rest} :: StrOk(v) ==>
              ReadString(EncStr(v) + rest) == Got(v, rest)
    ensures forall v: bytes, n: bool, rest: bytes {:trigger EncNullable(v, n) + rest} ::
              StrOk(v) ==> ReadString(EncNullable(v, n) + rest) == Got(v, rest)
    ensures forall v: bytes, rest: bytes {:trigger EncBytes32(v) + rest} ::
              |v| < TWO31 ==> ReadBytes32(EncBytes32(v) + rest) == Got(v, rest)
    ensures forall a: bytes, b: bytes, c: bytes {:trigger a + b + c} :: a + b + c == a + (b + c)
  {
    hide *;
    forall i: int8, rest: bytes ensures ReadInt8(PutU8(i) + rest) == Got(i, rest) { Int8Back(i, rest); }
    forall i: int16, rest: bytes ensures ReadInt16(PutU16(i) + rest) == Got(i, rest) { Int16Back(i, rest); }
    forall i: int32, rest: bytes ensures ReadInt32(PutU32(i) + rest) == Got(i, rest) { Int32Back(i, rest); }
    forall i: int64, rest: bytes ensures ReadInt64(PutU64(i) + rest) == Got(i, rest) { Int64Back(i, rest); }
    forall v: bytes, rest: bytes | StrOk(v) ensures ReadString(EncStr(v) + rest) == Got(v, rest)
        { StringBack(v, rest); }
    forall v: bytes, n: bool, rest: bytes | StrOk(v) ensures ReadString(EncNullable(v, n) + rest) == Got(v, rest)
        { NullableBack(v, n, rest); }
    forall v: bytes, rest: bytes | |v| < TWO31 ensures ReadBytes32(EncBytes32(v) + rest) == Got(v, rest)
        { Bytes32Back(v, rest); }
    forall a: bytes, b: bytes, c: bytes ensures a + b + c == a + (b + c) { Assoc(a, b, c); }
  }

  lemma PrimitivesStable()
    ensures forall s: bytes, u: bytes {:trigger ReadInt8(s), s + u} :: StableAt(ReadInt8, s, u)
    ensures forall s: bytes, u: bytes {:trigger ReadInt16(s), s + u} :: StableAt(ReadInt16, s, u)
    ensures forall s: bytes, u: bytes {:trigger ReadInt32(s), s + u} :: StableAt(ReadInt32, s, u)
    ensures forall s: bytes, u: bytes {:trigger ReadInt64(s), s + u} :: StableAt(ReadInt64, s, u)
    ensures forall s: bytes, u: bytes {:trigger ReadString(s), s + u} :: StableAt(ReadString, s, u)
    ensures forall s: bytes, u: bytes {:trigger ReadBytes32(s), s + u} :: StableAt(ReadBytes32, s, u)
    ensures forall n: int, s: bytes, u: bytes {:trigger ReadBytes(n, s), s + u} ::
              Keeps(ReadBytes(n, s), ReadBytes(n, s + u), u)
  {
    hide *;
    forall s: bytes, u: bytes
      ensures StableAt(ReadInt8, s, u) && StableAt(ReadInt16, s, u) && StableAt(ReadInt32, s, u)
                && StableAt(ReadInt64, s, u)
      ensures StableAt(ReadString, s, u) && StableAt(ReadBytes32, s, u)
    {
      IntsStable(s, u);
      StringStable(s, u);
      Bytes32Stable(s, u);
    }
    forall n: int, s: bytes, u: bytes
      ensures Keeps(ReadBytes(n, s), ReadBytes(n, s + u), u)
    {
      BytesStable(n, s, u);
    }
  }
}
