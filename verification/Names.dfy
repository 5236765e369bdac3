/** The names the broker gives to files and partition directories, and how it reads them back. */
module Names {
  import opened Bytes
  import opened Outcomes

  const NEWLINE: byte := 10
  const DASH: byte := 45
  const SLASH: byte := 47
  const ZERO: byte := 48

  /** The digits of `n` in base ten, as %d prints them. */
  function Digits(n: nat): (s: bytes)
    ensures s != [] && AllDigits(s)
  {
    if n < 10 then [ZERO + n] else Digits(n / 10) + [ZERO + n % 10]
  }

  /** What %d prints for a signed number. */
  function Decimal(i: int): bytes {
    if i < 0 then [DASH] + Digits(-i) else Digits(i)
  }

  predicate AllDigits(s: bytes) {
    forall i :: 0 <= i < |s| ==> ZERO <= s[i] < ZERO + 10
  }

  function Value(s: bytes): nat
    requires AllDigits(s)
  {
    if s == [] then 0 else 10 * Value(s[..|s| - 1]) + (s[|s| - 1] - ZERO)
  }

  lemma {:induction false} ValueOfDigits(n: nat)
    ensures Value(Digits(n)) == n
  {
    if n >= 10 {
      ValueOfDigits(n / 10);
      assert Digits(n)[..|Digits(n)| - 1] == Digits(n / 10);
    } else {
      assert Value([]) == 0;
    }
  }

  // ---------------------------------------------------------- segment files

  function Zeros(n: nat): (s: bytes)
    ensures |s| == n && AllDigits(s)
  {
    if n == 0 then [] else Zeros(n - 1) + [ZERO]
  }

  /** What %020d prints. */
  function Padded(n: nat): (s: bytes)
    ensures AllDigits(s)
  {
    var d := Digits(n);
    (if |d| < 20 then Zeros(20 - |d|) else []) + d
  }

  lemma {:induction false} LeadingZeros(k: nat, d: bytes)
    requires AllDigits(d)
    ensures Value(Zeros(k) + d) == Value(d)
  {
    if d != [] {
      LeadingZeros(k, d[..|d| - 1]);
      assert (Zeros(k) + d)[..k + |d| - 1] == Zeros(k) + d[..|d| - 1];
    } else {
      assert Zeros(k) + d == Zeros(k);
      ValueOfZeros(k);
    }
  }

  lemma {:induction false} ValueOfZeros(k: nat)
    ensures Value(Zeros(k)) == 0
  {
    if k > 0 {
      ValueOfZeros(k - 1);
    }
  }

  lemma PaddedInjective(a: nat, b: nat)
    requires Padded(a) == Padded(b)
    ensures a == b
  {
    PaddedValue(a);
    PaddedValue(b);
  }

  lemma PaddedValue(n: nat)
    ensures Value(Padded(n)) == n
  {
    ValueOfDigits(n);
    LeadingZeros(if |Digits(n)| < 20 then 20 - |Digits(n)| else 0, Digits(n));
    assert Zeros(0) + Digits(n) == Digits(n) == [] + Digits(n);
  }

  /** Ten to the power `k`. */
  function Ten(k: nat): nat {
    if k == 0 then 1 else 10 * Ten(k - 1)
  }

  lemma {:induction false} DigitsWidth(n: nat, k: nat)
    requires 0 < k && n < Ten(k)
    ensures |Digits(n)| <= k
    decreases k
  {
    if n >= 10 {
      DigitsWidth(n / 10, k - 1);
    }
  }

  /** Every base offset a broker can reach is printed in twenty digits. */
  lemma PaddedWidth(n: nat)
    requires n < TWO64
    ensures |Padded(n)| == 20
  {
    hide Digits;
    assert Ten(10) == 10_000_000_000 by { assert Ten(5) == 100_000; }
    assert Ten(20) == 100_000_000_000_000_000_000 by { assert Ten(15) == 1_000_000_000_000_000; }
    DigitsWidth(n, 20);
  }

  const LOG: bytes := [46, 108, 111, 103]
  const INDEX: bytes := [46, 105, 110, 100, 101, 120]

  function LogName(base: nat): bytes { Padded(base) + LOG }
  function IndexName(base: nat): bytes { Padded(base) + INDEX }

  predicate HasSuffix(s: bytes, suffix: bytes) {
    |s| >= |suffix| && s[|s| - |suffix|..] == suffix
  }

  function TrimSuffix(s: bytes, suffix: bytes): bytes {
    if HasSuffix(s, suffix) then s[..|s| - |suffix|] else s
  }

  /** The files of two segments never share a name, and a log's stem names its own index. */
  lemma FileNames(a: nat, b: nat)
    ensures LogName(a) == LogName(b) <==> a == b
    ensures IndexName(a) == IndexName(b) <==> a == b
    ensures HasSuffix(LogName(a), LOG)
    ensures !HasSuffix(IndexName(a), LOG)
    ensures TrimSuffix(LogName(a), LOG) + INDEX == IndexName(a)
  {
    hide Padded;
    var x, y := Padded(a), Padded(b);
    assert LogName(a)[..|LogName(a)| - 4] == x && LogName(b)[..|LogName(b)| - 4] == y;
    assert IndexName(a)[..|IndexName(a)| - 6] == x && IndexName(b)[..|IndexName(b)| - 6] == y;
    if x == y {
      PaddedInjective(a, b);
    }
    assert LogName(a)[|LogName(a)| - 4..] == LOG;
    assert IndexName(a)[|IndexName(a)| - 4..][3] == 120;
  }

  // --------------------------------------------------- partition directories

  datatype TopicPartition = TopicPartition(topic: bytes, partition: int32)

  /** "<topic>-<partition>". */
  function PartitionKey(tp: TopicPartition): bytes {
    tp.topic + [DASH] + Decimal(tp.partition)
  }

  /** The position of the last hyphen, or -1. */
  function LastDash(s: bytes): (d: int)
    ensures -1 <= d < |s|
    ensures d >= 0 ==> s[d] == DASH
    ensures forall i :: d < i < |s| ==> s[i] != DASH
  {
    if s == [] then -1
    else if s[|s| - 1] == DASH then |s| - 1
    else LastDash(s[..|s| - 1])
  }

  /** `name` has the shape ^(.+)-(\\d+)$ with these two groups. */
  ghost predicate Shape(name: bytes, topic: bytes, digits: bytes) {
    && name == topic + [DASH] + digits
    && topic != [] && NEWLINE !in topic
    && digits != [] && AllDigits(digits)
  }

  /** The directory-name match: the groups before and after the last hyphen. */
  function Match(name: bytes): (r: Option<(bytes, bytes)>) {
    var d := LastDash(name);
    if d >= 1 && NEWLINE !in name[..d] && d + 1 < |name| && AllDigits(name[d + 1..])
    then Some((name[..d], name[d + 1..]))
    else None
  }

  /** The match finds exactly the groups of the shape, and there is only one way to have them. */
  lemma MatchIsShape(name: bytes, topic: bytes, digits: bytes)
    ensures Match(name) == Some((topic, digits)) <==> Shape(name, topic, digits)
  {
    var d := LastDash(name);
    if Shape(name, topic, digits) {
      assert name[|topic|] == DASH;
      assert forall i :: |topic| < i < |name| ==> name[i] == digits[i - |topic| - 1];
      assert d == |topic|;
      assert name[..d] == topic && name[d + 1..] == digits;
    }
  }

  /** The topic-partition a directory name stands for; a number beyond int32 is skipped. */
  function Parse(name: bytes): Option<TopicPartition> {
    match Match(name)
    case None => None
    case Some(g) =>
      if AllDigits(g.1) && Value(g.1) < TWO31 then Some(TopicPartition(g.0, Value(g.1))) else None
  }

  /** The topic-partitions whose directory name can be read back. */
  ghost predicate WellNamed(tp: TopicPartition) {
    tp.topic != [] && NEWLINE !in tp.topic && tp.partition >= 0
  }

  /**
   * Splitting the printed name gives back the topic and the partition exactly for
   * non-empty topics without a newline and non-negative partitions, whatever
   * hyphens and digits the topic contains.
   */
  lemma NameRoundTrip(tp: TopicPartition)
    ensures Parse(PartitionKey(tp)) == Some(tp) <==> WellNamed(tp)
  {
    hide Digits, LastDash, Value;
    var t, p := tp.topic, tp.partition;
    if WellNamed(tp) {
      MatchIsShape(PartitionKey(tp), t, Digits(p));
      ValueOfDigits(p);
    } else if Match(PartitionKey(tp)).Some? {
      var g := Match(PartitionKey(tp)).value;
      MatchIsShape(PartitionKey(tp), g.0, g.1);
      if p < 0 {
        NegativeKey(tp, g.0, g.1);
      }
    }
  }

  lemma NegativeKey(tp: TopicPartition, topic: bytes, digits: bytes)
    requires tp.partition < 0 && Shape(PartitionKey(tp), topic, digits)
    ensures topic == tp.topic + [DASH]
  {
    hide Digits;
    var p: int := tp.partition;
    var d := Digits(-p);
    var k, n := PartitionKey(tp), |tp.topic|;
    assert k == (tp.topic + [DASH]) + [DASH] + d;
    assert k[n + 1] == DASH;
    assert forall i :: n + 1 < i < |k| ==> k[i] == d[i - n - 2];
    assert k[|topic|] == DASH;
    assert forall i :: |topic| < i < |k| ==> k[i] == digits[i - |topic| - 1];
    assert |topic| == n + 1;
    assert k[..n + 1] == topic;
    assert k[..n + 1] == tp.topic + [DASH];
  }

  /** Distinct well-named partitions have distinct keys. */
  lemma KeysInjective(a: TopicPartition, b: TopicPartition)
    requires WellNamed(a) && WellNamed(b) && PartitionKey(a) == PartitionKey(b)
    ensures a == b
  {
    hide *;
    NameRoundTrip(a);
    NameRoundTrip(b);
  }
}
