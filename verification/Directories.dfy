/** Where a partition is kept: the cleaned path of its key below the broker's root directory. */
module Directories {
  import opened Bytes
  import opened Outcomes
  import opened Seqs
  import opened Names

  /** An absolute path by its components, without empty, "." and ".." ones. */
  type Path = seq<bytes>

  const DOT: byte := 46

  /** The components of a slash-separated name; there is always at least one. */
  function Split(name: bytes): (r: seq<bytes>)
    ensures r != []
  {
    if name == [] then [[]]
    else
      var rest := Split(name[1..]);
      if name[0] == SLASH then [[]] + rest else Prefixed(name[0], rest)
  }

  /** The first component one byte longer. */
  function Prefixed(c: byte, comps: seq<bytes>): (r: seq<bytes>)
    requires comps != []
    ensures |r| == |comps|
  {
    [[c] + comps[0]] + comps[1..]
  }

  function Join(comps: seq<bytes>): bytes
    requires comps != []
  {
    if |comps| == 1 then comps[0] else comps[0] + [SLASH] + Join(comps[1..])
  }

  /** A component that cleaning keeps as it is. */
  predicate Kept(c: bytes) {
    c != [] && c != [DOT] && c != [DOT, DOT]
  }

  /** One component more on a cleaned path; ".." at the top stays at the top. */
  function Descend(at: Path, c: bytes): Path {
    if c == [] || c == [DOT] then at
    else if c == [DOT, DOT] then (if at == [] then [] else at[..|at| - 1])
    else at + [c]
  }

  /** The lexical cleaning of a joined path: component by component from the root. */
  function Cleaned(at: Path, comps: seq<bytes>): Path {
    if comps == [] then at else Descend(Cleaned(at, comps[..|comps| - 1]), comps[|comps| - 1])
  }

  function DirOf(root: Path, key: bytes): Path {
    Cleaned(root, Split(key))
  }

  /** Every component of the key survives cleaning. */
  predicate Canonical(key: bytes) {
    var cs := Split(key);
    forall i :: 0 <= i < |cs| ==> Kept(cs[i])
  }

  // --------------------------------------------------------- split and join

  lemma JoinPrefixed(c: byte, comps: seq<bytes>)
    requires comps != []
    ensures Join(Prefixed(c, comps)) == [c] + Join(comps)
  {
    var r := Prefixed(c, comps);
    assert r[1..] == comps[1..];
    if |comps| > 1 {
      var more := [SLASH] + Join(comps[1..]);
      assert Join(comps) == comps[0] + more;
      assert Join(r) == ([c] + comps[0]) + more;
    }
  }

  lemma JoinFresh(comps: seq<bytes>)
    requires comps != []
    ensures Join([[]] + comps) == [SLASH] + Join(comps)
  {
    assert ([[]] + comps)[1..] == comps;
  }

  lemma {:induction false} JoinSplit(name: bytes)
    ensures Join(Split(name)) == name
  {
    hide Join, Prefixed;
    if name == [] {
      JoinOne([]);
    } else {
      var rest := Split(name[1..]);
      JoinSplit(name[1..]);
      assert name == [name[0]] + name[1..];
      JoinFresh(rest);
      JoinPrefixed(name[0], rest);
    }
  }

  lemma JoinOne(c: bytes)
    ensures Join([c]) == c
  {
  }

  lemma {:induction false} SplitParts(name: bytes)
    ensures forall i :: 0 <= i < |Split(name)| ==> SLASH !in Split(name)[i]
  {
    if name != [] {
      SplitParts(name[1..]);
    }
  }

  lemma {:induction false} SplitWhole(name: bytes)
    requires SLASH !in name
    ensures Split(name) == [name]
  {
    if name != [] {
      SplitWhole(name[1..]);
      assert name == [name[0]] + name[1..];
    }
  }

  lemma {:induction false} SplitAfter(a: bytes, b: bytes)
    requires SLASH !in a
    ensures Split(a + [SLASH] + b) == [a] + Split(b)
  {
    var s := a + [SLASH] + b;
    if a == [] {
      assert s[1..] == b;
    } else {
      SplitAfter(a[1..], b);
      assert s[1..] == a[1..] + [SLASH] + b;
      assert [s[0]] + a[1..] == a;
    }
  }

  lemma {:induction false} SplitJoin(comps: seq<bytes>)
    requires comps != [] && forall i :: 0 <= i < |comps| ==> SLASH !in comps[i]
    ensures Split(Join(comps)) == comps
  {
    if |comps| == 1 {
      SplitWhole(comps[0]);
    } else {
      SplitJoin(comps[1..]);
      SplitAfter(comps[0], Join(comps[1..]));
      assert [comps[0]] + comps[1..] == comps;
    }
  }

  // ---------------------------------------------------------------- cleaning

  /** Cleaning adds no more components than it is given, and as many only if it keeps them all. */
  lemma {:induction false} CleanedLength(at: Path, comps: seq<bytes>)
    ensures |Cleaned(at, comps)| <= |at| + |comps|
    ensures |Cleaned(at, comps)| == |at| + |comps| <==> forall i :: 0 <= i < |comps| ==> Kept(comps[i])
    ensures (forall i :: 0 <= i < |comps| ==> Kept(comps[i])) ==> Cleaned(at, comps) == at + comps
  {
    if comps == [] {
      assert at + comps == at;
    } else {
      var n := |comps| - 1;
      CleanedLength(at, comps[..n]);
      assert comps == comps[..n] + [comps[n]];
      assert at + comps[..n] + [comps[n]] == at + comps;
    }
  }

  /** What lies below the first `n` components came out of a name, whole and free of slashes. */
  ghost predicate NamedBelow(d: Path, n: nat) {
    forall i :: n <= i < |d| ==> Kept(d[i]) && SLASH !in d[i]
  }

  lemma {:induction false} CleanedBelow(at: Path, comps: seq<bytes>)
    requires forall i :: 0 <= i < |comps| ==> SLASH !in comps[i]
    ensures NamedBelow(Cleaned(at, comps), |at|)
  {
    if comps != [] {
      CleanedBelow(at, comps[..|comps| - 1]);
    }
  }

  /**
   * A partition is kept in the directory its key spells below the root if and only if no
   * component of the key is empty, "." or "..".
   */
  lemma OwnDirIff(root: Path, key: bytes)
    ensures DirOf(root, key) == root + Split(key) <==> Canonical(key)
  {
    hide Split, Cleaned, Kept;
    CleanedLength(root, Split(key));
  }

  /** Two partitions with canonical keys never share a directory. */
  lemma DirsApart(root: Path, a: bytes, b: bytes)
    requires Canonical(a) && Canonical(b) && a != b
    ensures DirOf(root, a) != DirOf(root, b)
  {
    hide Split, Canonical, DirOf, Join;
    OwnDirIff(root, a);
    OwnDirIff(root, b);
    if DirOf(root, a) == DirOf(root, b) {
      assert Split(a) == (root + Split(a))[|root|..] == (root + Split(b))[|root|..] == Split(b);
      JoinSplit(a);
      JoinSplit(b);
      assert false;
    }
  }

  /** The key that spells the directory of `key` below the root. */
  function Spelled(root: Path, key: bytes): bytes
    requires |root| < |DirOf(root, key)|
  {
    Join(DirOf(root, key)[|root|..])
  }

  lemma SpelledIs(root: Path, key: bytes)
    requires root < DirOf(root, key)
    ensures Canonical(Spelled(root, key)) && DirOf(root, Spelled(root, key)) == DirOf(root, key)
    ensures Spelled(root, key) == key <==> Canonical(key)
  {
    hide Split, Cleaned, Join, Kept;
    var d := DirOf(root, key);
    var below := d[|root|..];
    SplitParts(key);
    CleanedBelow(root, Split(key));
    SplitJoin(below);
    OwnDirIff(root, Spelled(root, key));
    assert root + below == d;
    OwnDirIff(root, key);
    if Canonical(key) {
      assert below == Split(key);
      JoinSplit(key);
    }
  }

  /**
   * A partition kept below the root has its directory to itself, among canonical keys, if
   * and only if its own key is canonical: any other is kept where another key spells it.
   */
  lemma AloneIffCanonical(root: Path, key: bytes)
    requires root < DirOf(root, key)
    ensures (forall other :: Canonical(other) && other != key ==> DirOf(root, other) != DirOf(root, key))
            <==> Canonical(key)
  {
    hide Canonical, DirOf, Spelled;
    SpelledIs(root, key);
    if Canonical(key) {
      forall other | Canonical(other) && other != key
        ensures DirOf(root, other) != DirOf(root, key)
      {
        DirsApart(root, other, key);
      }
    }
  }

  // ------------------------------------------------------------ plain topics

  /** A topic-partition the broker can name, keep in a directory of the root, and find again. */
  ghost predicate Plain(tp: TopicPartition) {
    WellNamed(tp) && SLASH !in tp.topic
  }

  lemma DigitsHaveNoSlash(n: nat)
    ensures SLASH !in Digits(n)
  {
    assert AllDigits(Digits(n));
  }

  lemma KeyHasNoSlash(tp: TopicPartition)
    requires SLASH !in tp.topic
    ensures SLASH !in PartitionKey(tp)
  {
    hide Digits;
    var n: int := tp.partition;
    DigitsHaveNoSlash(if n < 0 then -n else n);
  }

  /** A topic with a slash put before it is another partition, kept in the same directory. */
  lemma SlashShares(root: Path, tp: TopicPartition)
    requires SLASH !in tp.topic
    ensures var slashed := TopicPartition([SLASH] + tp.topic, tp.partition);
            && PartitionKey(slashed) == [SLASH] + PartitionKey(tp) != PartitionKey(tp)
            && DirOf(root, PartitionKey(slashed)) == DirOf(root, PartitionKey(tp))
  {
    hide Decimal, Split, Cleaned;
    var key := PartitionKey(tp);
    assert ([SLASH] + tp.topic) + [DASH] + Decimal(tp.partition) == [SLASH] + key;
    KeyHasNoSlash(tp);
    SplitWhole(key);
    SplitAfter([], key);
    assert [] + [SLASH] + key == [SLASH] + key;
    CleanedEmpty(root, key);
  }

  /** So is one with "./" put before it, or a component and the ".." that takes it back. */
  lemma DotsShare(root: Path, tp: TopicPartition, c: bytes)
    requires SLASH !in tp.topic && SLASH !in c && Kept(c)
    ensures var key := PartitionKey(tp);
            && DirOf(root, [46] + [SLASH] + key) == DirOf(root, key)
            && DirOf(root, c + [SLASH] + ([46, 46] + [SLASH] + key)) == DirOf(root, key)
  {
    hide Decimal, Split, Cleaned, PartitionKey;
    var key := PartitionKey(tp);
    KeyHasNoSlash(tp);
    SplitWhole(key);
    SplitAfter([46], key);
    SplitAfter([46, 46], key);
    SplitAfter(c, [46, 46] + [SLASH] + key);
    CleanedDots(root, c, key);
    assert [c] + ([[46, 46]] + [key]) == [c, [46, 46], key] && [[46]] + [key] == [[46], key];
  }

  lemma CleanedDots(at: Path, c: bytes, key: bytes)
    requires Kept(c)
    ensures Cleaned(at, [[46], key]) == Cleaned(at, [key]) && Cleaned(at, [c, [46, 46], key]) == Cleaned(at, [key])
  {
    hide Cleaned;
    CleanedStep(at, [], key);
    CleanedStep(at, [[46]], key);
    CleanedStep(at, [], [46]);
    CleanedStep(at, [c, [46, 46]], key);
    CleanedStep(at, [c], [46, 46]);
    CleanedStep(at, [], c);
    assert Cleaned(at, []) == at by { CleanedNothing(at); }
    assert [[46]] + [key] == [[46], key] && [c, [46, 46]] + [key] == [c, [46, 46], key];
    assert [] + [key] == [key] && [] + [c] == [c] && [c] + [[46, 46]] == [c, [46, 46]];
    var dot: bytes := [46];
    assert [] + [dot] == [dot];
    assert (at + [c])[..|at|] == at;
  }

  lemma CleanedStep(at: Path, comps: seq<bytes>, c: bytes)
    ensures Cleaned(at, comps + [c]) == Descend(Cleaned(at, comps), c)
  {
    assert (comps + [c])[..|comps|] == comps;
  }

  lemma CleanedNothing(at: Path)
    ensures Cleaned(at, []) == at
  {
  }

  lemma CleanedEmpty(at: Path, c: bytes)
    ensures Cleaned(at, [[]] + [c]) == Cleaned(at, [c])
  {
    var empty: seq<bytes> := [[]];
    assert ([[]] + [c])[..1] == empty && empty[..0] == [] && [c][..0] == [];
    assert Cleaned(at, empty) == at;
  }

  /** The last component of a key holds the hyphen before the number, so it survives cleaning. */
  lemma KeyEnds(tp: TopicPartition)
    ensures Kept(Last(Split(PartitionKey(tp))))
  {
    hide Digits, Kept, Split;
    var n: int := tp.partition;
    DigitsHaveNoSlash(if n < 0 then -n else n);
    LastPart(tp.topic, [DASH] + Decimal(tp.partition));
    var last := Last(Split(tp.topic)) + ([DASH] + Decimal(tp.partition));
    assert tp.topic + ([DASH] + Decimal(tp.partition)) == PartitionKey(tp);
    assert DASH in last;
    HyphenKept(last);
  }

  lemma HyphenKept(c: bytes)
    requires DASH in c
    ensures Kept(c)
  {
  }

  /** A suffix without a slash goes to the last component. */
  lemma {:induction false} LastPart(a: bytes, b: bytes)
    requires SLASH !in b
    ensures |Split(a + b)| == |Split(a)| && Last(Split(a + b)) == Last(Split(a)) + b
  {
    hide Split, Last;
    if a == [] {
      assert a + b == b && [] + b == b;
      SplitWhole(a);
      SplitWhole(b);
      LastOne(a);
      LastOne(b);
    } else {
      LastPart(a[1..], b);
      assert (a + b)[1..] == a[1..] + b && (a + b)[0] == a[0];
      LastStep(a);
      LastStep(a + b);
      Assoc([a[0]], Last(Split(a[1..])), b);
    }
  }

  lemma LastOne(b: bytes)
    ensures Last([b]) == b
  {
  }

  lemma LastStep(a: bytes)
    requires a != []
    ensures var rest := Split(a[1..]);
            && |Split(a)| == |rest| + (if a[0] == SLASH then 1 else 0)
            && Last(Split(a)) == if a[0] == SLASH || |rest| > 1 then Last(rest) else [a[0]] + Last(rest)
  {
    hide Prefixed, Last;
    LastOfMore(a[0], Split(a[1..]));
  }

  lemma LastOfMore(c: byte, comps: seq<bytes>)
    requires comps != []
    ensures Last([[]] + comps) == Last(comps)
    ensures Last(Prefixed(c, comps)) == if |comps| > 1 then Last(comps) else [c] + Last(comps)
  {
  }

  function Last(cs: seq<bytes>): bytes
    requires cs != []
  {
    cs[|cs| - 1]
  }

  /** A plain partition is kept in a child of the root with its key for a name, which parses back. */
  lemma PlainDir(root: Path, tp: TopicPartition)
    requires Plain(tp)
    ensures Canonical(PartitionKey(tp)) && DirOf(root, PartitionKey(tp)) == root + [PartitionKey(tp)]
    ensures Parse(PartitionKey(tp)) == Some(tp)
  {
    hide Parse, PartitionKey, Kept, Split, DirOf;
    KeyHasNoSlash(tp);
    SplitWhole(PartitionKey(tp));
    KeyEnds(tp);
    OwnDirIff(root, PartitionKey(tp));
    NameRoundTrip(tp);
  }
}
