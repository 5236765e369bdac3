/** Facts about slices and concatenations, stated once for every element type. */
module Seqs {

  lemma SliceOfSlice<T>(s: seq<T>, a: nat, b: nat, i: nat, j: nat)
    requires a <= b <= |s| && i <= j <= b - a
    ensures s[a..b][i..j] == s[a + i..a + j]
  {
    forall k | 0 <= k < j - i
      ensures s[a..b][i..j][k] == s[a + i..a + j][k]
    {
    }
  }

  /** A slice that ends inside the left part of a concatenation. */
  lemma SliceLeft<T>(s: seq<T>, t: seq<T>, a: nat, b: nat)
    requires a <= b <= |s|
    ensures (s + t)[a..b] == s[a..b]
  {
  }

  /** A slice that starts inside the right part of a concatenation. */
  lemma SliceRight<T>(s: seq<T>, t: seq<T>, a: nat, b: nat)
    requires a <= b <= |t|
    ensures (s + t)[|s| + a..|s| + b] == t[a..b]
  {
  }

  lemma Assoc<T>(a: seq<T>, b: seq<T>, c: seq<T>)
    ensures (a + b) + c == a + (b + c)
  {
  }

  lemma Split<T>(s: seq<T>, i: nat)
    requires i <= |s|
    ensures s[..i] + s[i..] == s
  {
  }
}
