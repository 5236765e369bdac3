/** Big-endian integers over byte sequences, and Go's fixed-width conversions. */
module Bytes {

  type byte = b: int | 0 <= b < 256
  type bytes = seq<byte>

  const TWO16: int := 0x1_0000
  const TWO31: int := 0x8000_0000
  const TWO32: int := 0x1_0000_0000
  const TWO63: int := 0x8000_0000_0000_0000
  const TWO64: int := 0x1_0000_0000_0000_0000

  type int8 = i: int | -128 <= i < 128
  type int16 = i: int | -0x8000 <= i < 0x8000
  type int32 = i: int | -0x8000_0000 <= i < 0x8000_0000
  type int64 = i: int | -0x8000_0000_0000_0000 <= i < 0x8000_0000_0000_0000
  type uint64 = i: int | 0 <= i < 0x1_0000_0000_0000_0000

  /** The number of values a `k`-byte unsigned integer takes. */
  function Limit(k: nat): (r: nat)
    ensures r > 0
  {
    if k == 0 then 1 else 256 * Limit(k - 1)
  }

  /** The low `k` bytes of `v`, most significant first. */
  function Put(k: nat, v: nat): (s: bytes)
    ensures |s| == k
    decreases k
  {
    if k == 0 then [] else Put(k - 1, v / 256) + [v % 256]
  }

  /** The unsigned value of a big-endian byte sequence. */
  function Get(s: bytes): (v: nat)
    ensures v < Limit(|s|)
  {
    if s == [] then 0 else 256 * Get(s[..|s| - 1]) + s[|s| - 1]
  }

  lemma {:induction false} GetPut(k: nat, v: nat)
    requires v < Limit(k)
    ensures Get(Put(k, v)) == v
    decreases k
  {
    if k > 0 {
      GetPut(k - 1, v / 256);
      assert Put(k, v)[..k - 1] == Put(k - 1, v / 256);
    }
  }

  lemma {:induction false} PutGet(s: bytes)
    ensures Put(|s|, Get(s)) == s
  {
    if s != [] {
      PutGet(s[..|s| - 1]);
    }
  }

  lemma Limits()
    ensures Limit(1) == 256
    ensures Limit(2) == TWO16
    ensures Limit(4) == TWO32
    ensures Limit(8) == TWO64
  {
    assert Limit(3) == 0x100_0000;
    assert Limit(5) == 0x100_0000_0000;
    assert Limit(6) == 0x1_0000_0000_0000;
    assert Limit(7) == 0x100_0000_0000_0000;
  }

  // Fixed-width writes. Each keeps only the low bits of `v`, as Go's conversions
  // uint16(v), uint32(v) and uint64(v) do; `%` is never negative in Dafny, so a
  // negative `v` is written in two's complement.

  function PutU8(v: int): (s: bytes)
    ensures |s| == 1 && Get(s) == v % 256
  {
    Limits();
    GetPut(1, v % 256);
    Put(1, v % 256)
  }

  function PutU16(v: int): (s: bytes)
    ensures |s| == 2 && Get(s) == v % TWO16
  {
    Limits();
    GetPut(2, v % TWO16);
    Put(2, v % TWO16)
  }

  function PutU32(v: int): (s: bytes)
    ensures |s| == 4 && Get(s) == v % TWO32
  {
    Limits();
    GetPut(4, v % TWO32);
    Put(4, v % TWO32)
  }

  function PutU64(v: int): (s: bytes)
    ensures |s| == 8 && Get(s) == v % TWO64
  {
    Limits();
    GetPut(8, v % TWO64);
    Put(8, v % TWO64)
  }

  // Unsigned and signed reads of exactly that many bytes.

  function GetU16(s: bytes): (v: nat)
    requires |s| == 2
    ensures v < TWO16
  {
    Limits();
    Get(s)
  }

  function GetU32(s: bytes): (v: nat)
    requires |s| == 4
    ensures v < TWO32
  {
    Limits();
    Get(s)
  }

  function GetU64(s: bytes): (v: nat)
    requires |s| == 8
    ensures v < TWO64
  {
    Limits();
    Get(s)
  }

  /** Go's int32(u): the two's complement reading of a 32-bit pattern. */
  function ToInt32(u: int): (i: int32)
    ensures i % TWO32 == u % TWO32
  {
    var w := u % TWO32;
    if w < TWO31 then w else w - TWO32
  }

  /** Go's int64(u). */
  function ToInt64(u: int): (i: int64)
    ensures i % TWO64 == u % TWO64
  {
    var w := u % TWO64;
    if w < TWO63 then w else w - TWO64
  }

  function ToInt16(u: int): (i: int16)
    ensures i % TWO16 == u % TWO16
  {
    var w := u % TWO16;
    if w < 0x8000 then w else w - TWO16
  }

  function ToInt8(u: int): (i: int8)
    ensures i % 256 == u % 256
  {
    var w := u % 256;
    if w < 128 then w else w - 256
  }

  // Writing a value and reading it back at the same width and sign gives it back.

  lemma Int8RoundTrip(i: int8)
    ensures ToInt8(Get(PutU8(i))) == i
  {
    hide PutU8, Get;
  }

  lemma Int16RoundTrip(i: int16)
    ensures ToInt16(GetU16(PutU16(i))) == i
  {
    hide PutU16, Get;
  }

  lemma Int32RoundTrip(i: int32)
    ensures ToInt32(GetU32(PutU32(i))) == i
  {
    hide PutU32, Get;
  }

  lemma Int64RoundTrip(i: int64)
    ensures ToInt64(GetU64(PutU64(i))) == i
  {
    hide PutU64, Get;
  }

  /** Reading four bytes and writing them back gives the same four bytes. */
  lemma PutGetU32(s: bytes)
    requires |s| == 4
    ensures PutU32(GetU32(s)) == s
  {
    hide Put, Get;
    PutGet(s);
  }

  /** Dropping `k` low bytes one at a time is one division. */
  lemma Shifts(w: nat)
    ensures w / 0x100 / 0x100 == w / 0x1_0000
    ensures w / 0x1_0000 / 0x100 == w / 0x100_0000
  {
  }

  lemma PutFour(w: nat)
    ensures Put(4, w) == [w / 0x100_0000 % 256, w / 0x1_0000 % 256, w / 0x100 % 256, w % 256]
  {
    Shifts(w);
    var a, b, c := w / 0x100, w / 0x1_0000, w / 0x100_0000;
    assert Put(1, c) == [c % 256];
    assert Put(2, b) == [c % 256, b % 256];
    assert Put(3, a) == [c % 256, b % 256, a % 256];
  }
}
