/** The encoder as the broker runs it: a buffer that every write extends. */
module Encoder {
  import opened Bytes
  import opened Outcomes
  import opened Wire

  class Encoder {
    var buffer: bytes

    constructor ()
      ensures buffer == []
    {
      buffer := [];
    }

    method WriteInt8(value: int8)
      modifies this
      ensures buffer == old(buffer) + PutU8(value)
    {
      hide PutU8;
      buffer := buffer + PutU8(value);
    }

    method WriteInt16(value: int16)
      modifies this
      ensures buffer == old(buffer) + PutU16(value)
    {
      hide PutU16;
      buffer := buffer + PutU16(value);
    }

    method WriteInt32(value: int32)
      modifies this
      ensures buffer == old(buffer) + PutU32(value)
    {
      hide PutU32;
      buffer := buffer + PutU32(value);
    }

    method WriteInt64(value: int64)
      modifies this
      ensures buffer == old(buffer) + PutU64(value)
    {
      hide PutU64;
      buffer := buffer + PutU64(value);
    }

    /** The length goes out in its low 16 bits, whatever the string's length. */
    method WriteString(value: bytes)
      modifies this
      ensures buffer == old(buffer) + EncStr(value)
    {
      hide PutU16;
      SameU16(|value|, ToInt16(|value|));
      WriteInt16(ToInt16(|value|));
      buffer := buffer + value;
    }

    method WriteNullableString(value: Option<bytes>)
      modifies this
      ensures buffer == old(buffer) + EncNullable(if value.Some? then value.value else [], value.None?)
    {
      hide PutU16, EncStr;
      if value.None? {
        WriteInt16(-1);
        return;
      }
      WriteString(value.value);
    }

    /** A message behind its own length, in a fresh buffer that two copies fill. */
    method FullMessage() returns (message: array<byte>)
      ensures fresh(message)
      ensures message[..] == PutU32(|buffer|) + buffer
    {
      hide PutU32;
      var size := PutU32(|buffer|);
      message := new byte[4 + |buffer|];
      for i := 0 to 4
        invariant message[..i] == size[..i]
      {
        message[i] := size[i];
      }
      for i := 0 to |buffer|
        invariant message[..4 + i] == size + buffer[..i]
      {
        message[4 + i] := buffer[i];
      }
    }
  }

  /** Equal low bits are written as equal bytes. */
  lemma SameU16(a: int, b: int)
    requires a % TWO16 == b % TWO16
    ensures PutU16(a) == PutU16(b)
  {
  }

  lemma SameU32(a: int, b: int)
    requires a % TWO32 == b % TWO32
    ensures PutU32(a) == PutU32(b)
  {
  }

  lemma SameU64(a: int, b: int)
    requires a % TWO64 == b % TWO64
    ensures PutU64(a) == PutU64(b)
  {
  }

  /** A framed message of fewer than 2^31 bytes is read back whole, leaving what follows. */
  lemma FullMessageBack(message: bytes, rest: bytes)
    requires |message| < TWO31
    ensures ReadBytes32(PutU32(|message|) + message + rest) == Got(message, rest)
  {
    hide PutU32, ReadBytes32;
    Bytes32Back(message, rest);
  }
}
