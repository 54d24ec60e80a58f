/** Fixed-offset big-endian access to a byte buffer. */
module ByteIo {
  import opened ProtocolTypes

  function U8(v: uint8): (b: ByteBuffer)
    ensures |b| == 1
  {
    [v]
  }

  function U16(v: uint16): (b: ByteBuffer)
    ensures |b| == 2
  {
    [v / 0x100, v % 0x100]
  }

  function U32(v: uint32): (b: ByteBuffer)
    ensures |b| == 4
  {
    U16(v / 0x1_0000) + U16(v % 0x1_0000)
  }

  function U64(v: uint64): (b: ByteBuffer)
    ensures |b| == 8
  {
    U32(v / 0x1_0000_0000) + U32(v % 0x1_0000_0000)
  }

  // A read past the end leaves the caller's zero-initialised variable untouched.

  function ReadU8(bytes: ByteBuffer, offset: nat): uint8 {
    if offset >= |bytes| then 0 else bytes[offset]
  }

  function ReadU16(bytes: ByteBuffer, offset: nat): uint16 {
    if offset + 2 > |bytes| then 0 else (bytes[offset] as int) * 0x100 + bytes[offset + 1]
  }

  function ReadU32(bytes: ByteBuffer, offset: nat): uint32 {
    if offset + 4 > |bytes| then 0 else ReadU16(bytes, offset) * 0x1_0000 + ReadU16(bytes, offset + 2)
  }

  function ReadU64(bytes: ByteBuffer, offset: nat): uint64 {
    if offset + 8 > |bytes| then 0 else ReadU32(bytes, offset) * 0x1_0000_0000 + ReadU32(bytes, offset + 4)
  }

  /** `s` with the bytes at `offset` replaced. */
  function Splice(s: ByteBuffer, offset: nat, field: ByteBuffer): (r: ByteBuffer)
    requires offset + |field| <= |s|
    ensures |r| == |s|
  {
    s[..offset] + field + s[offset + |field|..]
  }

  method WriteU8At(output: array<uint8>, offset: nat, value: uint8) returns (ok: bool)
    modifies output
    ensures ok == (offset < output.Length)
    ensures output[..] == if ok then Splice(old(output[..]), offset, U8(value)) else old(output[..])
  {
    if offset >= output.Length {
      return false;
    }
    output[offset] := value;
    return true;
  }

  method WriteU16At(output: array<uint8>, offset: nat, value: uint16) returns (ok: bool)
    modifies output
    ensures ok == (offset + 2 <= output.Length)
    ensures output[..] == if ok then Splice(old(output[..]), offset, U16(value)) else old(output[..])
  {
    if offset + 2 > output.Length {
      return false;
    }
    output[offset] := value / 0x100;
    output[offset + 1] := value % 0x100;
    return true;
  }

  method WriteU32At(output: array<uint8>, offset: nat, value: uint32) returns (ok: bool)
    modifies output
    ensures ok == (offset + 4 <= output.Length)
    ensures output[..] == if ok then Splice(old(output[..]), offset, U32(value)) else old(output[..])
  {
    if offset + 4 > output.Length {
      return false;
    }
    output[offset] := value / 0x1_0000 / 0x100;
    output[offset + 1] := value / 0x1_0000 % 0x100;
    output[offset + 2] := value % 0x1_0000 / 0x100;
    output[offset + 3] := value % 0x1_0000 % 0x100;
    assert output[offset..offset + 4] == U32(value);
    return true;
  }

  method WriteU64At(output: array<uint8>, offset: nat, value: uint64) returns (ok: bool)
    modifies output
    ensures ok == (offset + 8 <= output.Length)
    ensures output[..] == if ok then Splice(old(output[..]), offset, U64(value)) else old(output[..])
  {
    if offset + 8 > output.Length {
      return false;
    }
    var _ := WriteU32At(output, offset, value / 0x1_0000_0000);
    var _ := WriteU32At(output, offset + 4, value % 0x1_0000_0000);
    return true;
  }

  // ----- round trips

  lemma ReadsU16(bytes: ByteBuffer, offset: nat, v: uint16)
    requires offset + 2 <= |bytes| && bytes[offset..offset + 2] == U16(v)
    ensures ReadU16(bytes, offset) == v
  {
    assert bytes[offset] == bytes[offset..offset + 2][0] && bytes[offset + 1] == bytes[offset..offset + 2][1];
  }

  lemma ReadsU32(bytes: ByteBuffer, offset: nat, v: uint32)
    requires offset + 4 <= |bytes| && bytes[offset..offset + 4] == U32(v)
    ensures ReadU32(bytes, offset) == v
  {
    var field := bytes[offset..offset + 4];
    assert bytes[offset..offset + 2] == field[..2] == U16(v / 0x1_0000);
    assert bytes[offset + 2..offset + 4] == field[2..] == U16(v % 0x1_0000);
    ReadsU16(bytes, offset, v / 0x1_0000);
    ReadsU16(bytes, offset + 2, v % 0x1_0000);
  }

  lemma ReadsU64(bytes: ByteBuffer, offset: nat, v: uint64)
    requires offset + 8 <= |bytes| && bytes[offset..offset + 8] == U64(v)
    ensures ReadU64(bytes, offset) == v
  {
    var field := bytes[offset..offset + 8];
    assert bytes[offset..offset + 4] == field[..4] == U32(v / 0x1_0000_0000);
    assert bytes[offset + 4..offset + 8] == field[4..] == U32(v % 0x1_0000_0000);
    ReadsU32(bytes, offset, v / 0x1_0000_0000);
    ReadsU32(bytes, offset + 4, v % 0x1_0000_0000);
  }

  lemma U16OfRead(bytes: ByteBuffer, offset: nat)
    requires offset + 2 <= |bytes|
    ensures U16(ReadU16(bytes, offset)) == bytes[offset..offset + 2]
  {
  }

  lemma U32OfRead(bytes: ByteBuffer, offset: nat)
    requires offset + 4 <= |bytes|
    ensures U32(ReadU32(bytes, offset)) == bytes[offset..offset + 4]
  {
    var hi, lo := ReadU16(bytes, offset), ReadU16(bytes, offset + 2);
    assert ReadU32(bytes, offset) / 0x1_0000 == hi && ReadU32(bytes, offset) % 0x1_0000 == lo;
    U16OfRead(bytes, offset);
    U16OfRead(bytes, offset + 2);
  }

  lemma U64OfRead(bytes: ByteBuffer, offset: nat)
    requires offset + 8 <= |bytes|
    ensures U64(ReadU64(bytes, offset)) == bytes[offset..offset + 8]
  {
    var hi, lo := ReadU32(bytes, offset), ReadU32(bytes, offset + 4);
    assert ReadU64(bytes, offset) / 0x1_0000_0000 == hi && ReadU64(bytes, offset) % 0x1_0000_0000 == lo;
    U32OfRead(bytes, offset);
    U32OfRead(bytes, offset + 4);
  }

  /** The number in the `width` bytes at `offset`, most significant byte first. */
  function BigEndian(bytes: ByteBuffer, offset: nat, width: nat): nat
    requires offset + width <= |bytes|
  {
    if width == 0 then 0 else BigEndian(bytes, offset, width - 1) * 256 + bytes[offset + width - 1]
  }

  lemma ReadsBigEndian16(bytes: ByteBuffer, offset: nat)
    requires offset + 2 <= |bytes|
    ensures ReadU16(bytes, offset) == BigEndian(bytes, offset, 2)
  {
    assert BigEndian(bytes, offset, 1) == bytes[offset];
  }

  lemma {:induction false} BigEndianSplits(bytes: ByteBuffer, offset: nat, high: nat, low: nat)
    requires offset + high + low <= |bytes|
    ensures BigEndian(bytes, offset, high + low)
         == BigEndian(bytes, offset, high) * Power256(low) + BigEndian(bytes, offset + high, low)
  {
    if low > 0 {
      BigEndianSplits(bytes, offset, high, low - 1);
      Regroup(BigEndian(bytes, offset, high), Power256(low - 1));
    }
  }

  lemma Regroup(a: nat, b: nat)
    ensures (a * b) * 256 == a * (b * 256)
  {
  }

  function Power256(n: nat): nat {
    if n == 0 then 1 else Power256(n - 1) * 256
  }

  lemma ReadsBigEndian32(bytes: ByteBuffer, offset: nat)
    requires offset + 4 <= |bytes|
    ensures ReadU32(bytes, offset) == BigEndian(bytes, offset, 4)
  {
    BigEndianSplits(bytes, offset, 2, 2);
    assert Power256(2) == 0x1_0000;
    ReadsBigEndian16(bytes, offset);
    ReadsBigEndian16(bytes, offset + 2);
  }

  lemma ReadsBigEndian64(bytes: ByteBuffer, offset: nat)
    requires offset + 8 <= |bytes|
    ensures ReadU64(bytes, offset) == BigEndian(bytes, offset, 8)
  {
    BigEndianSplits(bytes, offset, 4, 4);
    assert Power256(4) == 0x1_0000_0000;
    ReadsBigEndian32(bytes, offset);
    ReadsBigEndian32(bytes, offset + 4);
  }
}
