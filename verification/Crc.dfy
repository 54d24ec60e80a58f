/** The reflected 0xEDB88320 CRC-32 (section 8 of RFC 1952), computed bit by bit without a table. */
module Crc {
  import opened ProtocolTypes

  // ----- octets, words and the integers they stand for

  function Weighted(digit: bool, weight: bv8): bv8 {
    if digit then weight else 0
  }

  function Pack(d0: bool, d1: bool, d2: bool, d3: bool, d4: bool, d5: bool, d6: bool, d7: bool): bv8 {
    Weighted(d0, 0x01) | Weighted(d1, 0x02) | Weighted(d2, 0x04) | Weighted(d3, 0x08)
    | Weighted(d4, 0x10) | Weighted(d5, 0x20) | Weighted(d6, 0x40) | Weighted(d7, 0x80)
  }

  /** The octet with the binary digits of `byte`. */
  function Bits(byte: uint8): bv8 {
    Pack(DigitOf(byte, 0), DigitOf(byte, 1), DigitOf(byte, 2), DigitOf(byte, 3),
         DigitOf(byte, 4), DigitOf(byte, 5), DigitOf(byte, 6), DigitOf(byte, 7))
  }

  function Value(octet: bv8): uint8 {
    octet as int
  }

  function Octet3(w: bv32): bv8 { ((w >> 24) & 0xff) as bv8 }
  function Octet2(w: bv32): bv8 { ((w >> 16) & 0xff) as bv8 }
  function Octet1(w: bv32): bv8 { ((w >> 8) & 0xff) as bv8 }
  function Octet0(w: bv32): bv8 { (w & 0xff) as bv8 }

  function WordValue(b3: uint8, b2: uint8, b1: uint8, b0: uint8): uint32 {
    b3 * 0x100_0000 + b2 * 0x1_0000 + b1 * 0x100 + b0
  }

  /** The unsigned value of a 32-bit word, assembled from its four octets. */
  function ToUint32(w: bv32): uint32 {
    WordValue(Value(Octet3(w)), Value(Octet2(w)), Value(Octet1(w)), Value(Octet0(w)))
  }

  // ----- the checksum

  /** One bit of the branch-free loop: the mask is all ones exactly when the low bit is set. */
  function BitStep(crc: bv32): bv32 {
    (crc >> 1) ^ (0xedb8_8320 & (0 - (crc & 1)))
  }

  function BitSteps(crc: bv32, n: nat): bv32 {
    if n == 0 then crc else BitStep(BitSteps(crc, n - 1))
  }

  function MixBits(crc: bv32, octet: bv8): bv32 {
    crc ^ (octet as bv32)
  }

  function ByteStep(crc: bv32, byte: uint8): bv32 {
    BitSteps(MixBits(crc, Bits(byte)), 8)
  }

  function Complement(w: bv32): bv32 {
    !w
  }

  /** The checksum that results when the register is `crc` and `data` is still to come. */
  function ChecksumFrom(crc: bv32, data: ByteBuffer): uint32
    decreases |data|
  {
    if data == [] then ToUint32(Complement(crc)) else ChecksumFrom(ByteStep(crc, data[0]), data[1..])
  }

  function Checksum(data: ByteBuffer): uint32 {
    ChecksumFrom(0xffff_ffff, data)
  }

  method Crc32(data: ByteBuffer) returns (sum: uint32)
    ensures sum == Checksum(data)
  {
    hide Bits, MixBits, ToUint32, Complement;
    var crc: bv32 := 0xffff_ffff;
    for i := 0 to |data|
      invariant ChecksumFrom(crc, data[i..]) == Checksum(data)
    {
      crc := MixBits(crc, Bits(data[i]));
      ghost var mixed := crc;
      for bit := 0 to 8
        invariant crc == BitSteps(mixed, bit)
      {
        var mask: bv32 := 0 - (crc & 1);
        ghost var next := BitStep(crc);
        crc := (crc >> 1) ^ (0xedb8_8320 & mask);
        assert crc == next by { hide BitSteps, ChecksumFrom, Checksum; }
      }
      assert data[i..][1..] == data[i + 1..];
    }
    sum := ToUint32(Complement(crc));
  }

  // ----- injectivity

  lemma PackInjective(a0: bool, a1: bool, a2: bool, a3: bool, a4: bool, a5: bool, a6: bool, a7: bool,
                      b0: bool, b1: bool, b2: bool, b3: bool, b4: bool, b5: bool, b6: bool, b7: bool)
    requires Pack(a0, a1, a2, a3, a4, a5, a6, a7) == Pack(b0, b1, b2, b3, b4, b5, b6, b7)
    ensures a0 == b0 && a1 == b1 && a2 == b2 && a3 == b3 && a4 == b4 && a5 == b5 && a6 == b6 && a7 == b7
  {
  }

  function Power2(n: nat): nat {
    if n == 0 then 1 else 2 * Power2(n - 1)
  }

  lemma {:induction false} DigitsDetermineNumber(a: nat, b: nat, places: nat)
    requires a < Power2(places) && b < Power2(places)
    requires forall i: nat :: i < places ==> DigitOf(a, i) == DigitOf(b, i)
    ensures a == b
  {
    if places > 0 {
      forall i: nat | i < places - 1 ensures DigitOf(a / 2, i) == DigitOf(b / 2, i) {
        assert DigitOf(a, i + 1) == DigitOf(b, i + 1);
      }
      DigitsDetermineNumber(a / 2, b / 2, places - 1);
      assert DigitOf(a, 0) == DigitOf(b, 0);
    }
  }

  lemma SameDigits(a: uint8, b: uint8, i: nat)
    requires Bits(a) == Bits(b) && i < 8
    ensures DigitOf(a, i) == DigitOf(b, i)
  {
    hide Pack, DigitOf;
    PackInjective(DigitOf(a, 0), DigitOf(a, 1), DigitOf(a, 2), DigitOf(a, 3),
                  DigitOf(a, 4), DigitOf(a, 5), DigitOf(a, 6), DigitOf(a, 7),
                  DigitOf(b, 0), DigitOf(b, 1), DigitOf(b, 2), DigitOf(b, 3),
                  DigitOf(b, 4), DigitOf(b, 5), DigitOf(b, 6), DigitOf(b, 7));
    assert i == 0 || i == 1 || i == 2 || i == 3 || i == 4 || i == 5 || i == 6 || i == 7;
  }

  lemma BitsInjective(a: uint8, b: uint8)
    requires Bits(a) == Bits(b)
    ensures a == b
  {
    hide Bits, DigitOf;
    assert Power2(8) == 256;
    forall i: nat | i < 8 ensures DigitOf(a, i) == DigitOf(b, i) {
      SameDigits(a, b, i);
    }
    DigitsDetermineNumber(a, b, 8);
  }

  lemma ValueInjective(a: bv8, b: bv8)
    requires Value(a) == Value(b)
    ensures a == b
  {
    assert (a as int) as bv8 == a;
  }

  lemma OctetsDetermineWord(a: bv32, b: bv32)
    requires Octet3(a) == Octet3(b) && Octet2(a) == Octet2(b) && Octet1(a) == Octet1(b) && Octet0(a) == Octet0(b)
    ensures a == b
  {
  }

  lemma WordValueInjective(a3: uint8, a2: uint8, a1: uint8, a0: uint8, b3: uint8, b2: uint8, b1: uint8, b0: uint8)
    requires WordValue(a3, a2, a1, a0) == WordValue(b3, b2, b1, b0)
    ensures a3 == b3 && a2 == b2 && a1 == b1 && a0 == b0
  {
  }

  lemma ToUint32Injective(a: bv32, b: bv32)
    requires ToUint32(a) == ToUint32(b)
    ensures a == b
  {
    WordValueInjective(Value(Octet3(a)), Value(Octet2(a)), Value(Octet1(a)), Value(Octet0(a)),
                       Value(Octet3(b)), Value(Octet2(b)), Value(Octet1(b)), Value(Octet0(b)));
    ValueInjective(Octet3(a), Octet3(b));
    ValueInjective(Octet2(a), Octet2(b));
    ValueInjective(Octet1(a), Octet1(b));
    ValueInjective(Octet0(a), Octet0(b));
    OctetsDetermineWord(a, b);
  }

  /** The polynomial's top bit is set and a shifted register's is not, so the top bit of the result
      tells which branch was taken and the step can be undone. */
  lemma BitStepInjective(a: bv32, b: bv32)
    requires BitStep(a) == BitStep(b)
    ensures a == b
  {
  }

  lemma {:induction false} BitStepsInjective(a: bv32, b: bv32, n: nat)
    requires BitSteps(a, n) == BitSteps(b, n)
    ensures a == b
  {
    if n > 0 {
      BitStepInjective(BitSteps(a, n - 1), BitSteps(b, n - 1));
      BitStepsInjective(a, b, n - 1);
    }
  }

  lemma MixBitsInjective(crc: bv32, a: bv8, b: bv8)
    requires MixBits(crc, a) == MixBits(crc, b)
    ensures a == b
  {
  }

  lemma MixBitsInjectiveInRegister(a: bv32, b: bv32, octet: bv8)
    requires MixBits(a, octet) == MixBits(b, octet)
    ensures a == b
  {
  }

  lemma ByteStepInjective(crc: bv32, a: uint8, b: uint8)
    requires ByteStep(crc, a) == ByteStep(crc, b)
    ensures a == b
  {
    BitStepsInjective(MixBits(crc, Bits(a)), MixBits(crc, Bits(b)), 8);
    MixBitsInjective(crc, Bits(a), Bits(b));
    BitsInjective(a, b);
  }

  lemma ByteStepInjectiveInRegister(a: bv32, b: bv32, byte: uint8)
    requires ByteStep(a, byte) == ByteStep(b, byte)
    ensures a == b
  {
    BitStepsInjective(MixBits(a, Bits(byte)), MixBits(b, Bits(byte)), 8);
    MixBitsInjectiveInRegister(a, b, Bits(byte));
  }

  lemma ComplementInjective(a: bv32, b: bv32)
    requires Complement(a) == Complement(b)
    ensures a == b
  {
  }

  /** Over the same bytes, different registers lead to different checksums. */
  lemma {:induction false} ChecksumFromInjective(a: bv32, b: bv32, data: ByteBuffer)
    requires ChecksumFrom(a, data) == ChecksumFrom(b, data)
    ensures a == b
    decreases |data|
  {
    hide ByteStep, ToUint32, Complement;
    if data == [] {
      ToUint32Injective(Complement(a), Complement(b));
      ComplementInjective(a, b);
    } else {
      ChecksumFromInjective(ByteStep(a, data[0]), ByteStep(b, data[0]), data[1..]);
      ByteStepInjectiveInRegister(a, b, data[0]);
    }
  }

  lemma {:induction false} OneByteChangesChecksumFrom(crc: bv32, s: ByteBuffer, k: nat, byte: uint8)
    requires k < |s| && s[k] != byte
    ensures ChecksumFrom(crc, s[k := byte]) != ChecksumFrom(crc, s)
    decreases k
  {
    hide ByteStep, ToUint32, Complement;
    var t := s[k := byte];
    if k > 0 {
      assert t[1..] == s[1..][k - 1 := byte];
      OneByteChangesChecksumFrom(ByteStep(crc, s[0]), s[1..], k - 1, byte);
    } else if ChecksumFrom(crc, t) == ChecksumFrom(crc, s) {
      assert t[1..] == s[1..];
      ChecksumFromInjective(ByteStep(crc, byte), ByteStep(crc, s[0]), s[1..]);
      ByteStepInjective(crc, byte, s[0]);
    }
  }

  /** Two buffers that differ in exactly one octet never share a checksum, whatever their length. */
  lemma OneByteChangesChecksum(s: ByteBuffer, k: nat, byte: uint8)
    requires k < |s| && s[k] != byte
    ensures Checksum(s[k := byte]) != Checksum(s)
  {
    OneByteChangesChecksumFrom(0xffff_ffff, s, k, byte);
  }

  /** The published checksum of the single octet 0x61, computed bit by bit: it fixes polynomial, start and end. */
  lemma CheckValue()
    ensures Checksum([0x61]) == 0xe8b7_be43
  {
    var crc: bv32 := 0xffff_ffff;
    assert Bits(0x61) == 0x61;
    assert MixBits(crc, 0x61) == 0xffff_ff9e;
    var r := ByteStep(crc, 0x61);
    assert r == BitSteps(0xffff_ff9e, 8) == 0x1748_41bc;
    assert Complement(r) == 0xe8b7_be43;
    assert ToUint32(0xe8b7_be43) == 0xe8b7_be43;
    assert [0x61][1..] == [];
  }
}
