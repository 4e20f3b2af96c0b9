/**
 The CRC-32 of the wire protocol: the nibble-table form the firmware runs, and the error patterns every frame and
 record check is guaranteed to see.
 */
module Crc32 {
  import opened Bytes
  import opened CrcBits
  import SR = ShiftRegister

  const CRC32_INIT: bv32 := 0xFFFFFFFF

  function ToBits(data: seq<byte>): (r: seq<bv8>)
    ensures |r| == |data|
    ensures forall i :: 0 <= i < |data| ==> r[i] == ByteBits(data[i])
  {
    seq(|data|, i requires 0 <= i < |data| => ByteBits(data[i]))
  }

  lemma ToBitsAppend(a: seq<byte>, b: seq<byte>)
    ensures ToBits(a + b) == ToBits(a) + ToBits(b)
  {
  }

  /** The register after a block of bytes. */
  function Update(c: bv32, data: seq<byte>): bv32 {
    SR.Update(REGISTER, c, ToBits(data))
  }

  function Final(c: bv32): bv32 { c ^ 0xFFFFFFFF }

  /** The CRC-32 of a byte string, as the number carried on the wire. */
  function Crc(data: seq<byte>): word {
    Value(Final(Update(CRC32_INIT, data)))
  }

  /** A message may be fed in pieces: header then payload, or two slices of a record. */
  lemma UpdateAppend(c: bv32, a: seq<byte>, b: seq<byte>)
    ensures Update(c, a + b) == Update(Update(c, a), b)
  {
    ToBitsAppend(a, b);
    SR.UpdateAppend(REGISTER, c, ToBits(a), ToBits(b));
  }

  // ---- a known value ----

  function FourSteps(x: bv32): bv32 { BitStep(BitStep(BitStep(BitStep(x)))) }

  function EightSteps(x: bv32): bv32 { FourSteps(FourSteps(x)) }

  lemma FourIterated(x: bv32)
    ensures SR.Iterate(BitStep, 4, x) == FourSteps(x)
  {
    assert SR.Iterate(BitStep, 2, BitStep(BitStep(x))) == FourSteps(x);
    assert SR.Iterate(BitStep, 4, x) == SR.Iterate(BitStep, 2, BitStep(BitStep(x)));
  }

  lemma StepIsEight(c: bv32, b: bv8)
    ensures SR.Step(REGISTER, c, b) == EightSteps(c ^ (b as bv32))
  {
    var x := c ^ (b as bv32);
    EightTurns(x);
    FourIterated(x);
    FourIterated(FourSteps(x));
  }

  const DIGITS: seq<byte> := [0x31, 0x32, 0x33, 0x34, 0x35, 0x36, 0x37, 0x38, 0x39]

  /** The register after the `i`-th digit, worked out. */
  lemma Fed(i: nat, c: bv32, bits: bv8, next: bv32)
    requires i < 9 && ByteBits(DIGITS[i]) == bits && EightSteps(c ^ (bits as bv32)) == next
    ensures Update(c, DIGITS[i..]) == Update(next, DIGITS[i + 1..])
  {
    var s := DIGITS[i..];
    StepIsEight(c, bits);
    SR.UpdateOne(REGISTER, c, ToBits(s));
    assert ToBits(s)[1..] == ToBits(DIGITS[i + 1..]);
  }

  lemma Digit1()
    ensures ByteBits(0x31) == 0x31 && EightSteps(0xFFFFFFFF ^ 0x31) == 0x7C231048
  {
    assert FourSteps(0xFFFFFFCE) == 0xAFF51D84;
    assert FourSteps(0xAFF51D84) == 0x7C231048;
  }

  lemma Digit2()
    ensures ByteBits(0x32) == 0x32 && EightSteps(0x7C231048 ^ 0x32) == 0xB0ACBB32
  {
    assert FourSteps(0x7C23107A) == 0xD11492EF;
    assert FourSteps(0xD11492EF) == 0xB0ACBB32;
  }

  lemma Digit3()
    ensures ByteBits(0x33) == 0x33 && EightSteps(0xB0ACBB32 ^ 0x33) == 0x77B79C2D
  {
    assert FourSteps(0xB0ACBB01) == 0x16BDDBD4;
    assert FourSteps(0x16BDDBD4) == 0x77B79C2D;
  }

  lemma Digit4()
    ensures ByteBits(0x34) == 0x34 && EightSteps(0x77B79C2D ^ 0x34) == 0x641C1F5C
  {
    assert FourSteps(0x77B79C19) == 0xF774EA85;
    assert FourSteps(0xF774EA85) == 0x641C1F5C;
  }

  lemma Digit5()
    ensures ByteBits(0x35) == 0x35 && EightSteps(0x641C1F5C ^ 0x35) == 0x340AC5E3
  {
    assert FourSteps(0x641C1F69) == 0xF64E52B2;
    assert FourSteps(0xF64E52B2) == 0x340AC5E3;
  }

  lemma Digit6()
    ensures ByteBits(0x36) == 0x36 && EightSteps(0x340AC5E3 ^ 0x36) == 0xF68D2C9E
  {
    assert FourSteps(0x340AC5D5) == 0x682BFDA9;
    assert FourSteps(0x682BFDA9) == 0xF68D2C9E;
  }

  lemma Digit7()
    ensures ByteBits(0x37) == 0x37 && EightSteps(0xF68D2C9E ^ 0x37) == 0xAFFC9660
  {
    assert FourSteps(0xF68D2CA9) == 0xFF67418E;
    assert FourSteps(0xFF67418E) == 0xAFFC9660;
  }

  lemma Digit8()
    ensures ByteBits(0x38) == 0x38 && EightSteps(0xAFFC9660 ^ 0x38) == 0x651F2550
  {
    assert FourSteps(0xAFFC9658) == 0xE7474A45;
    assert FourSteps(0xE7474A45) == 0x651F2550;
  }

  lemma Digit9()
    ensures ByteBits(0x39) == 0x39 && EightSteps(0x651F2550 ^ 0x39) == 0x340BC6D9
  {
    assert FourSteps(0x651F2569) == 0xF65E6112;
    assert FourSteps(0xF65E6112) == 0x340BC6D9;
  }

  lemma FirstDigits()
    ensures Update(0xFFFFFFFF, DIGITS[0..]) == Update(0x77B79C2D, DIGITS[3..])
  {
    Digit1();
    Fed(0, 0xFFFFFFFF, 0x31, 0x7C231048);
    Digit2();
    Fed(1, 0x7C231048, 0x32, 0xB0ACBB32);
    Digit3();
    Fed(2, 0xB0ACBB32, 0x33, 0x77B79C2D);
  }

  lemma MiddleDigits()
    ensures Update(0x77B79C2D, DIGITS[3..]) == Update(0xF68D2C9E, DIGITS[6..])
  {
    Digit4();
    Fed(3, 0x77B79C2D, 0x34, 0x641C1F5C);
    Digit5();
    Fed(4, 0x641C1F5C, 0x35, 0x340AC5E3);
    Digit6();
    Fed(5, 0x340AC5E3, 0x36, 0xF68D2C9E);
  }

  lemma LastDigits()
    ensures Update(0xF68D2C9E, DIGITS[6..]) == Update(0x340BC6D9, DIGITS[9..])
  {
    Digit7();
    Fed(6, 0xF68D2C9E, 0x37, 0xAFFC9660);
    Digit8();
    Fed(7, 0xAFFC9660, 0x38, 0x651F2550);
    Digit9();
    Fed(8, 0x651F2550, 0x39, 0x340BC6D9);
  }

  /** The check value of this CRC: the nine ASCII digits give 0xCBF43926. */
  lemma CheckValue()
    ensures Crc([0x31, 0x32, 0x33, 0x34, 0x35, 0x36, 0x37, 0x38, 0x39]) == 0xCBF4_3926
  {
    FirstDigits();
    MiddleDigits();
    LastDigits();
    assert DIGITS[0..] == DIGITS && DIGITS[9..] == [];
    assert Update(0x340BC6D9, []) == 0x340BC6D9;
  }

  // ---- the form the firmware runs ----

  const NIBBLE_TABLE: seq<bv32> := [
    0x00000000, 0x1DB71064, 0x3B6E20C8, 0x26D930AC,
    0x76DC4190, 0x6B6B51F4, 0x4DB26158, 0x5005713C,
    0xEDB88320, 0xF00F9344, 0xD6D6A3E8, 0xCB61B38C,
    0x9B64C2B0, 0x86D3D2D4, 0xA00AE278, 0xBDBDF21C]

  lemma LowNibble(c: bv32)
    ensures (c & 0xF) < 16 && (c & 0xF) as int < |NIBBLE_TABLE|
  {
  }

  lemma TableEntry(i: bv32)
    requires i < 16
    ensures i as int < |NIBBLE_TABLE| && NIBBLE_TABLE[i as int] == FourTurns(i)
  {
  }

  /** One table lookup is four bit steps, for every register value. */
  lemma NibbleIsFourSteps(c: bv32)
    ensures (c & 0xF) as int < |NIBBLE_TABLE|
    ensures FourTurns(c) == (c >> 4) ^ NIBBLE_TABLE[(c & 0xF) as int]
  {
    LowNibble(c);
    TableEntry(c & 0xF);
    FourTurnsSplit(c);
  }

  /** One of the two table lookups of the loop body. */
  method FeedNibble(crc: bv32) returns (r: bv32)
    ensures r == FourTurns(crc)
  {
    NibbleIsFourSteps(crc);
    r := (crc >> 4) ^ NIBBLE_TABLE[(crc & 0xF) as int];
  }

  /** The loop body of crc32_update. */
  method FeedByte(crc: bv32, b: byte) returns (r: bv32)
    ensures r == SR.Step(REGISTER, crc, ByteBits(b))
  {
    var added := Xor(crc, Place(ByteBits(b)));
    EightTurns(added);
    r := FeedNibble(added);
    r := FeedNibble(r);
  }

  /** crc32_update: the running CRC over a further block of bytes. */
  method Crc32Update(crc: bv32, data: seq<byte>) returns (r: bv32)
    ensures r == Update(crc, data)
  {
    r := crc;
    ghost var bits := ToBits(data);
    for i := 0 to |data|
      invariant SR.Update(REGISTER, r, bits[i..]) == Update(crc, data)
    {
      SR.UpdateOne(REGISTER, r, bits[i..]);
      assert bits[i..][1..] == bits[i + 1..];
      r := FeedByte(r, data[i]);
    }
    assert bits[|data|..] == [];
  }

  /** crc32_buffer. */
  method Crc32Buffer(data: seq<byte>) returns (r: word)
    ensures r == Crc(data)
  {
    var c := Crc32Update(CRC32_INIT, data);
    r := Value(Final(c));
  }

  // ---- what the code detects ----

  lemma BurstInBits(a: seq<byte>, b: seq<byte>, at: nat)
    requires a != b && SR.DifferWithin(a, b, at, 4)
    ensures ToBits(a) != ToBits(b) && SR.DifferWithin(ToBits(a), ToBits(b), at, 4)
  {
  }

  lemma FinalInjective(x: bv32, y: bv32)
    requires Final(x) == Final(y)
    ensures x == y
  {
  }

  /** Two messages that differ only inside four consecutive bytes never share a CRC, however long they are. */
  lemma BurstChangesCrc(a: seq<byte>, b: seq<byte>, at: nat)
    requires a != b && SR.DifferWithin(a, b, at, 4)
    ensures Crc(a) != Crc(b)
  {
    BurstInBits(a, b, at);
    RegisterLaws();
    SR.BurstChangesRegister(REGISTER, CRC32_INIT, ToBits(a), ToBits(b), at);
    if Crc(a) == Crc(b) {
      SameBits(Final(Update(CRC32_INIT, a)), Final(Update(CRC32_INIT, b)));
      FinalInjective(Update(CRC32_INIT, a), Update(CRC32_INIT, b));
    }
  }

  lemma TrailerWord(d: seq<byte>)
    requires |d| == 4
    ensures Value(SR.Word(REGISTER, ToBits(d))) == Rd32(d, 0)
  {
    var b := ToBits(d);
    WordIsJoin(b);
    JoinBytes(b[0], b[1], b[2], b[3]);
  }

  /** A trailer is the CRC of what precedes it exactly when the whole leaves the residue behind. */
  lemma ResidueIffCrc(body: seq<byte>, trailer: seq<byte>)
    requires |trailer| == 4
    ensures Rd32(trailer, 0) == Crc(body) <==> Update(CRC32_INIT, body + trailer) == SR.Iterate(BitStep, 32, 0xFFFFFFFF)
  {
    var r, t := Update(CRC32_INIT, body), SR.Word(REGISTER, ToBits(trailer));
    RegisterLaws();
    ToBitsAppend(body, trailer);
    SR.Residue(REGISTER, CRC32_INIT, 0xFFFFFFFF, ToBits(body), ToBits(trailer));
    TrailerWord(trailer);
    if Rd32(trailer, 0) == Crc(body) {
      SameBits(t, Final(r));
    }
  }

  /** A burst of up to four bytes anywhere in a message that ends in its own CRC, that CRC included, is detected. */
  lemma BurstInCodewordDetected(a: seq<byte>, b: seq<byte>, at: nat)
    requires |a| >= 4 && a != b && SR.DifferWithin(a, b, at, 4)
    requires Rd32(a[|a| - 4..], 0) == Crc(a[..|a| - 4])
    ensures Rd32(b[|b| - 4..], 0) != Crc(b[..|b| - 4])
  {
    var n := |a| - 4;
    assert a[..n] + a[n..] == a && b[..n] + b[n..] == b;
    ResidueIffCrc(a[..n], a[n..]);
    ResidueIffCrc(b[..n], b[n..]);
    BurstInBits(a, b, at);
    RegisterLaws();
    SR.BurstChangesRegister(REGISTER, CRC32_INIT, ToBits(a), ToBits(b), at);
  }
}
