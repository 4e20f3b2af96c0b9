/** The frame both ends exchange: a 16-byte header, up to 4096 payload bytes, and a CRC-32 over both. */
module Frames {
  import opened Bytes
  import opened Crc32
  import SR = ShiftRegister

  const MAGIC: seq<byte> := [0x4E, 0x55, 0x52, 0x31]
  const RUNNER_VERSION: byte := 1
  const HEADER_SIZE: nat := 16
  const MAX_PAYLOAD: nat := 4096

  type Payload = p: seq<byte> | |p| <= MAX_PAYLOAD

  datatype Frame = Frame(version: byte, command: byte, flags: half, sequence: word, payload: Payload)

  function Header(f: Frame): (h: seq<byte>)
    ensures |h| == HEADER_SIZE
  {
    MAGIC + [f.version, f.command] + Le16(f.flags) + Le32(f.sequence) + Le32(|f.payload|)
  }

  function Body(f: Frame): seq<byte>
  {
    Header(f) + f.payload
  }

  /** The bytes of a frame on the wire. */
  function Encode(f: Frame): (s: seq<byte>)
    ensures |s| == HEADER_SIZE + |f.payload| + 4
  {
    Body(f) + Le32(Crc(Body(f)))
  }

  /** A number from its bytes, the least significant first. */
  function Number(b: seq<byte>): nat {
    if b == [] then 0 else b[0] as nat + 256 * Number(b[1..])
  }

  lemma NumberOf4(b: seq<byte>, w: word)
    requires b == Le32(w)
    ensures Number(b) == w
  {
    ReadLe32(w);
    assert b[1..][1..] == b[2..] && b[2..][1..] == b[3..] && b[3..][1..] == [];
    assert Number(b[3..]) == b[3] as nat;
    assert Number(b[2..]) == b[2] as nat + 256 * (b[3] as nat);
  }

  lemma NumberOf2(b: seq<byte>, h: half)
    requires b == Le16(h)
    ensures Number(b) == h
  {
    assert b[1..][1..] == [] && Number(b[1..]) == b[1] as nat;
  }

  lemma WireParts(f: Frame)
    ensures var s, n := Encode(f), |f.payload|;
      && |s| == n + 20 && s[..4] == MAGIC && s[4] == f.version && s[5] == f.command && s[6..8] == Le16(f.flags)
      && s[8..12] == Le32(f.sequence) && s[12..16] == Le32(n) && s[16..16 + n] == f.payload
      && s[16 + n..] == Le32(Crc(Body(f))) && s[..16 + n] == Body(f)
  {
    var s, h := Encode(f), Header(f);
    assert s[..16] == h && forall i :: 0 <= i < 16 ==> s[i] == h[i];
    assert h[6..8] == Le16(f.flags) && h[8..12] == Le32(f.sequence) && h[12..16] == Le32(|f.payload|);
  }

  /** The wire format, byte by byte: every number little-endian, the CRC over everything before it. */
  lemma WireLayout(f: Frame)
    ensures var s, n := Encode(f), |f.payload|;
      && |s| == n + 20 && s[..4] == [0x4E, 0x55, 0x52, 0x31] && s[4] == f.version && s[5] == f.command
      && Number(s[6..8]) == f.flags && Number(s[8..12]) == f.sequence && Number(s[12..16]) == n
      && s[16..16 + n] == f.payload && Number(s[16 + n..]) == Crc(s[..16 + n])
  {
    var s, n := Encode(f), |f.payload|;
    WireParts(f);
    NumberOf2(s[6..8], f.flags);
    NumberOf4(s[8..12], f.sequence);
    NumberOf4(s[12..16], n);
    NumberOf4(s[16 + n..], Crc(Body(f)));
  }

  // ---- reading a frame that starts at the front of a byte string ----

  predicate HasMagic(s: seq<byte>) {
    |s| >= 4 && s[..4] == MAGIC
  }

  function PayloadLength(s: seq<byte>): word
    requires |s| >= HEADER_SIZE
  {
    Rd32(s, 12)
  }

  function FrameLength(s: seq<byte>): nat
    requires |s| >= HEADER_SIZE
  {
    HEADER_SIZE + PayloadLength(s) + 4
  }

  predicate CrcMatches(s: seq<byte>)
    requires |s| >= HEADER_SIZE && |s| >= FrameLength(s)
  {
    var n := HEADER_SIZE + PayloadLength(s);
    Rd32(s, n) == Crc(s[..n])
  }

  function Decode(s: seq<byte>): Frame
    requires |s| >= HEADER_SIZE && PayloadLength(s) <= MAX_PAYLOAD && |s| >= FrameLength(s)
  {
    Frame(s[4], s[5], Rd16(s, 6), Rd32(s, 8), s[HEADER_SIZE..HEADER_SIZE + PayloadLength(s)])
  }

  /** `s` starts with a complete frame that the receiver accepts. */
  predicate StartsFrame(s: seq<byte>) {
    HasMagic(s) && |s| >= HEADER_SIZE && PayloadLength(s) <= MAX_PAYLOAD && |s| >= FrameLength(s) && CrcMatches(s)
  }

  lemma HeaderFields(f: Frame, s: seq<byte>)
    requires |s| >= HEADER_SIZE && s[..HEADER_SIZE] == Header(f)
    ensures HasMagic(s) && s[4] == f.version && s[5] == f.command
    ensures Rd16(s, 6) == f.flags && Rd32(s, 8) == f.sequence && PayloadLength(s) == |f.payload|
  {
  }

  /** A receiver that finds an encoded frame at the front of its stream reads back the frame that was sent. */
  lemma EncodeDecode(f: Frame, tail: seq<byte>)
    ensures StartsFrame(Encode(f) + tail) && FrameLength(Encode(f) + tail) == |Encode(f)|
    ensures Decode(Encode(f) + tail) == f
  {
    var s := Encode(f) + tail;
    assert s[..HEADER_SIZE] == Header(f);
    HeaderFields(f, s);
    var n := HEADER_SIZE + |f.payload|;
    assert s[..n] == Body(f);
    assert s[n..n + 4] == Le32(Crc(Body(f)));
    ReadSlice(s, n, Crc(Body(f)));
    assert s[HEADER_SIZE..n] == f.payload;
  }

  lemma HeaderOfDecoded(s: seq<byte>)
    requires HasMagic(s) && |s| >= HEADER_SIZE && PayloadLength(s) <= MAX_PAYLOAD && |s| >= FrameLength(s)
    ensures Body(Decode(s)) == s[..HEADER_SIZE + PayloadLength(s)]
  {
    var f := Decode(s);
    EncodeRead(s, 8);
    EncodeRead(s, 12);
    assert Le16(Rd16(s, 6)) == s[6..8];
    assert s[..16] == s[..4] + [s[4], s[5]] + s[6..8] + s[8..12] + s[12..16];
    assert Header(f) == s[..16];
  }

  /** The bytes taken for a frame are exactly the encoding of what was read: nothing in them is ignored. */
  lemma DecodeEncode(s: seq<byte>)
    requires StartsFrame(s)
    ensures Encode(Decode(s)) == s[..FrameLength(s)]
  {
    var n := HEADER_SIZE + PayloadLength(s);
    HeaderOfDecoded(s);
    EncodeRead(s, n);
    assert s[..n] + s[n..n + 4] == s[..n + 4];
  }

  lemma StartsAlike(a: seq<byte>, b: seq<byte>)
    requires |a| >= 4
    ensures HasMagic(a + b) == HasMagic(a)
    ensures |a| >= HEADER_SIZE ==> PayloadLength(a + b) == PayloadLength(a)
    ensures |a| >= HEADER_SIZE && |a| >= FrameLength(a) ==>
      CrcMatches(a + b) == CrcMatches(a) && (PayloadLength(a) <= MAX_PAYLOAD ==> Decode(a + b) == Decode(a))
  {
    assert (a + b)[..4] == a[..4];
    if |a| >= HEADER_SIZE && |a| >= FrameLength(a) {
      var n := HEADER_SIZE + PayloadLength(a);
      assert (a + b)[..n] == a[..n];
      assert (a + b)[HEADER_SIZE..n] == a[HEADER_SIZE..n];
    }
  }

  lemma CorruptedCodeword(f: Frame, s: seq<byte>, at: nat)
    requires s != Encode(f) && SR.DifferWithin(Encode(f), s, at, 4) && PayloadLength(s) == |f.payload|
    ensures |s| == FrameLength(s) && !CrcMatches(s)
  {
    var a, n := Encode(f), HEADER_SIZE + |f.payload|;
    EncodedCodeword(f);
    BurstInCodewordDetected(a, s, at);
    LastWord(s, n);
  }

  /** A frame on the wire ends in the CRC of what precedes it. */
  lemma EncodedCodeword(f: Frame)
    ensures var a := Encode(f); Rd32(a[|a| - 4..], 0) == Crc(a[..|a| - 4])
  {
    var a := Encode(f);
    ReadLe32(Crc(Body(f)));
    assert a[..|a| - 4] == Body(f) && a[|a| - 4..] == Le32(Crc(Body(f)));
  }

  lemma LastWord(s: seq<byte>, n: nat)
    requires |s| == n + 4
    ensures Rd32(s[n..], 0) == Rd32(s, n)
  {
  }

  /**
   A corrupted frame is rejected wherever a burst of up to four bytes hits the command, flags, sequence, payload or
   CRC, and whatever bytes follow it: as long as the length field arrives intact, no receiver takes it for a frame.
   */
  lemma CorruptedFrameRejected(f: Frame, s: seq<byte>, at: nat, tail: seq<byte>)
    requires s != Encode(f) && SR.DifferWithin(Encode(f), s, at, 4)
    requires PayloadLength(s) == |f.payload|
    ensures PayloadLength(s + tail) == |f.payload| && FrameLength(s + tail) == |s| && !CrcMatches(s + tail)
    ensures !StartsFrame(s + tail)
  {
    CorruptedCodeword(f, s, at);
    StartsAlike(s, tail);
  }

  // ---- the magic has no border ----

  /** The first place at which the magic occurs in `s`, or `|s|` when it does not. */
  function FirstMagic(s: seq<byte>): (i: nat)
    ensures i <= |s|
    ensures i < |s| ==> HasMagic(s[i..])
    ensures forall k :: 0 <= k < i ==> !HasMagic(s[k..])
  {
    if s == [] then 0
    else if HasMagic(s) then assert s[0..] == s; 0
    else
      var i := FirstMagic(s[1..]);
      assert forall k :: 0 < k <= |s| ==> s[k..] == s[1..][k - 1..];
      assert s[0..] == s;
      i + 1
  }

  predicate MagicFree(s: seq<byte>) {
    FirstMagic(s) == |s|
  }

  lemma MagicAt(s: seq<byte>, k: nat)
    requires k <= |s|
    ensures HasMagic(s[k..]) <==>
      k + 4 <= |s| && s[k] == MAGIC[0] && s[k + 1] == MAGIC[1] && s[k + 2] == MAGIC[2] && s[k + 3] == MAGIC[3]
  {
  }

  /** Noise without the magic in it cannot form one with the start of the frame that follows. */
  lemma NoiseThenMagic(noise: seq<byte>, s: seq<byte>)
    requires MagicFree(noise) && HasMagic(s)
    ensures FirstMagic(noise + s) == |noise|
  {
    var t := noise + s;
    assert t[|noise|..] == s;
    MagicAt(s, 0);
    assert s[0..] == s;
    forall k | 0 <= k < |noise|
      ensures !HasMagic(t[k..])
    {
      MagicAt(t, k);
      MagicAt(noise, k);
      assert t[|noise|] == s[0] == MAGIC[0];
      assert forall j :: 0 <= j < |noise| ==> t[j] == noise[j];
    }
  }
}
