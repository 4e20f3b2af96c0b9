/** The firmware's receiver: byte-wise synchronisation on the magic, then one frame, and what it takes for a command. */
module FirmwareParser {
  import opened Bytes
  import Crc32
  import opened Frames
  import opened Runner
  import opened HostStream
  import SR = ShiftRegister

  // ---- synchronisation ----

  /** Bytes consumed and resynchronisations counted. */
  datatype Synced = Starved | Synced(consumed: nat, resyncs: nat)

  function Behind(n: nat, r: nat, s: Synced): Synced {
    if s.Starved? then Starved else Synced(s.consumed + n, s.resyncs + r)
  }

  /** The matched prefix after one more byte; a mismatch is looked at again only as a possible first byte. */
  function Advance(matched: nat, b: byte): nat
    requires matched < 4
  {
    if b == MAGIC[matched] then matched + 1 else if b == MAGIC[0] then 1 else 0
  }

  function Sync(rx: seq<byte>, matched: nat): Synced
    requires matched <= 4
    decreases |rx|
  {
    if matched == 4 then Synced(0, 0)
    else if rx == [] then Starved
    else Behind(1, if rx[0] == MAGIC[matched] then 0 else 1, Sync(rx[1..], Advance(matched, rx[0])))
  }

  lemma FirstIs(s: seq<byte>, i: nat)
    requires i <= |s| && (i < |s| ==> HasMagic(s[i..])) && NoMagicBefore(s, i)
    ensures FirstMagic(s) == i
  {
  }

  lemma DropTwice<T>(s: seq<T>, k: nat, i: nat)
    requires k + i <= |s|
    ensures s[k..][i..] == s[k + i..]
  {
  }

  lemma NoMagicFurther(s: seq<byte>, k: nat, i: nat)
    requires k + i <= |s| && NoMagicBefore(s, k) && NoMagicBefore(s[k..], i)
    ensures NoMagicBefore(s, k + i)
  {
    forall j | 0 <= j < k + i
      ensures !HasMagic(s[j..])
    {
      if j >= k {
        DropTwice(s, k, j - k);
      }
    }
  }

  lemma SameMagic(s: seq<byte>, k: nat, i: nat)
    requires k + i <= |s|
    ensures HasMagic(s[k..][i..]) <==> HasMagic(s[k + i..])
  {
    DropTwice(s, k, i);
  }

  lemma MagicAfter(s: seq<byte>, k: nat)
    requires k <= |s| && NoMagicBefore(s, k)
    ensures FirstMagic(s) == k + FirstMagic(s[k..])
  {
    var i := FirstBehind(s, k);
    FirstIs(s, k + i);
  }

  lemma FirstBehind(s: seq<byte>, k: nat) returns (i: nat)
    requires k <= |s| && NoMagicBefore(s, k)
    ensures i == FirstMagic(s[k..]) && k + i <= |s| && (k + i < |s| ==> HasMagic(s[k + i..])) && NoMagicBefore(s, k + i)
  {
    i := FirstMagic(s[k..]);
    SameMagic(s, k, i);
    NoMagicFurther(s, k, i);
  }

  /** The matched prefix and what follows it, seen as one byte string. */
  function Seen(matched: nat, rx: seq<byte>): (s: seq<byte>)
    requires matched <= 4
    ensures |s| == matched + |rx|
  {
    MAGIC[..matched] + rx
  }

  /** No magic starts inside a matched prefix that the next byte does not continue. */
  lemma MismatchEndsPrefix(matched: nat, rx: seq<byte>)
    requires matched < 4 && rx != [] && rx[0] != MAGIC[matched]
    ensures forall i :: 0 <= i < matched ==> !HasMagic(Seen(matched, rx)[i..])
    ensures rx[0] != MAGIC[0] ==> !HasMagic(Seen(matched, rx)[matched..])
  {
    var s := Seen(matched, rx);
    forall i | 0 <= i < matched
      ensures !HasMagic(s[i..])
    {
      MagicAt(s, i);
    }
    MagicAt(s, matched);
    assert s[matched] == rx[0];
  }

  lemma MatchExtends(matched: nat, rx: seq<byte>)
    requires matched < 4 && rx != [] && rx[0] == MAGIC[matched]
    ensures Seen(matched, rx) == Seen(matched + 1, rx[1..])
  {
  }

  lemma MismatchRestarts(matched: nat, rx: seq<byte>)
    requires matched < 4 && rx != [] && rx[0] != MAGIC[matched]
    ensures var next := Advance(matched, rx[0]);
      FirstMagic(Seen(matched, rx)) == matched + 1 - next + FirstMagic(Seen(next, rx[1..]))
  {
    MismatchEndsPrefix(matched, rx);
    var s := Seen(matched, rx);
    if rx[0] == MAGIC[0] {
      MagicAfter(s, matched);
      assert s[matched..] == Seen(1, rx[1..]);
    } else {
      MagicAfter(s, matched + 1);
      assert s[matched + 1..] == Seen(0, rx[1..]);
    }
  }

  /** The one-byte fallback is as good as full matching, because the magic has no border. */
  lemma {:induction false} SyncFindsMagic(rx: seq<byte>, matched: nat)
    requires matched <= 4
    ensures var r, s := Sync(rx, matched), Seen(matched, rx);
      && (r.Starved? <==> FirstMagic(s) == |s|)
      && (r.Synced? ==> r.consumed + matched == FirstMagic(s) + 4)
    decreases |rx|
  {
    var s := Seen(matched, rx);
    if matched == 4 {
      assert s[..4] == MAGIC;
    } else if rx == [] {
      forall k | 0 <= k <= |s|
        ensures !HasMagic(s[k..])
      {
      }
    } else {
      SyncFindsMagic(rx[1..], Advance(matched, rx[0]));
      if rx[0] == MAGIC[matched] {
        MatchExtends(matched, rx);
      } else {
        MismatchRestarts(matched, rx);
      }
    }
  }

  /** sync_to_magic stops exactly at the end of the first magic in the stream, and waits when there is none. */
  lemma SyncStopsAtFirstMagic(rx: seq<byte>)
    ensures Sync(rx, 0).Starved? <==> MagicFree(rx)
    ensures Sync(rx, 0).Synced? ==> Sync(rx, 0).consumed == FirstMagic(rx) + 4
  {
    SyncFindsMagic(rx, 0);
    assert Seen(0, rx) == rx;
  }

  /** Every resynchronisation costs at least a byte and at most four, three of which had matched. */
  lemma {:induction false} SyncCosts(rx: seq<byte>, matched: nat)
    requires matched <= 4 && Sync(rx, matched).Synced?
    ensures var r := Sync(rx, matched);
      r.resyncs <= r.consumed + matched - 4 <= 4 * r.resyncs && (r.resyncs == 0 ==> r.consumed + matched == 4)
    decreases |rx|
  {
    if matched < 4 {
      SyncCosts(rx[1..], Advance(matched, rx[0]));
    }
  }

  /** Noise without the magic's first byte costs one resynchronisation a byte. */
  lemma {:induction false} PlainNoiseCosts(noise: seq<byte>, s: seq<byte>)
    requires HasMagic(s) && forall i :: 0 <= i < |noise| ==> noise[i] != MAGIC[0]
    ensures Sync(noise + s, 0) == Synced(|noise| + 4, |noise|)
    decreases |noise|
  {
    if noise == [] {
      assert noise + s == s;
      assert s[1..][0] == s[1] && s[1..][1..] == s[2..] && s[2..][1..] == s[3..] && s[3..][1..] == s[4..];
      assert s[..4] == MAGIC;
      assert Sync(s[4..], 4) == Synced(0, 0) && Sync(s[3..], 3) == Synced(1, 0) && Sync(s[2..], 2) == Synced(2, 0);
    } else {
      assert (noise + s)[1..] == noise[1..] + s && (noise + s)[0] == noise[0];
      PlainNoiseCosts(noise[1..], s);
    }
  }

  /**
   The resynchronisations the firmware counts in front of a frame: none if the magic comes first, else between one for
   every four bytes skipped and one for each, and one for each if none of them is the magic's first byte.
   */
  lemma ResyncsCountNoise(rx: seq<byte>)
    requires ParseOne(rx).Parsed?
    ensures var r, n := ParseOne(rx).resyncs, FirstMagic(rx);
      && r <= n <= 4 * r
      && ((forall i :: 0 <= i < n ==> rx[i] != 0x4E) ==> r == n)
  {
    var n := FirstMagic(rx);
    SyncStopsAtFirstMagic(rx);
    SyncCosts(rx, 0);
    if forall i :: 0 <= i < n ==> rx[i] != 0x4E {
      assert rx == rx[..n] + rx[n..];
      PlainNoiseCosts(rx[..n], rx[n..]);
    }
  }

  // ---- one frame ----

  /** What one call of the parser takes off the stream; it blocks when the bytes run out. */
  datatype Parsed = Blocked | Parsed(consumed: nat, resyncs: nat, heard: Heard)

  /** A complete frame is a command, if its CRC is right. */
  function Checked(s: seq<byte>): Heard
    requires |s| >= HEADER_SIZE && PayloadLength(s) <= MAX_PAYLOAD && |s| >= FrameLength(s)
  {
    if CrcMatches(s) then Request(s[5], Rd32(s, 8), Decode(s).payload) else Corrupt(s[5], Rd32(s, 8))
  }

  /** The frame at the front of a byte string that starts with the magic. */
  function ParseAt(s: seq<byte>): Parsed
    requires HasMagic(s)
  {
    if |s| < HEADER_SIZE then Blocked
    else if s[4] != RUNNER_VERSION then Parsed(HEADER_SIZE, 0, WrongVersion(s[5], Rd32(s, 8)))
    else if PayloadLength(s) > MAX_PAYLOAD then Parsed(HEADER_SIZE, 0, TooLong(s[5], Rd32(s, 8)))
    else if |s| < FrameLength(s) then Blocked
    else Parsed(FrameLength(s), 0, Checked(s))
  }

  function Skipped(n: nat, r: nat, p: Parsed): Parsed {
    if p.Blocked? then Blocked else Parsed(p.consumed + n, p.resyncs + r, p.heard)
  }

  /** parse_one_frame */
  function ParseOne(rx: seq<byte>): Parsed {
    if MagicFree(rx) then Blocked
    else
      SyncStopsAtFirstMagic(rx);
      Skipped(FirstMagic(rx), Sync(rx, 0).resyncs, ParseAt(rx[FirstMagic(rx)..]))
  }

  /** Everything consumed came from the stream, and every call consumes something. */
  lemma ParseConsumes(rx: seq<byte>)
    ensures ParseOne(rx).Parsed? ==> 0 < ParseOne(rx).consumed <= |rx|
  {
  }

  /** The main loop: every frame heard until the stream runs dry. */
  function HearAll(rx: seq<byte>): seq<Heard>
    decreases |rx|
  {
    ParseConsumes(rx);
    var p := ParseOne(rx);
    if p.Blocked? then [] else [p.heard] + HearAll(rx[p.consumed..])
  }

  // ---- what the host builds, the firmware hears ----

  lemma HearsFrame(f: Frame, tail: seq<byte>)
    requires f.version == RUNNER_VERSION
    ensures HasMagic(Encode(f) + tail)
    ensures ParseAt(Encode(f) + tail) == Parsed(|Encode(f)|, 0, Request(f.command, f.sequence, f.payload))
  {
    EncodeDecode(f, tail);
  }

  /** A frame behind noise that holds no magic is heard with its command, sequence and payload. */
  lemma HearsThroughNoise(noise: seq<byte>, f: Frame, tail: seq<byte>)
    requires MagicFree(noise) && f.version == RUNNER_VERSION
    ensures var p := ParseOne(noise + (Encode(f) + tail));
      && p.Parsed? && p.heard == Request(f.command, f.sequence, f.payload)
      && p.consumed == |noise| + |Encode(f)|
  {
    HearsFrame(f, tail);
    var s := Encode(f) + tail;
    NoiseThenMagic(noise, s);
    assert (noise + s)[|noise|..] == s;
  }

  /** The 16 header bytes of a frame, then its payload and CRC. */
  lemma HeaderThenRest(f: Frame, tail: seq<byte>)
    ensures var s := Encode(f) + tail;
      && HasMagic(s) && |s| >= 20 && s[4] == f.version && s[5] == f.command && Rd32(s, 8) == f.sequence
      && PayloadLength(s) == |f.payload| && s[HEADER_SIZE..] == f.payload + Le32(Crc32.Crc(Body(f))) + tail
  {
    var s := Encode(f) + tail;
    assert s[..HEADER_SIZE] == Header(f);
    HeaderFields(f, s);
    assert s == Header(f) + (f.payload + Le32(Crc32.Crc(Body(f))) + tail);
  }

  /**
   A frame of another version costs its header: it is reported with its command and number, and everything behind the
   sixteen header bytes, its payload and CRC included, is searched for the next magic.
   */
  lemma OtherVersionCostsHeader(noise: seq<byte>, f: Frame, tail: seq<byte>)
    requires MagicFree(noise) && f.version != RUNNER_VERSION
    ensures HearAll(noise + (Encode(f) + tail))
         == [WrongVersion(f.command, f.sequence)] + HearAll(f.payload + Le32(Crc32.Crc(Body(f))) + tail)
  {
    var s := Encode(f) + tail;
    HeaderThenRest(f, tail);
    HeaderCosts(noise, s, WrongVersion(f.command, f.sequence));
  }

  lemma HeaderCosts(noise: seq<byte>, s: seq<byte>, h: Heard)
    requires MagicFree(noise) && HasMagic(s) && |s| >= HEADER_SIZE && ParseAt(s) == Parsed(HEADER_SIZE, 0, h)
    ensures HearAll(noise + s) == [h] + HearAll(s[HEADER_SIZE..])
  {
    NoiseThenMagic(noise, s);
    assert (noise + s)[|noise|..] == s;
    HearNext(noise + s);
    assert (noise + s)[|noise| + HEADER_SIZE..] == s[HEADER_SIZE..];
  }

  /** So does a header that announces more than 4096 payload bytes, whatever follows it. */
  lemma LongFrameCostsHeader(noise: seq<byte>, s: seq<byte>)
    requires MagicFree(noise) && HasMagic(s) && |s| >= HEADER_SIZE && s[4] == RUNNER_VERSION && Rd32(s, 12) > 4096
    ensures HearAll(noise + s) == [TooLong(s[5], Rd32(s, 8))] + HearAll(s[16..])
  {
    HeaderCosts(noise, s, TooLong(s[5], Rd32(s, 8)));
  }

  lemma FrontSurvives(f: Frame, s: seq<byte>, at: nat)
    requires at >= 5 && SR.DifferWithin(Encode(f), s, at, 4)
    ensures |s| >= 20 && s[..4] == MAGIC && s[4] == f.version
  {
    var a := Encode(f);
    assert a[..4] == MAGIC && a[4] == f.version;
    assert s[..4] == a[..4] && s[4] == a[4];
  }

  /**
   A frame corrupted by a burst of up to four bytes behind its version, its length field intact, is refused for its CRC
   and never taken for a command, whatever follows it on the line.
   */
  lemma CorruptionIsRefused(f: Frame, s: seq<byte>, at: nat, tail: seq<byte>)
    requires f.version == RUNNER_VERSION && at >= 5 && s != Encode(f) && SR.DifferWithin(Encode(f), s, at, 4)
    requires PayloadLength(s) == |f.payload|
    ensures HasMagic(s + tail) && ParseAt(s + tail) == Parsed(|s|, 0, Corrupt(s[5], Rd32(s, 8)))
  {
    FrontSurvives(f, s, at);
    CorruptedFrameRejected(f, s, at, tail);
    var z := s + tail;
    assert z[..4] == s[..4] && z[4] == s[4] && z[5] == s[5] && Rd32(z, 8) == Rd32(s, 8);
  }

  function Requests(parts: seq<Spoken>): (rs: seq<Heard>)
    ensures |rs| == |parts|
  {
    if parts == [] then []
    else [Request(parts[0].frame.command, parts[0].frame.sequence, parts[0].frame.payload)] + Requests(parts[1..])
  }

  predicate Utterable(parts: seq<Spoken>) {
    forall i :: 0 <= i < |parts| ==> MagicFree(parts[i].noise) && parts[i].frame.version == RUNNER_VERSION
  }

  /** Any number of frames, each behind noise of its own, is heard as exactly those commands, in order. */
  lemma {:induction false} HearsEveryFrame(parts: seq<Spoken>)
    requires Utterable(parts)
    ensures HearAll(Stream(parts)) == Requests(parts)
    decreases |parts|
  {
    if parts != [] {
      var p, tail := parts[0], Stream(parts[1..]);
      HearsEveryFrame(parts[1..]);
      HearsThroughNoise(p.noise, p.frame, tail);
      HearsStep(p.noise, p.frame, tail);
      Regroup(p.noise, Encode(p.frame), tail);
    }
  }

  lemma HearsStep(noise: seq<byte>, f: Frame, tail: seq<byte>)
    requires MagicFree(noise) && f.version == RUNNER_VERSION
    ensures HearAll(noise + (Encode(f) + tail)) == [Request(f.command, f.sequence, f.payload)] + HearAll(tail)
  {
    var rx := noise + (Encode(f) + tail);
    HearsThroughNoise(noise, f, tail);
    HearNext(rx);
    Regroup(noise, Encode(f), tail);
    assert rx[|noise| + |Encode(f)|..] == tail;
  }

  lemma HearNext(rx: seq<byte>)
    ensures var p := ParseOne(rx);
      p.Parsed? ==> 0 < p.consumed <= |rx| && HearAll(rx) == [p.heard] + HearAll(rx[p.consumed..])
  {
    ParseConsumes(rx);
  }
}
