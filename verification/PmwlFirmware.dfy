/**
 The firmware's own reading of a PMWL blob, in 32-bit arithmetic that wraps, and its agreement with the host's parser.
 */
module PmwlFirmware {
  import opened Bytes
  import opened Pmwl

  /** The bytes of staging the firmware looks at before it trusts anything. */
  const HEADER_WINDOW: nat := 256

  /**
   What the firmware accepts, in the host's terms: the header in the staging window parses and names its own length.
   */
  predicate Accepted(s: seq<byte>, modelTotal: word) {
    ParseHeader(s).Ok? && ParseHeader(s).value.totalLen == modelTotal
  }

  /** The check of one IO entry as written: differences of unsigned words, guarded so that none wraps. */
  predicate EntryRefused(arenaOff: word, len: word, dataOff: word, arena: word, total: word) {
    len > arena || arenaOff > Sub32(arena, len) || len > total || dataOff > Sub32(total, len)
  }

  /** The guarded check refuses exactly the tensors that do not fit. */
  lemma EntryCheckIsExact(t: Tensor, arena: word, total: word)
    ensures EntryRefused(t.arenaOff, t.len, t.dataOff, arena, total) <==> !InBounds(t, arena, total)
  {
  }

  predicate CountsRefused(nIn: word, nOut: word) {
    nIn < 1 || nOut < 1 || nOut > IO_MAX || nIn > Sub32(IO_MAX, nOut)
  }

  lemma CountCheckIsExact(nIn: word, nOut: word)
    ensures CountsRefused(nIn, nOut) <==> nIn < 1 || nOut < 1 || nIn + nOut > IO_MAX
  {
  }

  /** The words of the staging window copied into a header array, the words a version does not carry set to OFF. */
  method ReadHeader(s: seq<byte>) returns (h: array<word>)
    requires |s| >= HEADER_WINDOW
    ensures fresh(h) && h.Length == 32 && h[..16] == ReadWords(s, 0, HEADER_WORDS)
    ensures 1 <= h[1] <= 4 ==> h[16..] == ReadKnobs(s, h[1])
  {
    h := new word[32](i => OFF);
    CopyWords(h, 0, s, 0, 16);
    ghost var first := h[..16];
    assert h[16..] == Offs(KNOB_WORDS);
    var n := if h[1] >= 3 then 16 else if h[1] >= 2 then 8 else 0;
    CopyWords(h, 16, s, 64, n);
    assert h[..16] == first;
    assert h[16..] == ReadWords(s, 64, n) + Offs(KNOB_WORDS - n);
    if h[1] == 2 {
      h[23] := OFF;
    }
  }

  /** memcpy of `n` words from the staging window. */
  method CopyWords(dst: array<word>, at: nat, s: seq<byte>, from: nat, n: nat)
    requires at + n <= dst.Length && from + 4 * n <= |s|
    modifies dst
    ensures dst[..] == old(dst[..at]) + ReadWords(s, from, n) + old(dst[at + n..])
  {
    ghost var was := dst[..];
    for i := 0 to n
      invariant dst[..] == was[..at] + ReadWords(s, from, i) + was[at + i..]
    {
      WordWritten(was, at, s, from, i);
      dst[at + i] := Rd32(s, from + 4 * i);
    }
  }

  lemma WordWritten(was: seq<word>, at: nat, s: seq<byte>, from: nat, i: nat)
    requires at + i < |was| && from + 4 * (i + 1) <= |s|
    ensures (was[..at] + ReadWords(s, from, i) + was[at + i..])[at + i := Rd32(s, from + 4 * i)]
         == was[..at] + ReadWords(s, from, i + 1) + was[at + i + 1..]
  {
    assert ReadWords(s, from, i + 1) == ReadWords(s, from, i) + [Rd32(s, from + 4 * i)];
  }

  /** The two lists of a one-in, one-out blob, made of the header's own words. */
  lemma HeaderEntries(t: seq<word>, h: seq<word>)
    requires |t| == 32 && |h| >= 16 && t[2..8] == h[8..14]
    ensures Entries(t, 0, 1) == [Tensor(h[8], h[9], h[10])] && Entries(t, 1, 1) == [Tensor(h[11], h[12], h[13])]
  {
    assert forall i :: 0 <= i < 6 ==> t[2..8][i] == t[i + 2] && h[8..14][i] == h[i + 8];
    var copied := h[8..14];
    assert t[2] == copied[0] && t[3] == copied[1] && t[4] == copied[2];
    assert t[5] == copied[3] && t[6] == copied[4] && t[7] == copied[5];
    assert Entries(t, 0, 1)[0] == Entry(t, 0) && Entries(t, 1, 1)[0] == Entry(t, 1);
  }

  /** The host's view of the header's first tensors against those of a table. */
  lemma FirstEntries(s: seq<byte>, h: seq<word>, t: seq<word>)
    requires |h| == HEADER_WORDS && h[1] == 4 && |s| >= HEADER_WINDOW && t == ReadWords(s, 4 * IO_WORD, IO_WORDS)
    ensures CountsRefused(t[0], t[1]) ==> ReadTable(s, h).Err?
    ensures !CountsRefused(t[0], t[1]) ==> t[0] >= 1 && t[1] >= 1 && t[0] + t[1] <= IO_MAX
    ensures !CountsRefused(t[0], t[1]) ==>
      var e := 2 + 3 * t[0];
      ReadTable(s, h) == if t[2] != h[8] || t[3] != h[9] || t[4] != h[10]
                            || t[e] != h[11] || t[e + 1] != h[12] || t[e + 2] != h[13]
                         then Err(FirstEntryDiffers) else Ok((Entries(t, 0, t[0]), Entries(t, t[0], t[1])))
  {
  }

  /** What ReadIo leaves: the host's tensor lists, or a refusal. */
  ghost predicate IoRead(ok: bool, s: seq<byte>, h: seq<word>, io: seq<word>)
    requires |h| == HEADER_WORDS && |io| == 32
  {
    && (ok <==> ReadTable(s, h).Ok?)
    && (ok ==> io[0] >= 1 && io[1] >= 1 && io[0] + io[1] <= IO_MAX
               && ReadTable(s, h).value == (Entries(io, 0, io[0]), Entries(io, io[0], io[1])))
  }

  /** The checks on the table of version 4. */
  method CheckTable(s: seq<byte>, h: array<word>, io: array<word>) returns (ok: bool)
    requires |s| >= HEADER_WINDOW && h.Length == io.Length == 32 && h[1] == 4
    requires io[..] == ReadWords(s, 4 * IO_WORD, IO_WORDS)
    ensures IoRead(ok, s, h[..16], io[..])
  {
    ghost var head, t := h[..16], io[..];
    FirstEntries(s, head, t);
    if CountsRefused(io[0], io[1]) {
      return false;
    }
    EntryIndex(io[0]);
    var e := Add32(2, Mul32(3, io[0]));
    assert t[2] == io[2] && t[3] == io[3] && t[4] == io[4] && t[e] == io[e] && t[e + 1] == io[e + 1];
    assert t[e + 2] == io[e + 2];
    ok := !(io[2] != h[8] || io[3] != h[9] || io[4] != h[10]
            || io[e] != h[11] || io[e + 1] != h[12] || io[e + 2] != h[13]);
  }

  /** No index into the table wraps. */
  lemma EntryIndex(k: word)
    requires k <= IO_MAX
    ensures Add32(2, Mul32(3, k)) == 2 + 3 * k
  {
  }

  /** The header's own IFM and OFM as a table of two. */
  method TableOfHeader(h: array<word>, io: array<word>)
    requires h.Length == io.Length == 32 && h != io
    modifies io
    ensures io[0] == 1 && io[1] == 1 && io[2..8] == h[8..14]
  {
    io[0], io[1] := 1, 1;
    for i := 0 to 6
      invariant io[0] == 1 && io[1] == 1
      invariant io[2..2 + i] == h[8..8 + i]
    {
      io[2 + i] := h[8 + i];
      assert io[2..2 + i + 1] == io[2..2 + i] + [io[2 + i]] && h[8..8 + i + 1] == h[8..8 + i] + [h[8 + i]];
    }
  }

  /** The IO table of version 4, or one made of the header's own words. */
  method ReadIo(s: seq<byte>, h: array<word>) returns (ok: bool, io: array<word>)
    requires |s| >= HEADER_WINDOW && h.Length == 32
    ensures fresh(io) && io.Length == 32 && IoRead(ok, s, h[..16], io[..])
  {
    io := new word[32](i => 0);
    if h[1] == 4 {
      CopyWords(io, 0, s, 128, 32);
      ok := CheckTable(s, h, io);
    } else {
      TableOfHeader(h, io);
      HeaderEntries(io[..], h[..]);
      ok := true;
    }
  }

  lemma BoundsOfSum(a: seq<Tensor>, b: seq<Tensor>, arena: word, total: word)
    ensures AllInBounds(a + b, arena, total) <==> AllInBounds(a, arena, total) && AllInBounds(b, arena, total)
  {
    assert forall i :: 0 <= i < |a| ==> (a + b)[i] == a[i];
    assert forall i :: 0 <= i < |b| ==> (a + b)[|a| + i] == b[i];
    if AllInBounds(a + b, arena, total) {
      forall i | 0 <= i < |b| ensures InBounds(b[i], arena, total) { assert InBounds((a + b)[|a| + i], arena, total); }
    }
  }

  lemma EntriesOfSum(t: seq<word>, m: nat, n: nat)
    requires 3 * (m + n) + 2 <= |t|
    ensures Entries(t, 0, m + n) == Entries(t, 0, m) + Entries(t, m, n)
  {
  }

  lemma OneMore(t: seq<word>, k: nat, n: nat, arena: word, total: word)
    requires k < n && 3 * n + 2 <= |t|
    ensures AllInBounds(Entries(t, 0, k + 1), arena, total)
       <==> AllInBounds(Entries(t, 0, k), arena, total) && InBounds(Entry(t, k), arena, total)
    ensures !InBounds(Entry(t, k), arena, total) ==> !AllInBounds(Entries(t, 0, n), arena, total)
  {
    assert Entries(t, 0, k + 1) == Entries(t, 0, k) + [Entry(t, k)];
    BoundsOfSum(Entries(t, 0, k), [Entry(t, k)], arena, total);
    assert Entries(t, 0, n)[k] == Entry(t, k);
  }

  /** Every tensor inside the arena, every data block inside the blob. */
  method CheckEntries(io: array<word>, arena: word, total: word) returns (ok: bool)
    requires io.Length == 32 && io[0] + io[1] <= IO_MAX
    ensures ok
       <==> AllInBounds(Entries(io[..], 0, io[0]), arena, total)
            && AllInBounds(Entries(io[..], io[0], io[1]), arena, total)
  {
    var n := Add32(io[0], io[1]);
    ghost var t := io[..];
    EntriesOfSum(t, t[0], t[1]);
    BoundsOfSum(Entries(t, 0, t[0]), Entries(t, t[0], t[1]), arena, total);
    var k := 0;
    while k < n
      invariant k <= n && AllInBounds(Entries(t, 0, k), arena, total)
    {
      EntryIndex(k);
      var e := Add32(2, Mul32(3, k));
      OneMore(t, k, n, arena, total);
      EntryCheckIsExact(Entry(t, k), arena, total);
      if EntryRefused(io[e], io[e + 1], io[e + 2], arena, total) {
        return false;
      }
      k := k + 1;
    }
    return true;
  }

  /** The firmware's arrays as a header. */
  function HeaderOf(h: seq<word>, io: seq<word>): Header
    requires |h| == 32 && |io| == 32 && io[0] + io[1] <= IO_MAX
  {
    Header(h[1], h[2], h[3], h[4], h[5], h[6], h[7], h[14], h[15], h[16..],
           Entries(io, 0, io[0]), Entries(io, io[0], io[1]))
  }

  /**
   The firmware's acceptance: it takes exactly the staged headers that the host's parser takes and that name the
   uploaded length, for all 32-bit words, and then holds the same header words, knobs and tensors.
   */
  method AcceptBlob(s: seq<byte>, modelTotal: word) returns (ok: bool, h: array<word>, io: array<word>)
    requires |s| >= HEADER_WINDOW
    ensures ok <==> Accepted(s, modelTotal)
    ensures fresh(h) && fresh(io) && h.Length == 32 && io.Length == 32 && h != io
    ensures ok ==> io[0] + io[1] <= IO_MAX
    ensures ok ==> ParseHeader(s).value == HeaderOf(h[..], io[..])
  {
    h := ReadHeader(s);
    io := new word[32](i => 0);
    if h[0] != PMWL_MAGIC || h[1] < 1 || h[1] > 4 || h[15] != modelTotal {
      return false, h, io;
    }
    ok, io := ReadIo(s, h);
    if ok {
      ok := CheckEntries(io, h[6], h[15]);
    }
  }

  // ---- agreement with the host ----

  /** A parse depends only on the header bytes its version carries. */
  lemma ParseDependsOnHeader(a: seq<byte>, b: seq<byte>, n: nat)
    requires |a| >= 64 && n == HeaderBytes(ReadWords(a, 0, HEADER_WORDS)[1]) <= |a| && n <= |b| && a[..n] == b[..n]
    ensures ParseHeader(a) == ParseHeader(b)
  {
    var v := ReadWords(a, 0, HEADER_WORDS)[1];
    PrefixWords(a, a[..n], 0, HEADER_WORDS);
    PrefixWords(b, a[..n], 0, HEADER_WORDS);
    PrefixWords(a, a[..n], 64, KnobsCarried(v));
    PrefixWords(b, a[..n], 64, KnobsCarried(v));
    if v == 4 {
      PrefixWords(a, a[..n], 4 * IO_WORD, IO_WORDS);
      PrefixWords(b, a[..n], 4 * IO_WORD, IO_WORDS);
    }
  }

  /** `window` is what the firmware finds in staging once `blob` has been uploaded there. */
  ghost predicate StagedAs(blob: seq<byte>, window: seq<byte>) {
    |window| >= HEADER_WINDOW && forall i :: 0 <= i < |blob| && i < |window| ==> window[i] == blob[i]
  }

  /**
   Host and firmware agree: for a blob long enough to hold the header its version promises, the firmware accepts what
   was uploaded exactly when parse_header does and the length word is right, and both read the same header.
   */
  lemma FirmwareAgreesWithHost(blob: seq<byte>, window: seq<byte>)
    requires StagedAs(blob, window) && 64 <= |blob| < U32
    requires HeaderBytes(ReadWords(blob, 0, HEADER_WORDS)[1]) <= |blob|
    ensures Accepted(window, |blob|) <==> ParseHeader(blob).Ok? && ParseHeader(blob).value.totalLen == |blob|
    ensures ParseHeader(window) == ParseHeader(blob)
  {
    var n := HeaderBytes(ReadWords(blob, 0, HEADER_WORDS)[1]);
    assert blob[..n] == window[..n];
    ParseDependsOnHeader(blob, window, n);
  }

  lemma VersionIsItsWord(blob: seq<byte>)
    requires ParseHeader(blob).Ok?
    ensures |blob| >= 64 && ParseHeader(blob).value.version == ReadWords(blob, 0, HEADER_WORDS)[1]
  {
  }

  lemma AcceptedOnceParsed(blob: seq<byte>, window: seq<byte>)
    requires ParseHeader(blob).Ok? && ParseHeader(blob).value.totalLen == |blob|
    requires |blob| >= HeaderBytes(ParseHeader(blob).value.version)
    requires StagedAs(blob, window) && |blob| < U32
    ensures Accepted(window, |blob|) && ParseHeader(window) == ParseHeader(blob)
  {
    VersionIsItsWord(blob);
    FirmwareAgreesWithHost(blob, window);
  }

  /** Everything the host packs, the firmware accepts once it is uploaded, and reads as the host does. */
  lemma FirmwareAcceptsPacked(info: Info, ifms: seq<seq<byte>>, golds: seq<seq<byte>>, given: seq<int>, blob: seq<byte>,
                              window: seq<byte>)
    requires Packs(info, ifms, golds, given, blob) && StagedAs(blob, window) && |blob| < U32
    ensures Accepted(window, |blob|) && ParseHeader(window) == ParseHeader(blob)
  {
    PackThenParse(info, ifms, golds, given, blob);
    AcceptedOnceParsed(blob, window);
  }
}
