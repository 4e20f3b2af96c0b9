/**
 Where an accepted PMWL blob is put before the NPU starts: a bump allocation that follows the port of each region, and
 the memory it leaves for the NPU to find.
 */
module Placement {
  import opened Bytes
  import opened BitOps
  import opened Memory
  import opened Pmwl

  const REGIONCFG: nat := 1
  const QCONFIG: nat := 2
  const MEM_ATTR0: nat := 3
  const FAST_BASE: nat := 10
  const TA_PROFILE: nat := 11
  const TA_PROFILE_COUNT: word := 2
  const OFM_POISON: byte := 0xA5

  type Knobs = k: seq<word> | |k| == KNOB_WORDS witness Offs(KNOB_WORDS)

  // ---- ports ----

  /** A MEM_ATTR word sends traffic to the EXT port by default, or as its bit 2 says. */
  predicate IsExt(k: Knobs, attr: nat)
    requires attr < 4
  {
    k[MEM_ATTR0 + attr] == OFF || BitAt(k[MEM_ATTR0 + attr], 2)
  }

  /** (regioncfg >> (2 * region)) & 3 */
  function AttrOf(regioncfg: word, region: nat): (a: nat)
    ensures a < 4
  {
    if region == 0 then regioncfg % 4 else AttrOf(regioncfg / 4, region - 1)
  }

  predicate RegionExt(k: Knobs, region: nat) {
    k[REGIONCFG] == OFF || IsExt(k, AttrOf(k[REGIONCFG], region))
  }

  predicate CmdExt(k: Knobs) {
    k[QCONFIG] == OFF || IsExt(k, AttrOf(k[QCONFIG], 0))
  }

  /** A region's port, in the words of the register: two bits of REGIONCFG pick the MEM_ATTR whose bit 2 decides. */
  lemma PortOfRegion(k: Knobs, region: nat)
    requires region < 3
    ensures var a := k[1] / (if region == 0 then 1 else if region == 1 then 4 else 16) % 4;
      RegionExt(k, region) <==> k[1] == OFF || k[3 + a] == OFF || k[3 + a] / 4 % 2 == 1
    ensures var a := k[2] % 4; CmdExt(k) <==> k[2] == OFF || k[3 + a] == OFF || k[3 + a] / 4 % 2 == 1
  {
    assert k[1] / 4 / 4 == k[1] / 16;
    assert AttrOf(k[1], 0) == k[1] % 4 && AttrOf(k[1], 1) == k[1] / 4 % 4 && AttrOf(k[1], 2) == k[1] / 16 % 4 by {
      assert AttrOf(k[1], 2) == AttrOf(k[1] / 4, 1) == AttrOf(k[1] / 4 / 4, 0);
      assert AttrOf(k[1], 1) == AttrOf(k[1] / 4, 0);
    }
    forall w: nat
      ensures BitAt(w, 2) <==> w / 4 % 2 == 1
    {
      BitIsDigit(w, 2);
      assert Pow2(2) == 4;
    }
  }

  const ATTR_SRAM: word := 0
  const ATTR_EXT: word := 2

  function PortAttr(ext: bool): word { if ext then ATTR_EXT else ATTR_SRAM }

  /** The three port words the host's knobs() sets for a choice of ports. */
  function PortKnobs(k: Knobs, cmd: bool, cst: bool, arena: bool, fast: bool): Knobs {
    var regioncfg: word := PortAttr(cst) + 4 * PortAttr(arena) + 16 * PortAttr(fast) + 64 * ATTR_SRAM;
    k[REGIONCFG := regioncfg][QCONFIG := PortAttr(cmd)]
     [MEM_ATTR0 := 0][MEM_ATTR0 + 1 := 0][MEM_ATTR0 + 2 := 4][MEM_ATTR0 + 3 := 4]
  }

  /** The ports the host asks for are the ports the firmware places by. */
  lemma PortsHonoured(k: Knobs, cmd: bool, cst: bool, arena: bool, fast: bool)
    ensures var p := PortKnobs(k, cmd, cst, arena, fast);
      CmdExt(p) == cmd && RegionExt(p, 0) == cst && RegionExt(p, 1) == arena && RegionExt(p, 2) == fast
  {
    var p := PortKnobs(k, cmd, cst, arena, fast);
    assert BitAt(4, 2) && !BitAt(0, 2);
    assert AttrOf(p[REGIONCFG], 0) == PortAttr(cst);
    assert AttrOf(p[REGIONCFG], 1) == PortAttr(arena);
    assert p[REGIONCFG] / 4 == PortAttr(arena) + 4 * PortAttr(fast);
    assert AttrOf(p[REGIONCFG], 2) == AttrOf(p[REGIONCFG] / 4, 1) == AttrOf(p[REGIONCFG] / 4 / 4, 0) == PortAttr(fast);
  }

  // ---- the layout ----

  /** pmwl_al256, wrapping as the firmware's does. */
  function Al256(n: word): word { Add32(n, 255) / 256 * 256 }

  function Up256(n: nat): (r: nat)
    ensures n <= r < n + 256 && r % 256 == 0
  {
    (n + 255) / 256 * 256
  }

  lemma Al256IsExact(n: word)
    ensures n + 255 < U32 ==> Al256(n) == Up256(n)
  {
  }

  datatype Layout = Layout(cmd: nat, cst: nat, arena: nat, fast: nat)

  predicate OnChip(h: Header)
    requires |h.knobs| == KNOB_WORDS
  {
    h.knobs[FAST_BASE] != OFF
  }

  function Used(here: bool, n: nat): nat { if here then Up256(n) else 0 }

  /** Every region goes where its port can reach: EXT regions to S DRAM, the others behind the blob in staging. */
  function Placed(h: Header): Layout
    requires |h.knobs| == KNOB_WORDS
  {
    var k := h.knobs;
    var dramCst := EXT_DRAM_BASE + Used(CmdExt(k), h.cmsLen);
    var dramArena := dramCst + Used(RegionExt(k, 0), h.constLen);
    var near := STAGING_BASE + Up256(h.totalLen);
    Layout(
      if CmdExt(k) then EXT_DRAM_BASE else STAGING_BASE + h.cmsOff,
      if RegionExt(k, 0) then dramCst else STAGING_BASE + h.constOff,
      if RegionExt(k, 1) then dramArena else near,
      if OnChip(h) then k[FAST_BASE]
      else if RegionExt(k, 2) then dramArena + Used(RegionExt(k, 1), h.arenaSize)
      else near + Used(!RegionExt(k, 1), h.arenaSize))
  }

  /** The check on a fast scratch base in on-chip SRAM, which must not reach down into the runner's own image. */
  predicate OnChipRefused(h: Header, stackTop: word)
    requires |h.knobs| == KNOB_WORDS
  {
    var b := h.knobs[FAST_BASE];
    && OnChip(h)
    && (RegionExt(h.knobs, 2) || b % 256 != 0 || b < stackTop || b > SRAM_END || h.fastSize > Sub32(SRAM_END, b))
  }

  predicate TaRefused(h: Header)
    requires |h.knobs| == KNOB_WORDS
  {
    h.knobs[TA_PROFILE] != OFF && (h.knobs[TA_PROFILE] < 1 || h.knobs[TA_PROFILE] > TA_PROFILE_COUNT)
  }

  /**
   What the code takes for granted: S DRAM below the linker's DDR sections and staging are large enough, and the
   sections it reads end before the address space does.
   */
  predicate Fits(h: Header)
    requires |h.knobs| == KNOB_WORDS
  {
    var k := h.knobs;
    && EXT_DRAM_BASE + Used(CmdExt(k), h.cmsLen) + Used(RegionExt(k, 0), h.constLen)
       + Used(RegionExt(k, 1), h.arenaSize) + Used(RegionExt(k, 2), h.fastSize) <= NOINIT_BASE
    && Up256(h.totalLen) + Used(!RegionExt(k, 1), h.arenaSize) + Used(!RegionExt(k, 2) && !OnChip(h), h.fastSize)
       <= STAGING_SIZE
    && STAGING_BASE + h.cmsOff + h.cmsLen <= U32 && STAGING_BASE + h.constOff + h.constLen <= U32
  }

  /** A header whose placement this module speaks about: its tensors are in bounds, which is checked, and it fits. */
  predicate Placeable(h: Header) {
    && |h.knobs| == KNOB_WORDS && Fits(h)
    && AllInBounds(h.inputs, h.arenaSize, h.totalLen) && AllInBounds(h.outputs, h.arenaSize, h.totalLen)
  }

  predicate CommandInBlob(h: Header) { h.cmsOff + h.cmsLen <= h.totalLen }

  predicate ConstInBlob(h: Header) { h.constOff + h.constLen <= h.totalLen }

  /** The command stream lies where nothing else is ever put: in S DRAM, or in the blob. */
  predicate CommandSafe(h: Header)
    requires |h.knobs| == KNOB_WORDS
  {
    CmdExt(h.knobs) || CommandInBlob(h)
  }

  predicate ConstSafe(h: Header)
    requires |h.knobs| == KNOB_WORDS
  {
    RegionExt(h.knobs, 0) || ConstInBlob(h)
  }

  predicate CodeApart(h: Header, l: Layout)
    requires |h.knobs| == KNOB_WORDS
  {
    var read := Apart(h.cmsOff, h.cmsLen, h.constOff, h.constLen);
    Apart(l.cmd, h.cmsLen, l.cst, h.constLen) <==> CmdExt(h.knobs) || RegionExt(h.knobs, 0) || read
  }

  /**
   The regions the NPU writes share no byte with each other, with the blob, with .sec_noinit, or with the code where
   that is in S DRAM or in the blob; and the two code regions are apart unless both are read from overlapping places.
   */
  predicate Separate(h: Header, l: Layout)
    requires |h.knobs| == KNOB_WORDS
  {
    && CodeApart(h, l)
    && Apart(l.arena, h.arenaSize, l.fast, h.fastSize)
    && WorkingRange(h, l.arena, h.arenaSize, l) && WorkingRange(h, l.fast, h.fastSize, l)
  }

  predicate WorkingRange(h: Header, at: nat, n: nat, l: Layout)
    requires |h.knobs| == KNOB_WORDS
  {
    && (CommandSafe(h) ==> Apart(at, n, l.cmd, h.cmsLen)) && (ConstSafe(h) ==> Apart(at, n, l.cst, h.constLen))
    && Apart(at, n, STAGING_BASE, h.totalLen) && Apart(at, n, NOINIT_BASE, NOINIT_SIZE)
    && at + n <= U32
  }

  lemma ArenaIsSeparate(h: Header)
    requires Placeable(h)
    ensures WorkingRange(h, Placed(h).arena, h.arenaSize, Placed(h))
  {
  }

  lemma FastIsSeparate(h: Header, stackTop: word)
    requires Placeable(h) && SRAM_BASE <= stackTop && !OnChipRefused(h, stackTop)
    ensures WorkingRange(h, Placed(h).fast, h.fastSize, Placed(h))
    ensures Apart(Placed(h).arena, h.arenaSize, Placed(h).fast, h.fastSize)
  {
  }

  /** Whatever the ports, placement keeps everything separate. */
  lemma PlacementIsSeparate(h: Header, stackTop: word)
    requires Placeable(h) && SRAM_BASE <= stackTop && !OnChipRefused(h, stackTop)
    ensures Separate(h, Placed(h))
  {
    ArenaIsSeparate(h);
    FastIsSeparate(h, stackTop);
  }

  predicate InDram(at: nat, n: nat) { EXT_DRAM_BASE <= at && at + n <= NOINIT_BASE && at % 256 == 0 }

  predicate BehindBlob(h: Header, at: nat, n: nat) {
    STAGING_BASE + h.totalLen <= at && at + n <= STAGING_BASE + STAGING_SIZE && at % 256 == 0
  }

  lemma Multiples(a: nat, b: nat)
    requires a % 256 == 0 && b % 256 == 0
    ensures (a + b) % 256 == 0
  {
  }

  lemma CodeByPort(h: Header)
    requires Placeable(h)
    ensures if CmdExt(h.knobs) then InDram(Placed(h).cmd, h.cmsLen) else Placed(h).cmd == STAGING_BASE + h.cmsOff
    ensures if RegionExt(h.knobs, 0) then InDram(Placed(h).cst, h.constLen)
            else Placed(h).cst == STAGING_BASE + h.constOff
  {
    Multiples(EXT_DRAM_BASE, Used(CmdExt(h.knobs), h.cmsLen));
  }

  lemma ArenaByPort(h: Header)
    requires Placeable(h)
    ensures if RegionExt(h.knobs, 1) then InDram(Placed(h).arena, h.arenaSize)
            else BehindBlob(h, Placed(h).arena, h.arenaSize)
  {
    var k := h.knobs;
    var cst := EXT_DRAM_BASE + Used(CmdExt(k), h.cmsLen);
    Multiples(EXT_DRAM_BASE, Used(CmdExt(k), h.cmsLen));
    Multiples(cst, Used(RegionExt(k, 0), h.constLen));
    Multiples(STAGING_BASE, Up256(h.totalLen));
  }

  lemma FastByPort(h: Header, stackTop: word)
    requires Placeable(h) && SRAM_BASE <= stackTop && !OnChipRefused(h, stackTop)
    ensures var at, k := Placed(h).fast, h.knobs;
      if k[10] != OFF then at == k[10] && stackTop <= at && at + h.fastSize <= SRAM_END && !RegionExt(k, 2)
      else if RegionExt(k, 2) then InDram(at, h.fastSize) else BehindBlob(h, at, h.fastSize)
  {
    var k := h.knobs;
    var cst := EXT_DRAM_BASE + Used(CmdExt(k), h.cmsLen);
    var dram, near := cst + Used(RegionExt(k, 0), h.constLen), STAGING_BASE + Up256(h.totalLen);
    Multiples(EXT_DRAM_BASE, Used(CmdExt(k), h.cmsLen));
    Multiples(cst, Used(RegionExt(k, 0), h.constLen));
    Multiples(dram, Used(RegionExt(k, 1), h.arenaSize));
    Multiples(STAGING_BASE, Up256(h.totalLen));
    Multiples(near, Used(!RegionExt(k, 1), h.arenaSize));
  }

  /**
   Placement follows the port, region by region: what goes through EXT lies in S DRAM, code read through SRAM stays in
   the blob, the arena and the fast scratch go behind it, and a fast scratch on chip lies where its knob says, above
   the firmware's own image.
   */
  lemma PlacedByPort(h: Header, stackTop: word)
    requires Placeable(h) && SRAM_BASE <= stackTop && !OnChipRefused(h, stackTop)
    ensures var l, k := Placed(h), h.knobs;
      && (if CmdExt(k) then InDram(l.cmd, h.cmsLen) else l.cmd == STAGING_BASE + h.cmsOff)
      && (if RegionExt(k, 0) then InDram(l.cst, h.constLen) else l.cst == STAGING_BASE + h.constOff)
      && (if RegionExt(k, 1) then InDram(l.arena, h.arenaSize) else BehindBlob(h, l.arena, h.arenaSize))
      && (if k[10] != OFF then
            l.fast == k[10] && stackTop <= l.fast && l.fast + h.fastSize <= SRAM_END && !RegionExt(k, 2)
          else if RegionExt(k, 2) then InDram(l.fast, h.fastSize) else BehindBlob(h, l.fast, h.fastSize))
  {
    CodeByPort(h);
    ArenaByPort(h);
    FastByPort(h, stackTop);
  }

  /** The on-chip check refuses exactly a base on the wrong port, unaligned, or not in free SRAM with all its bytes. */
  lemma OnChipIsExact(h: Header, stackTop: word)
    requires |h.knobs| == KNOB_WORDS
    ensures var b := h.knobs[10];
      OnChipRefused(h, stackTop)
      <==> b != OFF && (RegionExt(h.knobs, 2) || b % 256 != 0 || b < stackTop || b + h.fastSize > 0x3140_0000)
  {
  }

  // ---- what the NPU finds ----

  predicate Covers(t: Tensor, x: nat) { t.arenaOff <= x < t.arenaOff + t.len }

  /** Tensors of an arena that lies at `at`. */
  predicate InArena(m: seq<byte>, at: nat, ts: seq<Tensor>) {
    forall i :: 0 <= i < |ts| ==> at + ts[i].arenaOff + ts[i].len <= |m|
  }

  /** memset of every OFM. */
  function Poisoned(m: seq<byte>, at: nat, outs: seq<Tensor>): (r: seq<byte>)
    requires InArena(m, at, outs)
    ensures |r| == |m|
    decreases |outs|
  {
    if outs == [] then m
    else Poisoned(Store(m, at + outs[0].arenaOff, Filled(OFM_POISON, outs[0].len)), at, outs[1..])
  }

  predicate InBlob(blob: seq<byte>, ts: seq<Tensor>) {
    forall i :: 0 <= i < |ts| ==> ts[i].dataOff + ts[i].len <= |blob|
  }

  /** memcpy of every IFM. */
  function Filledin(m: seq<byte>, at: nat, blob: seq<byte>, ins: seq<Tensor>): (r: seq<byte>)
    requires InArena(m, at, ins) && InBlob(blob, ins)
    ensures |r| == |m|
    decreases |ins|
  {
    if ins == [] then m
    else Filledin(Store(m, at + ins[0].arenaOff, Load(blob, ins[0].dataOff, ins[0].len)), at, blob, ins[1..])
  }

  /** The last tensor of a list that covers an arena byte. */
  function LastCover(ts: seq<Tensor>, x: nat): (r: Option<Tensor>)
    ensures r.Some? ==> r.value in ts && Covers(r.value, x)
    ensures r.None? ==> forall i :: 0 <= i < |ts| ==> !Covers(ts[i], x)
  {
    if ts == [] then None
    else
      var rest := LastCover(ts[1..], x);
      if rest.Some? then rest else if Covers(ts[0], x) then Some(ts[0]) else
        assert forall i :: 0 < i < |ts| ==> ts[i] == ts[1..][i - 1];
        None
  }

  lemma {:induction false} PoisonedByte(m: seq<byte>, at: nat, outs: seq<Tensor>, i: nat)
    requires InArena(m, at, outs) && i < |m|
    ensures Poisoned(m, at, outs)[i] == if at <= i && LastCover(outs, i - at).Some? then OFM_POISON else m[i]
    decreases |outs|
  {
    if outs != [] {
      var t := outs[0];
      StoredByte(m, at + t.arenaOff, Filled(OFM_POISON, t.len), i);
      PoisonedByte(Store(m, at + t.arenaOff, Filled(OFM_POISON, t.len)), at, outs[1..], i);
    }
  }

  /** A byte of memory once a tensor has been copied to an arena at `at`. */
  lemma TensorStored(m: seq<byte>, at: nat, t: Tensor, data: seq<byte>, i: nat)
    requires at + t.arenaOff + t.len <= |m| && |data| == t.len && i < |m|
    ensures Store(m, at + t.arenaOff, data)[i]
         == if at <= i && Covers(t, i - at) then data[i - at - t.arenaOff] else m[i]
  {
    StoredByte(m, at + t.arenaOff, data, i);
  }

  lemma {:induction false} FilledinByte(m: seq<byte>, at: nat, blob: seq<byte>, ins: seq<Tensor>, i: nat)
    requires InArena(m, at, ins) && InBlob(blob, ins) && i < |m|
    ensures var c := if at <= i then LastCover(ins, i - at) else None;
      Filledin(m, at, blob, ins)[i] == if c.Some? then blob[c.value.dataOff + (i - at - c.value.arenaOff)] else m[i]
    decreases |ins|
  {
    if ins != [] {
      var t := ins[0];
      var data := Load(blob, t.dataOff, t.len);
      TensorStored(m, at, t, data, i);
      FilledinByte(Store(m, at + t.arenaOff, data), at, blob, ins[1..], i);
    }
  }

  /** A byte of an arena that has been poisoned and then filled. */
  lemma PoisonedThenFilled(c: seq<byte>, at: nat, outs: seq<Tensor>, blob: seq<byte>, ins: seq<Tensor>, i: nat)
    requires InArena(c, at, outs) && InArena(c, at, ins) && InBlob(blob, ins) && i < |c|
    ensures var v := Filledin(Poisoned(c, at, outs), at, blob, ins)[i];
      && (i < at ==> v == c[i])
      && (i >= at ==>
            var cover := LastCover(ins, i - at);
            v == if cover.Some? then blob[cover.value.dataOff + (i - at - cover.value.arenaOff)]
                 else if LastCover(outs, i - at).Some? then OFM_POISON else c[i])
  {
    PoisonedByte(c, at, outs, i);
    FilledinByte(Poisoned(c, at, outs), at, blob, ins, i);
  }

  lemma PoisonedThenFilledAt(c: seq<byte>, at: nat, outs: seq<Tensor>, blob: seq<byte>, ins: seq<Tensor>, x: nat)
    requires InArena(c, at, outs) && InArena(c, at, ins) && InBlob(blob, ins) && at + x < |c|
    ensures Filledin(Poisoned(c, at, outs), at, blob, ins)[at + x] == TensorByte(c[at + x], outs, blob, ins, x)
  {
    PoisonedThenFilled(c, at, outs, blob, ins, at + x);
    assert at + x - at == x;
  }

  /**
   What an arena byte holds before the start: the last IFM over it, else the poison of an OFM, else what was there.
   */
  function TensorByte(was: byte, outs: seq<Tensor>, blob: seq<byte>, ins: seq<Tensor>, x: nat): byte
    requires InBlob(blob, ins)
  {
    var c := LastCover(ins, x);
    if c.Some? then blob[c.value.dataOff + (x - c.value.arenaOff)]
    else if LastCover(outs, x).Some? then OFM_POISON
    else was
  }

  /** Headers the placement goes through with. */
  predicate Ready(m: seq<byte>, h: Header, stackTop: word) {
    |m| == U32 && Placeable(h) && SRAM_BASE <= stackTop && !OnChipRefused(h, stackTop)
  }

  function Blob(m: seq<byte>, h: Header): (b: seq<byte>)
    requires |m| == U32 && Placeable(h)
    ensures |b| == h.totalLen
  {
    Load(m, STAGING_BASE, h.totalLen)
  }

  function CommandData(m: seq<byte>, h: Header): seq<byte>
    requires |m| == U32 && Placeable(h)
  {
    Load(m, STAGING_BASE + h.cmsOff, h.cmsLen)
  }

  function ConstData(m: seq<byte>, h: Header): seq<byte>
    requires |m| == U32 && Placeable(h)
  {
    Load(m, STAGING_BASE + h.constOff, h.constLen)
  }

  function CommandCopied(m: seq<byte>, h: Header): (r: seq<byte>)
    requires |m| == U32 && Placeable(h)
    ensures |r| == U32
  {
    if CmdExt(h.knobs) then Store(m, Placed(h).cmd, CommandData(m, h)) else m
  }

  /** The command stream and the constants copied to S DRAM where their port is EXT. */
  function CodeCopied(m: seq<byte>, h: Header): (r: seq<byte>)
    requires |m| == U32 && Placeable(h)
    ensures |r| == U32
  {
    var c := CommandCopied(m, h);
    if RegionExt(h.knobs, 0) then Store(c, Placed(h).cst, ConstData(c, h)) else c
  }

  lemma ArenaFits(m: seq<byte>, h: Header, stackTop: word)
    requires Ready(m, h, stackTop)
    ensures InArena(m, Placed(h).arena, h.outputs) && InArena(m, Placed(h).arena, h.inputs)
    ensures InBlob(Blob(m, h), h.inputs)
  {
    PlacementIsSeparate(h, stackTop);
  }

  /** Memory as the NPU finds it: code in place, every OFM poisoned, every IFM copied. */
  function Prepared(m: seq<byte>, h: Header, stackTop: word): (r: seq<byte>)
    requires Ready(m, h, stackTop)
    ensures |r| == U32
  {
    ArenaFits(m, h, stackTop);
    var at := Placed(h).arena;
    Filledin(Poisoned(CodeCopied(m, h), at, h.outputs), at, Blob(m, h), h.inputs)
  }

  predicate Inside(at: nat, n: nat, i: nat) { at <= i < at + n }

  /** The bytes that placing the code writes. */
  predicate CodeWrites(h: Header, i: nat)
    requires Placeable(h)
  {
    || (CmdExt(h.knobs) && Inside(Placed(h).cmd, h.cmsLen, i))
    || (RegionExt(h.knobs, 0) && Inside(Placed(h).cst, h.constLen, i))
  }

  lemma CodeCopiedByte(m: seq<byte>, h: Header, i: nat)
    requires |m| == U32 && Placeable(h) && i < U32 && !CodeWrites(h, i)
    ensures CodeCopied(m, h)[i] == m[i]
  {
  }

  lemma ArenaIsNotCode(h: Header, stackTop: word, x: nat)
    requires Placeable(h) && SRAM_BASE <= stackTop && !OnChipRefused(h, stackTop) && x < h.arenaSize
    ensures Placed(h).arena + h.arenaSize <= U32 && !CodeWrites(h, Placed(h).arena + x)
  {
    PlacementIsSeparate(h, stackTop);
  }

  /** The stages of the placement, by name. */
  lemma Stages(m: seq<byte>, h: Header, stackTop: word) returns (c: seq<byte>, at: nat, b: seq<byte>)
    requires Ready(m, h, stackTop)
    ensures at == Placed(h).arena && b == Blob(m, h) && |c| == U32
    ensures InArena(c, at, h.outputs) && InArena(c, at, h.inputs) && InBlob(b, h.inputs)
    ensures Prepared(m, h, stackTop) == Filledin(Poisoned(c, at, h.outputs), at, b, h.inputs)
    ensures forall i :: 0 <= i < U32 && !CodeWrites(h, i) ==> c[i] == m[i]
  {
    ArenaFits(m, h, stackTop);
    c, at, b := CodeCopied(m, h), Placed(h).arena, Blob(m, h);
    forall i | 0 <= i < U32 && !CodeWrites(h, i)
      ensures c[i] == m[i]
    {
      CodeCopiedByte(m, h, i);
    }
  }

  /** Every arena byte, once the blob is placed. */
  lemma ArenaBeforeStart(m: seq<byte>, h: Header, stackTop: word, x: nat)
    requires Ready(m, h, stackTop) && x < h.arenaSize
    ensures Placed(h).arena + x < U32 && InBlob(Blob(m, h), h.inputs)
    ensures Prepared(m, h, stackTop)[Placed(h).arena + x]
         == TensorByte(m[Placed(h).arena + x], h.outputs, Blob(m, h), h.inputs, x)
  {
    ArenaIsNotCode(h, stackTop, x);
    var c, at, b := Stages(m, h, stackTop);
    PoisonedThenFilledAt(c, at, h.outputs, b, h.inputs, x);
    assert c[at + x] == m[at + x];
  }

  /** Outside the arena only the copied code changes. */
  lemma OutsideArena(m: seq<byte>, h: Header, stackTop: word, i: nat)
    requires Ready(m, h, stackTop) && i < U32 && !Inside(Placed(h).arena, h.arenaSize, i)
    ensures Prepared(m, h, stackTop)[i] == CodeCopied(m, h)[i]
  {
    ArenaFits(m, h, stackTop);
    PoisonedThenFilled(CodeCopied(m, h), Placed(h).arena, h.outputs, Blob(m, h), h.inputs, i);
  }

  lemma KeptIsNotWritten(h: Header, stackTop: word, i: nat)
    requires Placeable(h) && SRAM_BASE <= stackTop && !OnChipRefused(h, stackTop)
    requires Inside(STAGING_BASE, h.totalLen, i) || Inside(NOINIT_BASE, NOINIT_SIZE, i)
    ensures !CodeWrites(h, i) && !Inside(Placed(h).arena, h.arenaSize, i) && !Inside(Placed(h).fast, h.fastSize, i)
  {
    PlacementIsSeparate(h, stackTop);
  }

  lemma KeptByte(m: seq<byte>, h: Header, stackTop: word, i: nat)
    requires Ready(m, h, stackTop) && i < U32
    requires Inside(STAGING_BASE, h.totalLen, i) || Inside(NOINIT_BASE, NOINIT_SIZE, i)
    ensures Prepared(m, h, stackTop)[i] == m[i]
  {
    KeptIsNotWritten(h, stackTop, i);
    OutsideArena(m, h, stackTop, i);
    CodeCopiedByte(m, h, i);
  }

  /** The blob and .sec_noinit keep every byte. */
  lemma BlobUntouched(m: seq<byte>, h: Header, stackTop: word)
    requires Ready(m, h, stackTop)
    ensures Blob(Prepared(m, h, stackTop), h) == Blob(m, h)
    ensures Agree(Prepared(m, h, stackTop), m, NOINIT_BASE, NOINIT_SIZE)
  {
    forall i | STAGING_BASE <= i < STAGING_BASE + h.totalLen
      ensures Prepared(m, h, stackTop)[i] == m[i]
    {
      KeptByte(m, h, stackTop, i);
    }
    forall i | NOINIT_BASE <= i < NOINIT_BASE + NOINIT_SIZE
      ensures Prepared(m, h, stackTop)[i] == m[i]
    {
      KeptByte(m, h, stackTop, i);
    }
  }

  lemma CodeInPlace(m: seq<byte>, h: Header)
    requires |m| == U32 && Placeable(h)
    ensures Placed(h).cmd + h.cmsLen <= U32 && Placed(h).cst + h.constLen <= U32
    ensures Load(CodeCopied(m, h), Placed(h).cmd, h.cmsLen) == CommandData(m, h)
    ensures Load(CodeCopied(m, h), Placed(h).cst, h.constLen) == ConstData(m, h)
  {
    var l, c := Placed(h), CommandCopied(m, h);
    if CmdExt(h.knobs) {
      LoadStored(m, l.cmd, CommandData(m, h));
      LoadApart(m, l.cmd, CommandData(m, h), STAGING_BASE + h.constOff, h.constLen);
    }
    if RegionExt(h.knobs, 0) {
      LoadStored(c, l.cst, ConstData(c, h));
      LoadApart(c, l.cst, ConstData(c, h), l.cmd, h.cmsLen);
    }
  }

  lemma SameOutsideArena(m: seq<byte>, h: Header, stackTop: word, at: nat, n: nat)
    requires Ready(m, h, stackTop) && Apart(at, n, Placed(h).arena, h.arenaSize) && at + n <= U32
    ensures Agree(Prepared(m, h, stackTop), CodeCopied(m, h), at, n)
  {
    forall i | at <= i < at + n
      ensures Prepared(m, h, stackTop)[i] == CodeCopied(m, h)[i]
    {
      OutsideArena(m, h, stackTop, i);
    }
  }

  /** Whichever way the ports send it, the NPU reads the blob's own command stream and constants. */
  lemma CodeSeen(m: seq<byte>, h: Header, stackTop: word)
    requires Ready(m, h, stackTop)
    ensures Placed(h).cmd + h.cmsLen <= U32 && Placed(h).cst + h.constLen <= U32
    ensures CommandSafe(h) ==> Load(Prepared(m, h, stackTop), Placed(h).cmd, h.cmsLen) == CommandData(m, h)
    ensures ConstSafe(h) ==> Load(Prepared(m, h, stackTop), Placed(h).cst, h.constLen) == ConstData(m, h)
  {
    PlacementIsSeparate(h, stackTop);
    CodeInPlace(m, h);
    if CommandSafe(h) {
      SameOutsideArena(m, h, stackTop, Placed(h).cmd, h.cmsLen);
    }
    if ConstSafe(h) {
      SameOutsideArena(m, h, stackTop, Placed(h).cst, h.constLen);
    }
  }

  /** Two headers that differ in their knobs at most, over memories that stage the same sections. */
  predicate SameWorkload(m: seq<byte>, h: Header, n: seq<byte>, g: Header) {
    && |m| == U32 && |n| == U32 && Placeable(h) && Placeable(g) && g == h.(knobs := g.knobs)
    && CommandData(m, h) == CommandData(n, g) && ConstData(m, h) == ConstData(n, g)
    && forall i :: 0 <= i < |h.inputs| ==> SameData(Blob(m, h), Blob(n, g), h.inputs[i])
  }

  predicate SameData(a: seq<byte>, b: seq<byte>, t: Tensor) {
    t.dataOff + t.len <= |a| && t.dataOff + t.len <= |b| && Load(a, t.dataOff, t.len) == Load(b, t.dataOff, t.len)
  }

  lemma SameDataByte(a: seq<byte>, b: seq<byte>, t: Tensor, k: nat)
    requires SameData(a, b, t) && k < t.len
    ensures a[t.dataOff + k] == b[t.dataOff + k]
  {
    assert Load(a, t.dataOff, t.len)[k] == Load(b, t.dataOff, t.len)[k];
  }

  /**
   Placement is transparent: under any two port settings the NPU finds the same command stream, the same constants, and
   the same byte at every arena offset that an IFM or an OFM covers, 0xA5 where only an OFM does.
   */
  lemma PlacementIsTransparent(m: seq<byte>, h: Header, n: seq<byte>, g: Header, stackTop: word, x: nat)
    requires Ready(m, h, stackTop) && Ready(n, g, stackTop) && SameWorkload(m, h, n, g) && x < h.arenaSize
    requires LastCover(h.inputs, x).Some? || LastCover(h.outputs, x).Some?
    ensures Placed(h).arena + x < U32 && Placed(g).arena + x < U32
    ensures Placed(h).cmd + h.cmsLen <= U32 && Placed(g).cmd + g.cmsLen <= U32
    ensures Placed(h).cst + h.constLen <= U32 && Placed(g).cst + g.constLen <= U32
    ensures CommandInBlob(h) ==>
      Load(Prepared(m, h, stackTop), Placed(h).cmd, h.cmsLen) == Load(Prepared(n, g, stackTop), Placed(g).cmd, g.cmsLen)
    ensures ConstInBlob(h) ==>
      Load(Prepared(m, h, stackTop), Placed(h).cst, h.constLen) == Load(Prepared(n, g, stackTop), Placed(g).cst,
           g.constLen)
    ensures Prepared(m, h, stackTop)[Placed(h).arena + x] == Prepared(n, g, stackTop)[Placed(g).arena + x]
    ensures LastCover(h.inputs, x).None? ==> Prepared(m, h, stackTop)[Placed(h).arena + x] == OFM_POISON
  {
    CodeSeen(m, h, stackTop);
    CodeSeen(n, g, stackTop);
    ArenaBeforeStart(m, h, stackTop, x);
    ArenaBeforeStart(n, g, stackTop, x);
    var c := LastCover(h.inputs, x);
    if c.Some? {
      SameDataByte(Blob(m, h), Blob(n, g), c.value, x - c.value.arenaOff);
    }
  }
}
