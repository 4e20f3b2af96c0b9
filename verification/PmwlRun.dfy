/** The wrapped vendor test: place the blob, let the NPU run, and copy the first OFM to the vendor's own buffer. */
module PmwlRun {
  import opened Bytes
  import opened Memory
  import opened Pmwl
  import opened PmwlFirmware
  import opened Placement
  import opened OfmCompare

  /**
   What the firmware does not decide: where its own SRAM image ends, how many bytes the vendor expects, the memory the
   vendor's code and the NPU leave, of which only the arena and the fast scratch are theirs to write, the vendor's
   return code, and whether every register the knobs name read back as written.
   */
  datatype Vendor = Vendor(stackTop: word, outSize: nat, leaves: Space, rc: word, honoured: bool)

  predicate ValidVendor(v: Vendor) {
    SRAM_BASE <= v.stackTop && VENDOR_OUT + v.outSize <= NOINIT_END
  }

  function Window(m: Space): (w: seq<byte>)
    ensures |w| == HEADER_WINDOW
  {
    Load(m, STAGING_BASE, HEADER_WINDOW)
  }

  /** The code takes it for granted that a blob it has accepted fits. */
  predicate Runnable(m: Space, modelTotal: word) {
    Accepted(Window(m), modelTotal) ==>
      (AcceptedHasOutput(Window(m), modelTotal); Fits(ParseHeader(Window(m)).value))
  }

  /** The bytes the NPU and the vendor's code may write. */
  predicate NpuWrites(h: Header, i: nat)
    requires Placeable(h)
  {
    Inside(Placed(h).arena, h.arenaSize, i) || Inside(Placed(h).fast, h.fastSize, i)
  }

  function AfterNpu(m: seq<byte>, h: Header, leaves: Space): (r: seq<byte>)
    requires |m| == U32 && Placeable(h)
    ensures |r| == U32
  {
    seq(U32, i requires 0 <= i < U32 => if NpuWrites(h, i) then leaves[i] else m[i])
  }

  function CopiedBytes(h: Header, outSize: nat): nat
    requires h.outputs != []
  {
    if h.outputs[0].len < outSize then h.outputs[0].len else outSize
  }

  /** The first OFM, as much of it as the vendor expects. */
  function Produced(m: seq<byte>, h: Header, outSize: nat): (out: seq<byte>)
    requires |m| == U32 && Placeable(h) && h.outputs != [] && Placed(h).arena + h.arenaSize <= U32
    ensures |out| == CopiedBytes(h, outSize)
  {
    assert InBounds(h.outputs[0], h.arenaSize, h.totalLen);
    Load(m, Placed(h).arena + h.outputs[0].arenaOff, CopiedBytes(h, outSize))
  }

  /** Memory once a placed blob has been run. */
  function AfterRun(m: seq<byte>, h: Header, v: Vendor): (r: seq<byte>)
    requires Ready(m, h, v.stackTop) && h.outputs != [] && ValidVendor(v)
    ensures |r| == U32
  {
    PlacementIsSeparate(h, v.stackTop);
    var n := AfterNpu(Prepared(m, h, v.stackTop), h, v.leaves);
    Store(n, VENDOR_OUT, Produced(n, h, v.outSize))
  }

  lemma AcceptedHasOutput(s: seq<byte>, modelTotal: word)
    requires Accepted(s, modelTotal)
    ensures ParseHeader(s).value.outputs != [] && ParseHeader(s).value.totalLen == modelTotal
    ensures |ParseHeader(s).value.knobs| == KNOB_WORDS
    ensures Fits(ParseHeader(s).value) ==> Placeable(ParseHeader(s).value)
  {
  }

  /** Memory once the wrapped test has returned. */
  function AfterTest(m: Space, modelTotal: word, v: Vendor): (r: Space)
    requires Runnable(m, modelTotal) && ValidVendor(v)
  {
    if !Accepted(Window(m), modelTotal) then m
    else
      AcceptedHasOutput(Window(m), modelTotal);
      var h := ParseHeader(Window(m)).value;
      if OnChipRefused(h, v.stackTop) then CodeCopied(m, h)
      else if TaRefused(h) then Prepared(m, h, v.stackTop)
      else AfterRun(m, h, v)
  }

  // ---- what it leaves alone ----

  lemma NpuKeeps(m: seq<byte>, h: Header, leaves: Space, stackTop: word, i: nat)
    requires |m| == U32 && Placeable(h) && SRAM_BASE <= stackTop && !OnChipRefused(h, stackTop)
    requires Inside(STAGING_BASE, h.totalLen, i) || Inside(NOINIT_BASE, NOINIT_SIZE, i)
    ensures i < U32 && AfterNpu(m, h, leaves)[i] == m[i]
  {
    KeptIsNotWritten(h, stackTop, i);
  }

  predicate InVendorOut(h: Header, outSize: nat, i: nat)
    requires h.outputs != []
  {
    Inside(VENDOR_OUT, CopiedBytes(h, outSize), i)
  }

  lemma RunKeepsByte(m: seq<byte>, h: Header, v: Vendor, i: nat)
    requires Ready(m, h, v.stackTop) && h.outputs != [] && ValidVendor(v)
    requires Inside(STAGING_BASE, h.totalLen, i) || Inside(NOINIT_BASE, NOINIT_SIZE, i)
    requires !InVendorOut(h, v.outSize, i)
    ensures i < U32 && AfterRun(m, h, v)[i] == m[i]
  {
    PlacementIsSeparate(h, v.stackTop);
    var p := Prepared(m, h, v.stackTop);
    KeptByte(m, h, v.stackTop, i);
    NpuKeeps(p, h, v.leaves, v.stackTop, i);
    var n := AfterNpu(p, h, v.leaves);
    StoredByte(n, VENDOR_OUT, Produced(n, h, v.outSize), i);
  }

  lemma CodeKeepsByte(m: seq<byte>, h: Header, i: nat)
    requires |m| == U32 && Placeable(h)
    requires Inside(STAGING_BASE, h.totalLen, i) || Inside(NOINIT_BASE, NOINIT_SIZE, i)
    ensures i < U32 && CodeCopied(m, h)[i] == m[i]
  {
    CodeCopiedByte(m, h, i);
  }

  /**
   Whether the blob is taken, refused half-way or run, a byte of it or of .sec_noinit changes only in the copy-back.
   */
  lemma TestKeepsByte(m: Space, modelTotal: word, v: Vendor, i: nat)
    requires Runnable(m, modelTotal) && ValidVendor(v)
    requires i < U32
    requires Inside(STAGING_BASE, modelTotal, i)
          || (Inside(NOINIT_BASE, NOINIT_SIZE, i) && !Inside(VENDOR_OUT, v.outSize, i))
    ensures AfterTest(m, modelTotal, v)[i] == m[i]
  {
    if Accepted(Window(m), modelTotal) {
      AcceptedHasOutput(Window(m), modelTotal);
      var h := ParseHeader(Window(m)).value;
      if OnChipRefused(h, v.stackTop) {
        CodeKeepsByte(m, h, i);
      } else if TaRefused(h) {
        KeptByte(m, h, v.stackTop, i);
      } else {
        RunKeepsByte(m, h, v, i);
      }
    }
  }

  /** A run never changes the blob it runs, so any number of runs execute the same one. */
  lemma TestKeepsBlob(m: Space, modelTotal: word, v: Vendor)
    requires Runnable(m, modelTotal) && ValidVendor(v) && modelTotal <= STAGING_SIZE
    ensures Agree(AfterTest(m, modelTotal, v), m, STAGING_BASE, modelTotal)
  {
    var r := AfterTest(m, modelTotal, v);
    forall i | STAGING_BASE <= i < STAGING_BASE + modelTotal
      ensures r[i] == m[i]
    {
      TestKeepsByte(m, modelTotal, v, i);
    }
    AgreeByBytes(r, m, STAGING_BASE, modelTotal);
  }

  // ---- a skipped NPU ----

  /** The NPU wrote nothing it might have. */
  predicate NpuSkipped(m: Space, h: Header, v: Vendor)
    requires Ready(m, h, v.stackTop)
  {
    AfterNpu(Prepared(m, h, v.stackTop), h, v.leaves) == Prepared(m, h, v.stackTop)
  }

  lemma ProducedByte(m: seq<byte>, h: Header, outSize: nat, x: nat, y: nat)
    requires |m| == U32 && Placeable(h) && h.outputs != [] && Placed(h).arena + h.arenaSize <= U32
    requires x < CopiedBytes(h, outSize) && y == h.outputs[0].arenaOff + x
    ensures Placed(h).arena + y < U32 && Produced(m, h, outSize)[x] == m[Placed(h).arena + y]
  {
  }

  lemma FirstOfmByte(h: Header, outSize: nat, stackTop: word, x: nat) returns (y: nat)
    requires Placeable(h) && SRAM_BASE <= stackTop && !OnChipRefused(h, stackTop)
    requires h.outputs != [] && x < CopiedBytes(h, outSize)
    ensures y == h.outputs[0].arenaOff + x && y < h.arenaSize && Placed(h).arena + h.arenaSize <= U32
  {
    assert InBounds(h.outputs[0], h.arenaSize, h.totalLen);
    PlacementIsSeparate(h, stackTop);
    y := h.outputs[0].arenaOff + x;
  }

  /** The bytes the vendor's buffer receives when the NPU did nothing: IFM data, or the poison of an OFM. */
  lemma IdleOutput(m: Space, h: Header, v: Vendor, x: nat) returns (y: nat)
    requires Ready(m, h, v.stackTop) && h.outputs != [] && x < CopiedBytes(h, v.outSize)
    ensures y == h.outputs[0].arenaOff + x && Placed(h).arena + y < U32 && InBlob(Blob(m, h), h.inputs)
    ensures Placed(h).arena + h.arenaSize <= U32
    ensures Produced(Prepared(m, h, v.stackTop), h, v.outSize)[x]
         == TensorByte(m[Placed(h).arena + y], h.outputs, Blob(m, h), h.inputs, y)
  {
    y := FirstOfmByte(h, v.outSize, v.stackTop, x);
    ProducedByte(Prepared(m, h, v.stackTop), h, v.outSize, x, y);
    ArenaBeforeStart(m, h, v.stackTop, y);
  }

  /**
   The copy-back runs even when the NPU did nothing, so .sec_noinit is left as it was exactly when the OFM bytes the
   placement prepared are the very bytes the vendor's buffer held.
   */
  lemma SkippedNpuStillCopies(m: Space, h: Header, v: Vendor)
    requires Ready(m, h, v.stackTop) && h.outputs != [] && ValidVendor(v) && NpuSkipped(m, h, v)
    ensures Placed(h).arena + h.arenaSize <= U32
    ensures var out := Produced(Prepared(m, h, v.stackTop), h, v.outSize);
      Agree(AfterRun(m, h, v), m, NOINIT_BASE, NOINIT_SIZE) <==> Load(m, VENDOR_OUT, |out|) == out
  {
    PlacementIsSeparate(h, v.stackTop);
    BlobUntouched(m, h, v.stackTop);
    var p := Prepared(m, h, v.stackTop);
    var out := Produced(p, h, v.outSize);
    StoreIsNoChange(p, m, VENDOR_OUT, out, NOINIT_BASE, NOINIT_SIZE);
  }

  lemma StoreIsNoChange(p: seq<byte>, m: seq<byte>, at: nat, out: seq<byte>, b: nat, k: nat)
    requires |p| == |m| && b <= at && at + |out| <= b + k <= |m| && Agree(p, m, b, k)
    ensures Agree(Store(p, at, out), m, b, k) <==> Load(m, at, |out|) == out
  {
    LoadStored(p, at, out);
    if Agree(Store(p, at, out), m, b, k) {
      AgreeInside(Store(p, at, out), m, b, k, at, |out|);
    }
    if Load(m, at, |out|) == out {
      AgreeInside(p, m, b, k, at, |out|);
      assert p[at..at + |out|] == out;
      assert Store(p, at, out) == p;
    }
  }

  // ---- in place ----

  /** The copies of the command stream and the constants, and the bump allocation, in 32-bit arithmetic. */
  method PlaceCode(mem: array<byte>, h: Header) returns (l: Layout)
    requires mem.Length == U32 && Placeable(h)
    modifies mem
    ensures mem[..] == CodeCopied(old(mem[..]), h)
    ensures l.(fast := if OnChip(h) then h.knobs[FAST_BASE] else l.fast) == Placed(h)
  {
    var dram, near := PlaceCommand(mem, h);
    var cmd := if CmdExt(h.knobs) then EXT_DRAM_BASE else STAGING_BASE + h.cmsOff;
    var cst;
    cst, dram := PlaceConst(mem, h, dram);
    var arena, fast := PlaceWork(h, dram, near);
    l := Layout(cmd, cst, arena, fast);
  }

  /** A bump pointer moved past `n` bytes, where that does not wrap. */
  function Bump(at: word, n: word): (r: word)
    ensures at + Up256(n) < U32 ==> r == at + Up256(n)
  {
    Al256IsExact(n);
    Add32(at, Al256(n))
  }

  lemma ConstIsData(m: seq<byte>, h: Header)
    requires |m| == U32 && Placeable(h)
    ensures STAGING_BASE + h.constOff + h.constLen <= U32
    ensures Load(m, STAGING_BASE + h.constOff, h.constLen) == ConstData(m, h)
    ensures RegionExt(h.knobs, 0) ==> Placed(h).cst == EXT_DRAM_BASE + Used(CmdExt(h.knobs), h.cmsLen)
    ensures RegionExt(h.knobs, 0) ==> Placed(h).cst + Up256(h.constLen) < U32
    ensures !RegionExt(h.knobs, 0) ==> Placed(h).cst == STAGING_BASE + h.constOff
  {
  }

  method PlaceConst(mem: array<byte>, h: Header, from: word) returns (cst: nat, dram: word)
    requires mem.Length == U32 && Placeable(h) && from == EXT_DRAM_BASE + Used(CmdExt(h.knobs), h.cmsLen)
    modifies mem
    ensures cst == Placed(h).cst && dram == from + Used(RegionExt(h.knobs, 0), h.constLen)
    ensures mem[..] == if RegionExt(h.knobs, 0) then Store(old(mem[..]), Placed(h).cst, ConstData(old(mem[..]), h))
                       else old(mem[..])
  {
    ConstIsData(mem[..], h);
    cst, dram := STAGING_BASE + h.constOff, from;
    if RegionExt(h.knobs, 0) {
      cst := dram;
      Move(mem, cst, STAGING_BASE + h.constOff, h.constLen);
      dram := Bump(dram, h.constLen);
    }
  }

  /** The bump pointers behind the code, for the arena and the fast scratch. */
  method PlaceWork(h: Header, dramFrom: word, nearFrom: word) returns (arena: nat, fast: nat)
    requires Placeable(h) && nearFrom == STAGING_BASE + Up256(h.totalLen)
    requires dramFrom == EXT_DRAM_BASE + Used(CmdExt(h.knobs), h.cmsLen) + Used(RegionExt(h.knobs, 0), h.constLen)
    ensures arena == Placed(h).arena && (!OnChip(h) ==> fast == Placed(h).fast)
  {
    var dram, near := dramFrom, nearFrom;
    if RegionExt(h.knobs, 1) {
      arena := dram;
      dram := Bump(dram, h.arenaSize);
    } else {
      arena := near;
      near := Bump(near, h.arenaSize);
    }
    fast := if RegionExt(h.knobs, 2) then dram else near;
  }

  lemma CommandIsData(m: seq<byte>, h: Header)
    requires |m| == U32 && Placeable(h)
    ensures STAGING_BASE + h.cmsOff + h.cmsLen <= U32 && Load(m, STAGING_BASE + h.cmsOff, h.cmsLen) == CommandData(m, h)
    ensures CmdExt(h.knobs) ==> EXT_DRAM_BASE + Up256(h.cmsLen) < U32 && Placed(h).cmd == EXT_DRAM_BASE
    ensures STAGING_BASE + Up256(h.totalLen) < U32
  {
  }

  method PlaceCommand(mem: array<byte>, h: Header) returns (dram: word, near: word)
    requires mem.Length == U32 && Placeable(h)
    modifies mem
    ensures mem[..] == CommandCopied(old(mem[..]), h)
    ensures dram == EXT_DRAM_BASE + Used(CmdExt(h.knobs), h.cmsLen) && near == STAGING_BASE + Up256(h.totalLen)
  {
    CommandIsData(mem[..], h);
    dram, near := EXT_DRAM_BASE, Bump(STAGING_BASE, h.totalLen);
    if CmdExt(h.knobs) {
      Move(mem, dram, STAGING_BASE + h.cmsOff, h.cmsLen);
      dram := Bump(dram, h.cmsLen);
    }
  }

  method PoisonOfms(mem: array<byte>, arena: nat, outs: seq<Tensor>)
    requires InArena(mem[..], arena, outs)
    modifies mem
    ensures mem[..] == Poisoned(old(mem[..]), arena, outs)
  {
    ghost var goal := Poisoned(mem[..], arena, outs);
    assert outs[0..] == outs;
    for k := 0 to |outs|
      invariant InArena(mem[..], arena, outs[k..]) && Poisoned(mem[..], arena, outs[k..]) == goal
    {
      assert outs[k..][0] == outs[k] && outs[k..][1..] == outs[k + 1..];
      Fill(mem, arena + outs[k].arenaOff, OFM_POISON, outs[k].len);
    }
  }

  /** One IFM, from staging, which the copies never touch. */
  method CopyIfm(mem: array<byte>, arena: nat, size: nat, ghost blob: seq<byte>, t: Tensor)
    requires arena + t.arenaOff + t.len <= mem.Length && t.dataOff + t.len <= |blob| && t.arenaOff + t.len <= size
    requires Apart(arena, size, STAGING_BASE, |blob|)
    requires STAGING_BASE + |blob| <= mem.Length && Load(mem[..], STAGING_BASE, |blob|) == blob
    modifies mem
    ensures mem[..] == Store(old(mem[..]), arena + t.arenaOff, Load(blob, t.dataOff, t.len))
    ensures Load(mem[..], STAGING_BASE, |blob|) == blob
  {
    ghost var m := mem[..];
    var at, from := arena + t.arenaOff, STAGING_BASE + t.dataOff;
    assert Apart(at, t.len, STAGING_BASE, |blob|) && from + t.len <= mem.Length;
    ghost var data := IfmStored(m, at, blob, t.dataOff, from, t.len);
    Move(mem, at, from, t.len);
  }

  lemma IfmStored(m: seq<byte>, at: nat, blob: seq<byte>, off: nat, from: nat, n: nat) returns (data: seq<byte>)
    requires off + n <= |blob| && STAGING_BASE + |blob| <= |m| && Load(m, STAGING_BASE, |blob|) == blob
    requires at + n <= |m| && Apart(at, n, STAGING_BASE, |blob|) && from == STAGING_BASE + off
    ensures data == Load(blob, off, n) && |data| == n && data == Load(m, from, n)
    ensures Load(Store(m, at, data), STAGING_BASE, |blob|) == blob
  {
    data := Load(blob, off, n);
    SliceOfSlice(m, STAGING_BASE, STAGING_BASE + |blob|, off, off + n);
    LoadApart(m, at, data, STAGING_BASE, |blob|);
  }

  /** The IFMs from the `k`-th on are still to be copied from the blob in staging to reach `goal`. */
  ghost predicate ToFill(m: seq<byte>, arena: nat, blob: seq<byte>, ins: seq<Tensor>, k: nat, goal: seq<byte>) {
    && InArena(m, arena, ins) && InBlob(blob, ins) && k <= |ins|
    && STAGING_BASE + |blob| <= |m| && Load(m, STAGING_BASE, |blob|) == blob
    && Filledin(m, arena, blob, ins[k..]) == goal
  }

  lemma FillNext(m: seq<byte>, arena: nat, blob: seq<byte>, ins: seq<Tensor>, k: nat, goal: seq<byte>, after: seq<byte>)
    requires ToFill(m, arena, blob, ins, k, goal) && k < |ins|
    requires after == Store(m, arena + ins[k].arenaOff, Load(blob, ins[k].dataOff, ins[k].len))
    requires Load(after, STAGING_BASE, |blob|) == blob
    ensures ToFill(after, arena, blob, ins, k + 1, goal)
  {
  }

  method CopyNext(mem: array<byte>, arena: nat, size: nat, ghost blob: seq<byte>, ins: seq<Tensor>, k: nat,
                  ghost goal: seq<byte>)
    requires ToFill(mem[..], arena, blob, ins, k, goal) && k < |ins|
    requires ins[k].arenaOff + ins[k].len <= size && Apart(arena, size, STAGING_BASE, |blob|)
    modifies mem
    ensures ToFill(mem[..], arena, blob, ins, k + 1, goal)
  {
    ghost var m := mem[..];
    CopyIfm(mem, arena, size, blob, ins[k]);
    FillNext(m, arena, blob, ins, k, goal, mem[..]);
  }

  method CopyIfms(mem: array<byte>, arena: nat, size: nat, ghost blob: seq<byte>, ins: seq<Tensor>)
    requires InArena(mem[..], arena, ins) && InBlob(blob, ins) && Apart(arena, size, STAGING_BASE, |blob|)
    requires forall i :: 0 <= i < |ins| ==> ins[i].arenaOff + ins[i].len <= size
    requires STAGING_BASE + |blob| <= mem.Length && Load(mem[..], STAGING_BASE, |blob|) == blob
    modifies mem
    ensures mem[..] == Filledin(old(mem[..]), arena, blob, ins)
  {
    ghost var goal := Filledin(mem[..], arena, blob, ins);
    assert ins[0..] == ins;
    for k := 0 to |ins|
      invariant ToFill(mem[..], arena, blob, ins, k, goal)
    {
      CopyNext(mem, arena, size, blob, ins, k, goal);
    }
  }

  /** Poison every OFM, then copy every IFM: they may overlap. */
  method PrepareArena(mem: array<byte>, h: Header, arena: nat, ghost before: Space, ghost stackTop: word)
    requires mem.Length == U32 && Ready(before, h, stackTop) && mem[..] == CodeCopied(before, h)
    requires arena == Placed(h).arena
    modifies mem
    ensures mem[..] == Prepared(before, h, stackTop)
  {
    ghost var blob := Blob(before, h);
    ArenaFits(before, h, stackTop);
    PlacementIsSeparate(h, stackTop);
    PoisonOfms(mem, arena, h.outputs);
    PoisonKeepsBlob(before, h, stackTop);
    CopyIfms(mem, arena, h.arenaSize, blob, h.inputs);
  }

  lemma PoisonKeepsBlob(m: Space, h: Header, stackTop: word)
    requires Ready(m, h, stackTop) && InArena(CodeCopied(m, h), Placed(h).arena, h.outputs)
    ensures Load(Poisoned(CodeCopied(m, h), Placed(h).arena, h.outputs), STAGING_BASE, h.totalLen) == Blob(m, h)
  {
    var c, at := CodeCopied(m, h), Placed(h).arena;
    forall i | STAGING_BASE <= i < STAGING_BASE + h.totalLen
      ensures Poisoned(c, at, h.outputs)[i] == m[i]
    {
      KeptIsNotWritten(h, stackTop, i);
      CodeCopiedByte(m, h, i);
      PoisonedByte(c, at, h.outputs, i);
    }
  }

  /** The vendor's test and the NPU. */
  method RunNpu(mem: array<byte>, h: Header, leaves: Space)
    requires mem.Length == U32 && Placeable(h)
    modifies mem
    ensures mem[..] == AfterNpu(old(mem[..]), h, leaves)
  {
    forall i | 0 <= i < mem.Length && NpuWrites(h, i) {
      mem[i] := leaves[i];
    }
  }

  const PMWL_REFUSED: word := 0x7E
  const PMWL_KNOB_NOT_HONOURED: word := 0x7D

  predicate RunsThrough(m: Space, modelTotal: word, v: Vendor)
    requires Runnable(m, modelTotal)
  {
    Accepted(Window(m), modelTotal) &&
    (AcceptedHasOutput(Window(m), modelTotal);
     !OnChipRefused(ParseHeader(Window(m)).value, v.stackTop) && !TaRefused(ParseHeader(Window(m)).value))
  }

  /**
   Which blobs reach the NPU: those that are accepted, whose fast scratch, if on chip, is aligned, on the SRAM port and
   in free SRAM, and whose timing profile, if any, exists.
   */
  lemma RunsThroughExactly(m: Space, modelTotal: word, v: Vendor)
    requires Runnable(m, modelTotal) && Accepted(Window(m), modelTotal)
    ensures |ParseHeader(Window(m)).value.knobs| == 16
    ensures var h := ParseHeader(Window(m)).value;
      var b, ta := h.knobs[10], h.knobs[11];
      RunsThrough(m, modelTotal, v)
      <==> && (b == OFF || (!RegionExt(h.knobs, 2) && b % 256 == 0 && v.stackTop <= b && b + h.fastSize <= 0x3140_0000))
           && (ta == OFF || ta == 1 || ta == 2)
  {
    AcceptedHasOutput(Window(m), modelTotal);
    OnChipIsExact(ParseHeader(Window(m)).value, v.stackTop);
  }

  /** How far what the NPU left is from the references. */
  function Judged(m: Space, h: Header, v: Vendor): Comparison
    requires Ready(m, h, v.stackTop)
  {
    var n := AfterNpu(Prepared(m, h, v.stackTop), h, v.leaves);
    OutputsInMemory(n, h, v.stackTop);
    Compare(Outputs(n, Placed(h).arena, h.outputs), References(n, h.outputs))
  }

  /** The placed blob is run, judged against its references, and its first OFM copied back. */
  method RunPlaced(mem: array<byte>, h: Header, arena: nat, v: Vendor, ghost before: Space)
    returns (count: word, maxAbs: word, first: word)
    requires mem.Length == U32 && Ready(before, h, v.stackTop) && h.outputs != [] && ValidVendor(v)
    requires TotalLength(h.outputs) < U32 && arena == Placed(h).arena && mem[..] == Prepared(before, h, v.stackTop)
    modifies mem
    ensures mem[..] == AfterRun(before, h, v)
    ensures CountersHold(count, maxAbs, first, Judged(before, h, v), TotalLength(h.outputs))
  {
    RunNpu(mem, h, v.leaves);
    ghost var n := mem[..];
    OutputsInMemory(n, h, v.stackTop);
    count, maxAbs, first := CompareAll(mem, arena, h.outputs);
    CopyBack(mem, h, arena, v.outSize);
    assert mem[..] == AfterRun(before, h, v);
  }

  /** memcpy of the first OFM to the vendor's own buffer */
  method CopyBack(mem: array<byte>, h: Header, arena: nat, outSize: nat)
    requires mem.Length == U32 && Placeable(h) && h.outputs != [] && VENDOR_OUT + outSize <= NOINIT_END
    requires arena == Placed(h).arena && arena + h.arenaSize <= U32
    requires h.outputs[0].arenaOff + h.outputs[0].len <= h.arenaSize
    modifies mem
    ensures mem[..] == Store(old(mem[..]), VENDOR_OUT, Produced(old(mem[..]), h, outSize))
  {
    assert CopiedBytes(h, outSize) <= outSize && CopiedBytes(h, outSize) <= h.outputs[0].len;
    Move(mem, VENDOR_OUT, arena + h.outputs[0].arenaOff, CopiedBytes(h, outSize));
  }

  lemma OutputsInMemory(m: Space, h: Header, stackTop: word)
    requires Ready(m, h, stackTop)
    ensures Placed(h).arena + h.arenaSize <= U32
    ensures AllInMemory(m, Placed(h).arena, h.outputs) && AllInMemory(m, 0, h.outputs)
    ensures h.outputs != [] ==> h.outputs[0].arenaOff + h.outputs[0].len <= h.arenaSize
  {
  }

  /** An accepted blob has at most ten outputs, none longer than the blob, so no index of the comparison wraps. */
  lemma OutputsAreFew(s: seq<byte>, modelTotal: word)
    requires Accepted(s, modelTotal) && Placeable(ParseHeader(s).value)
    ensures TotalLength(ParseHeader(s).value.outputs) < U32
  {
    var h := ParseHeader(s).value;
    assert |h.outputs| <= IO_MAX && h.totalLen <= STAGING_SIZE;
    assert forall i :: 0 <= i < |h.outputs| ==> InBounds(h.outputs[i], h.arenaSize, h.totalLen);
    LengthsAddUp(h.outputs, STAGING_SIZE);
  }

  lemma {:induction false} LengthsAddUp(ts: seq<Tensor>, most: nat)
    requires forall i :: 0 <= i < |ts| ==> ts[i].len <= most
    ensures TotalLength(ts) <= |ts| * most
  {
    if ts != [] {
      LengthsAddUp(ts[1..], most);
      assert |ts| * most == |ts[1..]| * most + most;
    }
  }

  /**
   What a test that started over memory `m` returns: refused, or a knob was not honoured, or the vendor's own code; and
   how the outputs compare with the references, if it got that far.
   */
  ghost predicate Returns(m: Space, modelTotal: word, v: Vendor, rc: word, count: word, maxAbs: word, first: word)
    requires Runnable(m, modelTotal) && ValidVendor(v)
  {
    if RunsThrough(m, modelTotal, v) then
      var h := ParseHeader(Window(m)).value;
      && rc == (if v.honoured then v.rc else 0x7D)
      && CountersHold(count, maxAbs, first, Judged(m, h, v), TotalLength(h.outputs))
    else rc == 0x7E && count == 0 && maxAbs == 0 && first == NO_MISMATCH
  }

  /** The wrapped vendor test. */
  method TestU85(mem: array<byte>, modelTotal: word, v: Vendor)
    returns (rc: word, count: word, maxAbs: word, first: word)
    requires mem.Length == U32 && Runnable(mem[..], modelTotal) && ValidVendor(v)
    modifies mem
    ensures mem[..] == AfterTest(old(mem[..]), modelTotal, v)
    ensures Returns(old(mem[..]), modelTotal, v, rc, count, maxAbs, first)
  {
    ghost var before: Space := mem[..];
    count, maxAbs, first := 0, 0, NO_MISMATCH;
    var ok, words, io := AcceptBlob(mem[STAGING_BASE..STAGING_BASE + HEADER_WINDOW], modelTotal);
    if !ok {
      return PMWL_REFUSED, count, maxAbs, first;
    }
    AcceptedHasOutput(Window(before), modelTotal);
    OutputsAreFew(Window(before), modelTotal);
    var h := HeaderOf(words[..], io[..]);
    var l := PlaceCode(mem, h);
    if OnChipRefused(h, v.stackTop) {
      return PMWL_REFUSED, count, maxAbs, first;
    }
    PrepareArena(mem, h, l.arena, before, v.stackTop);
    if TaRefused(h) {
      return PMWL_REFUSED, count, maxAbs, first;
    }
    count, maxAbs, first := RunPlaced(mem, h, l.arena, v, before);
    rc := if v.honoured then v.rc else PMWL_KNOB_NOT_HONOURED;
  }
}
