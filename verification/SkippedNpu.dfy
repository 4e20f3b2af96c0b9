/**
 When nothing the NPU should have written was written: which runs' poison still betrays it, and which runs are served.
 */
module SkippedNpu {
  import opened Bytes
  import opened BitOps
  import opened Crc32
  import opened Memory
  import opened Poison
  import opened Pmwl
  import opened PmwlFirmware
  import opened Placement
  import opened PmwlRun
  import opened Runner
  import opened RunHistory
  import opened VendorRun

  // ---- which runs are poisoned with the OFM poison ----

  const OUT_WORD: nat := OUT_OFFSET / 4

  /** The one run whose poison has 0xA5 throughout the first word of the vendor's output buffer. */
  const A5_RUN: word := Xor32(0xA5C3_0000, Xor32(Stride(OUT_WORD), 0xA5A5_A5A5))

  lemma TheA5Run()
    ensures PoisonWord(A5_RUN, OUT_WORD) == 0xA5A5_A5A5
  {
    var k := Stride(OUT_WORD);
    XorTwice(0xA5C3_0000, Xor32(k, 0xA5A5_A5A5));
    XorCommutes(Xor32(k, 0xA5A5_A5A5), k);
    XorTwice(k, 0xA5A5_A5A5);
  }

  /** 256 to the power of `k`. */
  function Bytes256(k: nat): nat
    requires k <= 4
  {
    if k == 0 then 1 else if k == 1 then 0x100 else if k == 2 then 0x1_0000 else if k == 3 then 0x100_0000 else U32
  }

  /** Joined again, the lowest bit and the low bits above it. */
  lemma LowOfXor(x: nat, y: nat, m: nat)
    requires m > 0 && x % 2 == y % 2 && x / 2 % m == y / 2
    ensures x % (2 * m) == y
  {
    HalfRemainder(x, m);
  }

  lemma {:induction false} XorLow(a: nat, b: nat, n: nat)
    ensures Xor(a, b) % Pow2(n) == Xor(a % Pow2(n), b % Pow2(n))
    decreases n
  {
    if n > 0 {
      var m, c, d := Pow2(n - 1), a % Pow2(n), b % Pow2(n);
      XorParts(a, b);
      XorParts(c, d);
      XorLow(a / 2, b / 2, n - 1);
      LowHalf(a, m);
      LowHalf(b, m);
      SumParity(a, b, c, d);
      LowOfXor(Xor(a, b), Xor(c, d), m);
    }
  }

  lemma LowHalf(a: nat, m: nat)
    requires m > 0
    ensures a % (2 * m) % 2 == a % 2 && a % (2 * m) / 2 == a / 2 % m
  {
    HalfRemainder(a, m);
  }

  lemma SumParity(a: nat, b: nat, c: nat, d: nat)
    requires a % 2 == c % 2 && b % 2 == d % 2
    ensures (a + b) % 2 == (c + d) % 2
  {
  }

  lemma PowersOf256(k: nat)
    requires k <= 4
    ensures Pow2(8 * k) == Bytes256(k)
  {
    assert Pow2(8) == 256;
    assert Pow2(16) == 256 * Pow2(8);
    assert Pow2(24) == 256 * Pow2(16);
    assert Pow2(32) == 256 * Pow2(24);
  }

  /** Exclusive or with fixed values tells apart what the low bits tell apart. */
  lemma XorLowInjective(c: nat, a: nat, b: nat, n: nat)
    ensures Xor(c, a) % Pow2(n) == Xor(c, b) % Pow2(n) <==> a % Pow2(n) == b % Pow2(n)
  {
    XorLow(c, a, n);
    XorLow(c, b, n);
    if Xor(c, a) % Pow2(n) == Xor(c, b) % Pow2(n) {
      XorInjective(c % Pow2(n), a % Pow2(n), b % Pow2(n));
    }
  }

  /** The low bytes of a poison word are those of another run's exactly when the low bytes of the run numbers are. */
  lemma PoisonLow(s: word, t: word, i: nat, k: nat)
    requires k <= 4
    ensures PoisonWord(s, i) % Bytes256(k) == PoisonWord(t, i) % Bytes256(k) <==> s % Bytes256(k) == t % Bytes256(k)
  {
    PowersOf256(k);
    var a, b, m := Xor(0xA5C3_0000, s), Xor(0xA5C3_0000, t), Stride(i);
    XorCommutes(a, m);
    XorCommutes(b, m);
    XorLowInjective(m, a, b, 8 * k);
    XorLowInjective(0xA5C3_0000, s, t, 8 * k);
  }

  lemma PoisonByte(n: word, i: nat, j: nat)
    requires i < POISON_WORDS && j < 4
    ensures PoisonBytes(n)[4 * i + j] == Le32(PoisonWord(n, i))[j]
  {
    WordAt(PoisonWords(n, POISON_WORDS), i);
    assert PoisonBytes(n)[4 * i..4 * i + 4][j] == PoisonBytes(n)[4 * i + j];
  }

  predicate A5s(l: seq<byte>, k: nat)
    requires |l| == 4 && k <= 4
  {
    (k >= 1 ==> l[0] == 0xA5) && (k >= 2 ==> l[1] == 0xA5) && (k >= 3 ==> l[2] == 0xA5) && (k >= 4 ==> l[3] == 0xA5)
  }

  lemma FilledIsA5s(l: seq<byte>, k: nat)
    requires |l| == 4 && k <= 4
    ensures l[..k] == Filled(OFM_POISON, k) <==> A5s(l, k)
  {
    assert forall j :: 0 <= j < k ==> l[..k][j] == l[j] && Filled(OFM_POISON, k)[j] == 0xA5;
  }

  lemma A5sAsNumber(w: word, l: seq<byte>, k: nat)
    requires |l| == 4 && k <= 4
    requires w == (l[0] as int) + 256 * (l[1] as int) + 0x1_0000 * (l[2] as int) + 0x100_0000 * (l[3] as int)
    ensures A5s(l, k) <==> w % Bytes256(k) == 0xA5A5_A5A5 % Bytes256(k)
  {
    NumberIsBytes(w, l[0], l[1], l[2], l[3], k);
  }

  lemma NumberIsBytes(w: word, a: int, b: int, c: int, d: int, k: nat)
    requires 0 <= a < 256 && 0 <= b < 256 && 0 <= c < 256 && 0 <= d < 256 && k <= 4
    requires w == a + 256 * b + 0x1_0000 * c + 0x100_0000 * d
    ensures w % Bytes256(k) == 0xA5A5_A5A5 % Bytes256(k)
       <==> (k >= 1 ==> a == 0xA5) && (k >= 2 ==> b == 0xA5) && (k >= 3 ==> c == 0xA5) && (k >= 4 ==> d == 0xA5)
  {
    LowBytes(w, a, b, c, d);
    LowBytes(0xA5A5_A5A5, 0xA5, 0xA5, 0xA5, 0xA5);
  }

  /** A word whose first `k` bytes are 0xA5. */
  lemma StartsWithA5(w: word, k: nat)
    requires k <= 4
    ensures Le32(w)[..k] == Filled(OFM_POISON, k) <==> w % Bytes256(k) == 0xA5A5_A5A5 % Bytes256(k)
  {
    ReadLe32(w);
    FilledIsA5s(Le32(w), k);
    A5sAsNumber(w, Le32(w), k);
  }

  lemma LowBytes(w: word, a: int, b: int, c: int, d: int)
    requires 0 <= a < 256 && 0 <= b < 256 && 0 <= c < 256 && 0 <= d < 256
    requires w == a + 256 * b + 0x1_0000 * c + 0x100_0000 * d
    ensures w % 256 == a && w % 0x1_0000 == a + 256 * b && w % 0x100_0000 == a + 256 * b + 0x1_0000 * c
  {
  }

  lemma LowestByte(x: nat)
    ensures x % U32 % 256 == x % 256
  {
  }

  lemma NextStride(i: nat)
    ensures Stride(i + 1) % 256 != Stride(i) % 256
  {
    LowestByte(i * 0x9E37_79B9);
    LowestByte((i + 1) * 0x9E37_79B9);
    assert (i + 1) * 0x9E37_79B9 == i * 0x9E37_79B9 + 0x9E37_79B9;
    DifferentLow(i * 0x9E37_79B9, 0x9E37_79B9);
  }

  lemma DifferentLow(x: nat, d: nat)
    requires d % 256 != 0
    ensures (x + d) % 256 != x % 256
  {
  }

  /** Neighbouring words of a poison differ in their lowest byte, whatever the run. */
  lemma NextWordDiffers(n: word, i: nat)
    ensures PoisonWord(n, i) % 256 != PoisonWord(n, i + 1) % 256
  {
    PowersOf256(1);
    NextStride(i);
    XorLowInjective(Xor32(0xA5C3_0000, n), Stride(i), Stride(i + 1), 8);
  }

  /** The first `k` bytes of the vendor's output buffer are poisoned with 0xA5, which is what an unwritten OFM holds. */
  predicate PoisonedLikeOfm(n: word, k: nat) {
    k == 0 || (k <= 4 && n % Bytes256(k) == A5_RUN % Bytes256(k))
  }

  lemma OutPoison(n: word, k: nat)
    requires k <= 4
    ensures PoisonBytes(n)[OUT_OFFSET..OUT_OFFSET + k] == Le32(PoisonWord(n, OUT_WORD))[..k]
  {
    forall j | 0 <= j < k
      ensures PoisonBytes(n)[OUT_OFFSET + j] == Le32(PoisonWord(n, OUT_WORD))[j]
    {
      PoisonByte(n, OUT_WORD, j);
    }
  }

  lemma ShortPoison(n: word, k: nat)
    requires k <= 4
    ensures PoisonBytes(n)[OUT_OFFSET..OUT_OFFSET + k] == Filled(OFM_POISON, k) <==> PoisonedLikeOfm(n, k)
  {
    OutPoison(n, k);
    StartsWithA5(PoisonWord(n, OUT_WORD), k);
    TheA5Run();
    PoisonLow(n, A5_RUN, OUT_WORD, k);
  }

  /** Exactly which runs: no run at all from five bytes on. */
  lemma A5Poison(n: word, k: nat)
    requires OUT_OFFSET + k <= POISON_SIZE
    ensures PoisonBytes(n)[OUT_OFFSET..OUT_OFFSET + k] == Filled(OFM_POISON, k) <==> PoisonedLikeOfm(n, k)
  {
    if k <= 4 {
      ShortPoison(n, k);
    } else {
      var p, w := PoisonBytes(n), PoisonWord(n, OUT_WORD);
      PoisonByte(n, OUT_WORD, 0);
      PoisonByte(n, OUT_WORD + 1, 0);
      NextWordDiffers(n, OUT_WORD);
      assert p[OUT_OFFSET..OUT_OFFSET + k][0] == p[OUT_OFFSET] && p[OUT_OFFSET..OUT_OFFSET + k][4] == p[OUT_OFFSET + 4];
    }
  }

  // ---- what an idle NPU leaves ----

  /** No IFM lies over byte `x` of the first OFM. */
  predicate Uncovered(h: Header, x: nat)
    requires h.outputs != []
  {
    LastCover(h.inputs, h.outputs[0].arenaOff + x).None?
  }

  /** An unwritten OFM byte that no IFM covers is 0xA5. */
  lemma UnwrittenByte(m: Space, h: Header, v: Vendor, x: nat)
    requires Ready(m, h, v.stackTop) && h.outputs != [] && x < CopiedBytes(h, v.outSize) && Uncovered(h, x)
    ensures x < |Unwritten(m, h, v)| && Unwritten(m, h, v)[x] == OFM_POISON
  {
    var y := IdleOutput(m, h, v, x);
    assert Covers(h.outputs[0], h.outputs[0].arenaOff + x);
  }

  lemma UnwrittenIsPoison(m: Space, h: Header, v: Vendor)
    requires Ready(m, h, v.stackTop) && h.outputs != [] && forall x :: 0 <= x < CopiedBytes(h, v.outSize) ==>
      Uncovered(h, x)
    ensures Unwritten(m, h, v) == Filled(OFM_POISON, CopiedBytes(h, v.outSize))
  {
    forall x | 0 <= x < CopiedBytes(h, v.outSize)
      ensures Unwritten(m, h, v)[x] == OFM_POISON
    {
      UnwrittenByte(m, h, v, x);
    }
  }

  /**
   When the NPU wrote nothing and no IFM lies over the bytes copied back, the output region is left as poisoned exactly
   in the runs whose poison is 0xA5 there: in every run if nothing is copied, in none if more than four bytes are, and
   else in those whose number ends in the bytes of A5_RUN, which for four bytes is that run alone.
   */
  lemma SkippedNpuKeepsPoison(s: State, h: Header, v: Vendor)
    requires Ready(WithPoison(s), h, v.stackTop) && h.outputs != [] && ValidVendor(v) && NpuSkipped(WithPoison(s), h, v)
    requires forall x :: 0 <= x < CopiedBytes(h, v.outSize) ==> Uncovered(h, x)
    ensures var m := WithPoison(s);
      Region(AfterRun(m, h, v)) == Region(m) <==> PoisonedLikeOfm(Add32(s.runCounter, 1), CopiedBytes(h, v.outSize))
  {
    var m, k := WithPoison(s), CopiedBytes(h, v.outSize);
    SkippedNpuRegion(m, h, v);
    UnwrittenIsPoison(m, h, v);
    RegionOfPoison(s);
    A5Poison(Add32(s.runCounter, 1), k);
  }

  /** No poison holds 0xA5 at the start of two neighbouring words. */
  lemma NoTwoA5(n: word, x: nat, y: nat)
    requires x % 4 == 0 && y == x + 4 && OUT_OFFSET + y < POISON_SIZE
    ensures PoisonBytes(n)[OUT_OFFSET + x] != OFM_POISON || PoisonBytes(n)[OUT_OFFSET + y] != OFM_POISON
  {
    var i := OUT_WORD + x / 4;
    assert 4 * i == OUT_OFFSET + x && 4 * (i + 1) == OUT_OFFSET + y;
    PoisonByte(n, i, 0);
    PoisonByte(n, i + 1, 0);
    NextWordDiffers(n, i);
  }

  /** A region left as poisoned holds the poison wherever the idle output was copied. */
  lemma KeptPoisonByte(s: State, h: Header, v: Vendor, x: nat)
    requires Ready(WithPoison(s), h, v.stackTop) && h.outputs != [] && ValidVendor(v) && NpuSkipped(WithPoison(s), h, v)
    requires x < CopiedBytes(h, v.outSize) && Uncovered(h, x)
    ensures OUT_OFFSET + x < POISON_SIZE
    ensures Region(AfterRun(WithPoison(s), h, v)) == Region(WithPoison(s)) ==>
      PoisonBytes(Add32(s.runCounter, 1))[OUT_OFFSET + x] == OFM_POISON
  {
    var m := WithPoison(s);
    var u, p := Unwritten(m, h, v), PoisonBytes(Add32(s.runCounter, 1));
    SkippedNpuRegion(m, h, v);
    UnwrittenByte(m, h, v, x);
    RegionOfPoison(s);
    ByteOfSlice(p, OUT_OFFSET, |u|, x);
  }

  lemma ByteOfSlice(p: seq<byte>, at: nat, n: nat, x: nat)
    requires at + n <= |p| && x < n
    ensures p[at..at + n][x] == p[at + x]
  {
  }

  /**
   The first bytes of two neighbouring output words, uncovered by any IFM, suffice: no run leaves both as poisoned.
   */
  lemma SkippedNpuBetrayed(s: State, h: Header, v: Vendor, x: nat)
    requires Ready(WithPoison(s), h, v.stackTop) && h.outputs != [] && ValidVendor(v) && NpuSkipped(WithPoison(s), h, v)
    requires x % 4 == 0 && x + 4 < CopiedBytes(h, v.outSize) && Uncovered(h, x) && Uncovered(h, x + 4)
    ensures Region(AfterRun(WithPoison(s), h, v)) != Region(WithPoison(s))
  {
    var n, y := Add32(s.runCounter, 1), x + 4;
    KeptPoisonByte(s, h, v, x);
    KeptPoisonByte(s, h, v, y);
    NoTwoA5(n, x, y);
  }

  // ---- what the gate makes of it ----

  /**
   What is copied back of the first OFM when the NPU wrote nothing: the last IFM over each byte, or the OFM poison.
   */
  function IdleBytes(h: Header, blob: seq<byte>, k: nat): (s: seq<byte>)
    requires h.outputs != [] && InBlob(blob, h.inputs)
    ensures |s| == k && forall x :: 0 <= x < k ==> s[x] == IdleByte(h, blob, x)
  {
    if k == 0 then [] else IdleBytes(h, blob, k - 1) + [IdleByte(h, blob, k - 1)]
  }

  function IdleByte(h: Header, blob: seq<byte>, x: nat): byte
    requires h.outputs != [] && InBlob(blob, h.inputs)
  {
    TensorByte(OFM_POISON, h.outputs, blob, h.inputs, h.outputs[0].arenaOff + x)
  }

  lemma UnwrittenIsIdle(m: Space, h: Header, v: Vendor)
    requires Ready(m, h, v.stackTop) && h.outputs != []
    ensures InBlob(Blob(m, h), h.inputs)
    ensures Unwritten(m, h, v) == IdleBytes(h, Blob(m, h), CopiedBytes(h, v.outSize))
  {
    ArenaFits(m, h, v.stackTop);
    var u, w := Unwritten(m, h, v), IdleBytes(h, Blob(m, h), CopiedBytes(h, v.outSize));
    forall x | 0 <= x < CopiedBytes(h, v.outSize)
      ensures u[x] == w[x]
    {
      UnwrittenIsIdleByte(m, h, v, x);
    }
  }

  lemma UnwrittenIsIdleByte(m: Space, h: Header, v: Vendor, x: nat)
    requires Ready(m, h, v.stackTop) && h.outputs != [] && x < CopiedBytes(h, v.outSize)
    ensures InBlob(Blob(m, h), h.inputs) && x < |Unwritten(m, h, v)|
    ensures Unwritten(m, h, v)[x] == IdleByte(h, Blob(m, h), x)
  {
    var was, blob, y := IdleWas(m, h, v, x);
    IdleIs(h, blob, x, y, was);
  }

  lemma IdleIs(h: Header, blob: seq<byte>, x: nat, y: nat, was: byte)
    requires h.outputs != [] && x < h.outputs[0].len && InBlob(blob, h.inputs) && y == h.outputs[0].arenaOff + x
    ensures TensorByte(was, h.outputs, blob, h.inputs, y) == IdleByte(h, blob, x)
  {
    FirstOfmCovers(h, x);
    CoveredByte(was, OFM_POISON, h.outputs, blob, h.inputs, y);
  }

  /** What was in the arena before, which nothing depends on. */
  lemma IdleWas(m: Space, h: Header, v: Vendor, x: nat) returns (was: byte, blob: seq<byte>, y: nat)
    requires Ready(m, h, v.stackTop) && h.outputs != [] && x < CopiedBytes(h, v.outSize)
    ensures blob == Blob(m, h) && InBlob(blob, h.inputs) && x < |Unwritten(m, h, v)|
    ensures x < h.outputs[0].len && y == h.outputs[0].arenaOff + x
    ensures Unwritten(m, h, v)[x] == TensorByte(was, h.outputs, blob, h.inputs, y)
  {
    y := IdleOutput(m, h, v, x);
    blob := Blob(m, h);
    was := m[Placed(h).arena + y];
  }

  lemma FirstOfmCovers(h: Header, x: nat)
    requires h.outputs != [] && x < h.outputs[0].len
    ensures LastCover(h.outputs, h.outputs[0].arenaOff + x).Some?
  {
    assert Covers(h.outputs[0], h.outputs[0].arenaOff + x);
  }

  /** Under an OFM it does not matter what was there before. */
  lemma CoveredByte(was: byte, other: byte, outs: seq<Tensor>, blob: seq<byte>, ins: seq<Tensor>, x: nat)
    requires InBlob(blob, ins) && LastCover(outs, x).Some?
    ensures TensorByte(was, outs, blob, ins, x) == TensorByte(other, outs, blob, ins, x)
  {
  }

  lemma UncoveredIdleBytes(h: Header, blob: seq<byte>, k: nat)
    requires h.outputs != [] && InBlob(blob, h.inputs) && forall x :: 0 <= x < k ==> Uncovered(h, x)
    ensures IdleBytes(h, blob, k) == Filled(OFM_POISON, k)
  {
    forall x | 0 <= x < k
      ensures IdleByte(h, blob, x) == OFM_POISON
    {
      assert Uncovered(h, x);
    }
  }

  /** The output region after such a run: the poison of the run, with the idle bytes over it. */
  lemma RegionAfterIdle(s: State, h: Header, v: Vendor)
    requires Ready(WithPoison(s), h, v.stackTop) && h.outputs != [] && ValidVendor(v) && NpuSkipped(WithPoison(s), h, v)
    ensures OUT_OFFSET + |Unwritten(WithPoison(s), h, v)| <= POISON_SIZE
    ensures Region(AfterRun(WithPoison(s), h, v))
         == Store(PoisonBytes(Add32(s.runCounter, 1)), OUT_OFFSET, Unwritten(WithPoison(s), h, v))
  {
    var m, p := WithPoison(s), PoisonBytes(Add32(s.runCounter, 1));
    var prepared, out := Prepared(m, h, v.stackTop), Unwritten(m, h, v);
    forall i | 0 <= i < POISON_SIZE
      ensures Region(AfterRun(m, h, v))[i] == Store(p, OUT_OFFSET, out)[i]
    {
      LoadedByte(AfterRun(m, h, v), POISON_BASE, POISON_SIZE, i);
      StoredByte(prepared, VENDOR_OUT, out, POISON_BASE + i);
      StoredByte(p, OUT_OFFSET, out, i);
      KeptByte(m, h, v.stackTop, POISON_BASE + i);
      LoadedByte(m, POISON_BASE, POISON_SIZE, i);
      RegionOfPoison(s);
    }
  }

  /** The header a RUN in this state finds in staging. */
  function StagedHeader(s: State): Header
    requires Accepted(PmwlRun.Window(WithPoison(s)), s.model.total)
  {
    ParseHeader(PmwlRun.Window(WithPoison(s))).value
  }

  /** A RUN of the wrapped test that gets as far as starting the NPU, which then writes nothing. */
  ghost predicate RunsIdle(s: State, e: RunEnv, v: Vendor) {
    && CallsPmwl(s, e, v) && RunsThrough(WithPoison(s), s.model.total, v)
    && Ready(WithPoison(s), StagedHeader(s), v.stackTop) && StagedHeader(s).outputs != []
    && NpuSkipped(WithPoison(s), StagedHeader(s), v)
  }

  lemma IdleRunLeaves(s: State, e: RunEnv, v: Vendor)
    requires RunsIdle(s, e, v)
    ensures MemoryAfter(s, e) == AfterRun(WithPoison(s), StagedHeader(s), v)
  {
  }

  /** What such a RUN copies back, from the staged blob alone. */
  function IdleCopy(s: State, v: Vendor): (out: seq<byte>)
    requires Accepted(PmwlRun.Window(WithPoison(s)), s.model.total) && ValidVendor(v)
    requires Ready(WithPoison(s), StagedHeader(s), v.stackTop) && StagedHeader(s).outputs != []
    ensures OUT_OFFSET + |out| <= POISON_SIZE
  {
    var h := StagedHeader(s);
    ArenaFits(WithPoison(s), h, v.stackTop);
    IdleBytes(h, Blob(WithPoison(s), h), CopiedBytes(h, v.outSize))
  }

  /** The checksum of run `n`'s poison does not change when these bytes are written over it. */
  predicate LooksPoisoned(n: word, out: seq<byte>)
    requires OUT_OFFSET + |out| <= POISON_SIZE
  {
    Crc(Store(PoisonBytes(n), OUT_OFFSET, out)) == Crc(PoisonBytes(n))
  }

  lemma IdleRunIsTrusted(s: State, e: Event, v: Vendor)
    requires Possible(s, e) && IsRun(s, e) && RunsIdle(s, e.env.run, v)
    ensures Trustworthy(Add32(s.runCounter, 1), RanBy(s, e))
       <==> e.env.run.rc == 0 && Coarse(e.env.run.readings) && !LooksPoisoned(Add32(s.runCounter, 1), IdleCopy(s, v))
  {
    var h := StagedHeader(s);
    IdleRunLeaves(s, e.env.run, v);
    UnwrittenIsIdle(WithPoison(s), h, v);
    RegionAfterIdle(s, h, v);
  }

  /**
   The gate and a skipped NPU, for outputs of any length. The `n`-th RUN from boot starts an NPU that writes nothing.
   Its result is served, to whoever asks for it, exactly when the vendor's code returned 0 in a window that took time
   and the bytes copied back, which the blob alone decides, change the checksum of the poison of run `n`.
   */
  lemma SkippedNpuServed(s: State, log: seq<Ran>, e: Event, v: Vendor, g: Event)
    requires Inv(s, log) && |log| < U32 - 1 && Possible(s, e) && IsRun(s, e) && RunsIdle(s, e.env.run, v)
    requires Possible(Step(s, e).s, g) && IsRequest(g, CMD_GET_RESULT) && Asks(g.heard.payload, |log| + 1)
    ensures Served(Step(Step(s, e).s, g))
       <==> e.env.run.rc == 0 && Coarse(e.env.run.readings) && !LooksPoisoned(|log| + 1, IdleCopy(s, v))
  {
    var t, n := Step(s, e).s, |log| + 1;
    StepOfRun(s, e);
    NextNumber(s, log);
    StepOfGetResult(t, g);
    OfferedResult(Received(t, g.consumed, g.resyncs), n, RanBy(s, e), g.heard.sequence, g.heard.payload);
    IdleRunIsTrusted(s, e, v);
  }

  // ---- outputs under no IFM ----

  /** Of the first OFM, no byte that is copied back lies under an IFM. */
  predicate AllUncovered(h: Header, outSize: nat)
    requires h.outputs != []
  {
    forall x :: 0 <= x < CopiedBytes(h, outSize) ==> Uncovered(h, x)
  }

  /** Then what is copied back is 0xA5 throughout, and the condition is one on the run's number and the length alone. */
  lemma UncoveredIdleCopy(s: State, v: Vendor)
    requires Accepted(PmwlRun.Window(WithPoison(s)), s.model.total) && ValidVendor(v)
    requires Ready(WithPoison(s), StagedHeader(s), v.stackTop) && StagedHeader(s).outputs != []
    requires AllUncovered(StagedHeader(s), v.outSize)
    ensures IdleCopy(s, v) == Filled(OFM_POISON, CopiedBytes(StagedHeader(s), v.outSize))
  {
    var h := StagedHeader(s);
    ArenaFits(WithPoison(s), h, v.stackTop);
    UncoveredIdleBytes(h, Blob(WithPoison(s), h), CopiedBytes(h, v.outSize));
  }

  lemma StoredOver(p: seq<byte>, at: nat, out: seq<byte>)
    requires at + |out| <= |p|
    ensures Store(p, at, out) == p <==> p[at..at + |out|] == out
  {
    var s := Store(p, at, out);
    assert s[at..at + |out|] == out;
    if p[at..at + |out|] == out {
      assert p == p[..at] + p[at..at + |out|] + p[at + |out|..];
    }
  }

  /** Up to four bytes: the checksum tells them exactly when they differ from the poison, which A5_RUN decides. */
  lemma ShortLooksPoisoned(n: word, k: nat)
    requires k <= 4
    ensures LooksPoisoned(n, Filled(OFM_POISON, k)) <==> PoisonedLikeOfm(n, k)
  {
    var p, out := PoisonBytes(n), Filled(OFM_POISON, k);
    var s := Store(p, OUT_OFFSET, out);
    StoredOver(p, OUT_OFFSET, out);
    A5Poison(n, k);
    if s != p {
      forall i | 0 <= i < POISON_SIZE && !(OUT_OFFSET <= i < OUT_OFFSET + 4)
        ensures s[i] == p[i]
      {
        StoredByte(p, OUT_OFFSET, out, i);
      }
      BurstChangesCrc(p, s, OUT_OFFSET);
    }
  }

  /**
   For outputs of up to four bytes under no IFM, a skipped NPU is caught in the runs that end like A5_RUN, and no
   other.
   */
  lemma ShortSkippedNpuServed(s: State, log: seq<Ran>, e: Event, v: Vendor, g: Event)
    requires Inv(s, log) && |log| < U32 - 1 && Possible(s, e) && IsRun(s, e) && RunsIdle(s, e.env.run, v)
    requires AllUncovered(StagedHeader(s), v.outSize) && CopiedBytes(StagedHeader(s), v.outSize) <= 4
    requires Possible(Step(s, e).s, g) && IsRequest(g, CMD_GET_RESULT) && Asks(g.heard.payload, |log| + 1)
    ensures Served(Step(Step(s, e).s, g))
       <==> e.env.run.rc == 0 && Coarse(e.env.run.readings)
            && !PoisonedLikeOfm(|log| + 1, CopiedBytes(StagedHeader(s), v.outSize))
  {
    SkippedNpuServed(s, log, e, v, g);
    UncoveredIdleCopy(s, v);
    ShortLooksPoisoned(|log| + 1, CopiedBytes(StagedHeader(s), v.outSize));
  }
}
