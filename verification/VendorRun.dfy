/** The PMWL test as the vendor code a RUN calls: what it may do to the run's verdict, and what it may not. */
module VendorRun {
  import opened Bytes
  import opened BitOps
  import opened Memory
  import opened Poison
  import opened Pmwl
  import opened PmwlFirmware
  import opened Placement
  import opened PmwlRun
  import opened Runner
  import opened RunHistory

  /** In state `s` the vendor call is the wrapped test. */
  predicate CallsPmwl(s: State, e: RunEnv, v: Vendor) {
    ValidVendor(v) && Runnable(WithPoison(s), s.model.total) && MemoryAfter(s, e) == AfterTest(WithPoison(s),
                s.model.total, v)
  }

  /** A RUN that calls the wrapped test is always possible: the test leaves the staged model as it found it. */
  lemma PmwlRunIsPossible(s: State, e: Event, v: Vendor)
    requires Sound(s) && ValidEnv(e.env) && |e.env.run.readings.raw| == 36 && CallsPmwl(s, e.env.run, v)
    ensures Possible(s, e)
  {
    TestKeepsBlob(WithPoison(s), s.model.total, v);
    SoundStatesGoOn(s, e);
  }

  lemma RegionOfPoison(s: State)
    ensures Region(WithPoison(s)) == PoisonBytes(Add32(s.runCounter, 1))
  {
    LoadStored(s.mem, POISON_BASE, PoisonBytes(Add32(s.runCounter, 1)));
  }

  lemma RegionKept(m: Space, modelTotal: word, v: Vendor)
    requires Runnable(m, modelTotal) && ValidVendor(v) && !RunsThrough(m, modelTotal, v)
    ensures Region(AfterTest(m, modelTotal, v)) == Region(m)
  {
    var r := AfterTest(m, modelTotal, v);
    forall i | POISON_BASE <= i < POISON_BASE + POISON_SIZE
      ensures r[i] == m[i]
    {
      RefusedKeepsByte(m, modelTotal, v, i);
    }
  }

  lemma RefusedKeepsByte(m: Space, modelTotal: word, v: Vendor, i: nat)
    requires Runnable(m, modelTotal) && ValidVendor(v) && !RunsThrough(m, modelTotal, v)
    requires Inside(NOINIT_BASE, NOINIT_SIZE, i)
    ensures AfterTest(m, modelTotal, v)[i] == m[i]
  {
    if Accepted(PmwlRun.Window(m), modelTotal) {
      AcceptedHasOutput(PmwlRun.Window(m), modelTotal);
      var h := ParseHeader(PmwlRun.Window(m)).value;
      if OnChipRefused(h, v.stackTop) {
        CodeKeepsByte(m, h, i);
      } else {
        KeptByte(m, h, v.stackTop, i);
      }
    }
  }

  /** A blob that is refused, at whatever point, leaves the region poisoned, so its result is never served. */
  lemma RefusedIsNeverTrusted(s: State, e: Event, v: Vendor)
    requires Possible(s, e) && IsRun(s, e) && CallsPmwl(s, e.env.run, v)
    requires !RunsThrough(WithPoison(s), s.model.total, v)
    ensures !Trustworthy(Add32(s.runCounter, 1), RanBy(s, e))
  {
    RegionKept(WithPoison(s), s.model.total, v);
    RegionOfPoison(s);
  }

  // ---- a skipped NPU ----

  const OUT_OFFSET: nat := VENDOR_OUT - POISON_BASE

  lemma RegionSlice(m: Space, n: nat)
    requires OUT_OFFSET + n <= POISON_SIZE
    ensures Load(m, VENDOR_OUT, n) == Region(m)[OUT_OFFSET..OUT_OFFSET + n]
  {
    SliceOfSlice(m, POISON_BASE, POISON_BASE + POISON_SIZE, OUT_OFFSET, OUT_OFFSET + n);
  }

  /** What the vendor's buffer receives when the NPU wrote nothing. */
  function Unwritten(m: Space, h: Header, v: Vendor): seq<byte>
    requires Ready(m, h, v.stackTop) && h.outputs != []
  {
    PlacementIsSeparate(h, v.stackTop);
    Produced(Prepared(m, h, v.stackTop), h, v.outSize)
  }

  lemma RegionFromNoinit(a: Space, b: Space)
    requires Agree(a, b, NOINIT_BASE, NOINIT_SIZE)
    ensures Region(a) == Region(b)
  {
    AgreeInside(a, b, NOINIT_BASE, NOINIT_SIZE, POISON_BASE, POISON_SIZE);
  }

  lemma OutsideRegionKept(m: Space, h: Header, v: Vendor)
    requires Ready(m, h, v.stackTop) && h.outputs != [] && ValidVendor(v) && Region(AfterRun(m, h, v)) == Region(m)
    ensures Agree(AfterRun(m, h, v), m, NOINIT_BASE, NOINIT_SIZE)
  {
    var r := AfterRun(m, h, v);
    forall i | NOINIT_BASE <= i < POISON_BASE
      ensures r[i] == m[i]
    {
      RunKeepsByte(m, h, v, i);
    }
    BelowAndRegion(r, m);
  }

  lemma BelowAndRegion(a: Space, b: Space)
    requires Region(a) == Region(b) && forall i :: NOINIT_BASE <= i < POISON_BASE ==> a[i] == b[i]
    ensures Agree(a, b, NOINIT_BASE, NOINIT_SIZE)
  {
  }

  /**
   The poison does not by itself catch a skipped NPU. When the NPU wrote nothing, the copy-back still writes the bytes
   the placement prepared, 0xA5 or IFM data, so the region is left as poisoned exactly when those bytes are the poison.
   */
  lemma SkippedNpuRegion(m: Space, h: Header, v: Vendor)
    requires Ready(m, h, v.stackTop) && h.outputs != [] && ValidVendor(v) && NpuSkipped(m, h, v)
    ensures OUT_OFFSET + |Unwritten(m, h, v)| <= POISON_SIZE
    ensures Region(AfterRun(m, h, v)) == Region(m)
       <==> Unwritten(m, h, v) == Region(m)[OUT_OFFSET..OUT_OFFSET + |Unwritten(m, h, v)|]
  {
    SkippedNpuStillCopies(m, h, v);
    RegionSlice(m, |Unwritten(m, h, v)|);
    if Region(AfterRun(m, h, v)) == Region(m) {
      OutsideRegionKept(m, h, v);
    } else if Agree(AfterRun(m, h, v), m, NOINIT_BASE, NOINIT_SIZE) {
      RegionFromNoinit(AfterRun(m, h, v), m);
    }
  }

  /** For example the first run: four OFM bytes that nothing wrote are not what it was poisoned with. */
  lemma FirstRunPoisonIsNotA5()
    ensures PoisonBytes(1)[OUT_OFFSET..OUT_OFFSET + 4] != Filled(OFM_POISON, 4)
  {
    var w := PoisonWord(1, 240);
    XorBit(0xA5C3_0000, 1, 2);
    XorBit(Xor32(0xA5C3_0000, 1), Stride(240), 2);
    SecondBits();
    assert !BitAt(w, 2);
    WordAt(PoisonWords(1, POISON_WORDS), 240);
    var p := PoisonBytes(1)[960..964];
    assert p[0] == w % 256;
    NotA5(w);
  }

  lemma SecondBits()
    ensures !BitAt(0xA5C3_0000, 2) && !BitAt(1, 2) && !BitAt(Stride(240), 2)
  {
  }

  lemma ThirdBit(w: nat)
    ensures BitAt(w, 2) <==> w / 2 / 2 % 2 == 1
  {
    assert BitAt(w, 2) == BitAt(w / 2, 1) == BitAt(w / 2 / 2, 0);
  }

  lemma NotA5(w: nat)
    requires !BitAt(w, 2)
    ensures w % 256 != 0xA5
  {
    ThirdBit(w);
  }
}
