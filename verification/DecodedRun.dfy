/** What the host decodes of a run, told by what the hardware and the vendor's code did. */
module DecodedRun {
  import opened Bytes
  import opened BitOps
  import opened Crc32
  import opened Frames
  import opened Measurement
  import opened HostRecord
  import opened RunRecord
  import opened Memory
  import opened Poison
  import opened Runner
  import opened Histories
  import opened RunHistory
  import opened Answers

  /** The host reads this out of the record of a run. */
  lemma HostReads(c: Config, p: Probe, h: Readings, uartBytes: word, o: Outcome) returns (m: Measured, b: PmuBlock)
    requires c.eventCount <= SLOTS && |h.raw| == 36
    ensures var r := BuildRecord(c, p, h, uartBytes, o);
      && ParseMeasurement(RunComplete(o.runSequence, o.flags, o.rc, r)) == Ok(m) && m.pmu == Some(b) && Derived(b)
      && m.runSequence == o.runSequence && m.validFlags == o.flags && m.runRc == o.rc && m.fields == r.basic
      && b.a == PmuScalarsA(c, p, h) && b.b == PmuScalarsB(c, h)
      && b.eventCodes == Vouched(b.a.eventValidMask, c.eventCodes)
      && b.eventValues == Vouched(b.a.eventValidMask, EventValues(c, h.seam))
  {
    var r := BuildRecord(c, p, h, uartBytes, o);
    RunCompleteRoundTrip(o.runSequence, o.flags, o.rc, r);
    m := ParseMeasurement(RunComplete(o.runSequence, o.flags, o.rc, r)).value;
    b := m.pmu.value;
  }

  // ---- the cycle count ----

  lemma TopBit(w: word)
    ensures BitAt(w, 31) <==> w >= 0x8000_0000
  {
    BitIsDigit(w, 31);
    PowersOfTwo();
  }

  lemma PowersOfTwo()
    ensures Pow2(31) == 0x8000_0000
  {
    assert Pow2(8) == 256;
    assert Pow2(16) == 65536;
    assert Pow2(24) == 0x100_0000;
  }

  /** The two words carry this 48-bit count. */
  predicate Carry(lo: word, hi: word, n: nat) { n < 0x1_0000_0000_0000 && lo == n % U32 && hi == n / U32 }

  /** A run in this mode read the counter as `n`, cleanly or not, with or without its overflow bit. */
  predicate CyclesRead(c: Config, h: Readings, n: nat, stable: bool, overflowed: bool) {
    if c.mode == 2 then
      Carry(h.seam.cycleLo, h.seam.cycleHi, n) && stable == h.seam.stable
      && overflowed == (h.seam.overflow >= 0x8000_0000)
    else
      && c.mode == 1 && Carry(h.cycleLo, h.cycleHi, n) && stable == h.cycleStable
      && overflowed == (h.overflow >= 0x8000_0000)
  }

  lemma CarriedBack(lo: word, hi: word, raw: nat, n: nat)
    requires Carry(lo, hi, n) && IsCycleCount(raw, lo, hi)
    ensures raw == n
  {
  }

  /** The counter was armed when its own enable bit and the global one read back as set. */
  lemma CountedIffArmed(c: Config, h: Readings, n: nat, stable: bool, overflowed: bool)
    requires CyclesRead(c, h, n, stable, overflowed)
    ensures PmuScalarsB(c, h).cycleValid != 0
       <==> h.counterEnables >= 0x8000_0000 && h.pmcrEnabled % 2 == 1 && stable && !overflowed
    ensures Carry(PmuScalarsB(c, h).windowCyclesLo, PmuScalarsB(c, h).windowCyclesHi, n)
  {
    TopBit(h.counterEnables);
    TopBit(h.seam.overflow);
    TopBit(h.overflow);
  }

  /**
   The measurement itself: in the modes that count, the host decodes exactly the 48-bit count the run read, and
   vouches for it exactly when the counter was armed, the read was stable and the counter had not overflowed.
   */
  lemma CyclesReachHost(c: Config, p: Probe, h: Readings, uartBytes: word, o: Outcome, n: nat, stable: bool,
                        overflowed: bool) returns (m: Measured, b: PmuBlock)
    requires c.eventCount <= SLOTS && |h.raw| == 36 && CyclesRead(c, h, n, stable, overflowed)
    ensures ParseMeasurement(RunComplete(o.runSequence, o.flags, o.rc, BuildRecord(c, p, h, uartBytes, o))) == Ok(m)
    ensures m.pmu == Some(b) && b.windowCyclesRaw == n
    ensures b.windowCycles == if h.counterEnables >= 0x8000_0000 && h.pmcrEnabled % 2 == 1 && stable && !overflowed
                              then Some(n) else None
  {
    m, b := HostReads(c, p, h, uartBytes, o);
    CountedIffArmed(c, h, n, stable, overflowed);
    CarriedBack(b.b.windowCyclesLo, b.b.windowCyclesHi, b.windowCyclesRaw, n);
  }

  /** With instrumentation off there is no count. */
  lemma NoCyclesWhenOff(c: Config, p: Probe, h: Readings, uartBytes: word, o: Outcome)
    returns (m: Measured, b: PmuBlock)
    requires c.eventCount <= SLOTS && |h.raw| == 36 && c.mode != 1 && c.mode != 2
    ensures ParseMeasurement(RunComplete(o.runSequence, o.flags, o.rc, BuildRecord(c, p, h, uartBytes, o))) == Ok(m)
    ensures m.pmu == Some(b) && b.windowCyclesRaw == 0 && b.windowCycles == None
  {
    m, b := HostReads(c, p, h, uartBytes, o);
    CarriedBack(b.b.windowCyclesLo, b.b.windowCyclesHi, b.windowCyclesRaw, 0);
  }

  // ---- the event slots ----

  /** Slot `k` was armed and did not overflow. */
  predicate SlotGood(c: Config, h: Readings, k: nat) {
    c.mode == 2 && k < c.eventCount && !BitAt(h.seam.overflow, k)
  }

  lemma VouchedIffGood(c: Config, p: Probe, h: Readings, k: nat)
    requires c.eventCount <= SLOTS && k < SLOTS
    ensures BitAt(PmuScalarsA(c, p, h).eventValidMask, k) <==> SlotGood(c, h, k)
    ensures SlotGood(c, h, k) ==> !BitAt(PmuScalarsA(c, p, h).eventOverflowMask, k)
  {
    if c.mode == 2 {
      AndNotBit(LowOnes(c.eventCount), OverflowMask(h.seam), k);
      LowOnesBit(c.eventCount, k);
      OverflowMaskBit(h.seam, k);
    } else {
      ZeroHasNoBits(k);
    }
  }

  /** A slot reaches the host, whole and not overflowed, exactly when it was armed and did not overflow. */
  lemma SlotsReachHost(c: Config, p: Probe, h: Readings, uartBytes: word, o: Outcome, k: nat)
    returns (m: Measured, b: PmuBlock)
    requires c.eventCount <= SLOTS && |h.raw| == 36 && k < SLOTS
    ensures ParseMeasurement(RunComplete(o.runSequence, o.flags, o.rc, BuildRecord(c, p, h, uartBytes, o))) == Ok(m)
    ensures m.pmu == Some(b) && |b.eventCodes| == |b.eventValues| == |b.eventOverflow| == SLOTS
    ensures if SlotGood(c, h, k) then
              b.eventCodes[k] == Some(c.eventCodes[k]) && b.eventValues[k] == Some(h.seam.events[k])
              && b.eventOverflow[k] == Some(false)
            else b.eventCodes[k] == None && b.eventValues[k] == None && b.eventOverflow[k] == None
  {
    m, b := HostReads(c, p, h, uartBytes, o);
    VouchedIffGood(c, p, h, k);
  }

  // ---- durations ----

  /** A 32-bit timer reads `d` ticks later. */
  predicate Later(from: word, to: word, d: nat) { d < U32 && to == (from + d) % U32 }

  lemma ElapsedIs(from: word, to: word, d: nat)
    requires Later(from, to, d)
    ensures Sub32(to, from) == d
  {
  }

  /** The three durations of a run are the true ones, across the wrap of the timer. */
  lemma DurationsReachHost(c: Config, p: Probe, h: Readings, uartBytes: word, o: Outcome, window: nat, call: nat,
                           after: nat) returns (m: Measured, b: PmuBlock)
    requires c.eventCount <= SLOTS && |h.raw| == 36 && Later(h.tsOpen, h.tsClose, window)
    requires Later(h.tCallEnter, h.tCallReturn, call) && Later(h.tCallReturn, h.tPmuDisable, after)
    ensures ParseMeasurement(RunComplete(o.runSequence, o.flags, o.rc, BuildRecord(c, p, h, uartBytes, o))) == Ok(m)
    ensures m.pmu == Some(b) && |m.fields| == 47 && m.fields[4] == window && b.b.cpuCallWindowCycles == call
    ensures b.b.cpuReturnToDisableCycles == after
  {
    m, b := HostReads(c, p, h, uartBytes, o);
    ElapsedIs(h.tsOpen, h.tsClose, window);
    ElapsedIs(h.tCallEnter, h.tCallReturn, call);
    ElapsedIs(h.tCallReturn, h.tPmuDisable, after);
  }

  // ---- everything else, field by field ----

  /** The 47 fields, by their place. */
  predicate FieldsAre(f: seq<word>, h: Readings, uartBytes: word, o: Outcome) {
    && |f| == 47 && |h.raw| == 36 && f[0] == 1 && f[1] == o.rc && f[2] == h.tsOpen && f[3] == h.tsClose
    && f[5] == (if h.timestampsLive then 1 else 0)
    && (forall i :: 0 <= i < 36 && i != 12 ==> f[i + 6] == h.raw[i]) && f[18] == uartBytes
    && f[42] == o.runSequence && f[43] == o.flags && f[44] == o.poisonCrc && f[45] == o.outputCrc
    && f[46] == o.regionCrc
  }

  /** The configuration a run was made under, as its record carries it. */
  predicate ConfigIs(a: ScalarsA, c: Config, p: Probe) {
    && a.recordSchemaVersion == 1 && a.modeRequested == c.mode && a.modeApplied == c.mode
    && a.eventSetId == c.eventSetId && a.configurationSequence == c.configurationSequence
    && a.requestedEventCount == c.eventCount && a.appliedEventCount == (if c.mode == 2 then c.eventCount else 0)
    && a.expectedHwEventCounterCount == 8 && a.abiEventSlotCount == 8
    && if c.mode == 1 || c.mode == 2 then
         && a.pmuPresent == (if p.present then 1 else 0) && a.probePerformed == (if p.performed then 1 else 0)
         && a.hwEventCounterCount == p.hwEventCounters
         && a.effectiveEventSlotCount == (if p.hwEventCounters < 8 then p.hwEventCounters else 8)
       else a.pmuPresent == 0 && a.probePerformed == 0 && a.hwEventCounterCount == 0 && a.effectiveEventSlotCount == 0
  }

  /** The instants, the register accesses and the evidence, as the run read them. */
  predicate ReadingsAre(b: ScalarsB, c: Config, h: Readings) {
    var on := c.mode == 1 || c.mode == 2;
    && b.tPmuEnable == h.tPmuEnable && b.tCallEnter == h.tCallEnter && b.tCallReturn == h.tCallReturn
    && b.tPmuDisable == h.tPmuDisable && b.tPmuProgramming == h.tPmuProgramming && b.tResultProcessing == h.tResult
    && b.mmioReadTotal == h.readTotal && b.mmioWriteTotal == h.writeTotal && b.mmioReadDelta == h.readDelta
    && b.mmioWriteDelta == h.writeDelta && b.completionWaitMode == 1
    && b.sampleValid == (if on then 1 else 0) && b.pmcrAtDisable == (if on then h.pmcrAtDisable else 0)
    && b.cycleReadRetryCount == (if c.mode == 2 then h.seam.retries else if c.mode == 1 then h.cycleRetries else 0)
    && b.cycleCounterArmed == (if on && h.counterEnables >= 0x8000_0000 then 1 else 0)
    && b.cycleGlobalEnableVerified == (if on && h.pmcrEnabled % 2 == 1 then 1 else 0)
    && b.cycleReadStable == (if (c.mode == 2 && h.seam.stable) || (c.mode == 1 && h.cycleStable) then 1 else 0)
    && b.cycleOverflow == (if (c.mode == 2 && h.seam.overflow >= 0x8000_0000)
                              || (c.mode == 1 && h.overflow >= 0x8000_0000) then 1 else 0)
    && b.cycleProgressObserved == (if b.windowCyclesLo == 0 && b.windowCyclesHi == 0 then 0 else 1)
  }

  lemma EvidenceIs(c: Config, h: Readings)
    ensures ReadingsAre(PmuScalarsB(c, h), c, h)
  {
    TopBit(h.counterEnables);
    TopBit(h.seam.overflow);
    TopBit(h.overflow);
  }

  lemma BasicIs(c: Config, p: Probe, h: Readings, uartBytes: word, o: Outcome)
    requires c.eventCount <= SLOTS && |h.raw| == 36
    ensures FieldsAre(BuildRecord(c, p, h, uartBytes, o).basic, h, uartBytes, o)
  {
    var f, raw := BuildRecord(c, p, h, uartBytes, o).basic, h.raw[12 := uartBytes];
    assert forall i :: 0 <= i < 36 ==> raw[i] == f[i + 6];
  }

  /** The seven words appended: in EVENTS mode those of the read seam and of the comparison, else none. */
  predicate TailIs(t: Tail, c: Config, h: Readings) {
    if c.mode == 2 then
      && t.readSeamFired == h.seam.fired && t.vendorRc == h.seam.vendorRc && t.seamNpuStatus == h.seam.npuStatus
      && t.seamNpuQread == h.seam.npuQread && t.ofmMismatchCount == h.ofm.mismatchCount
      && t.ofmMaxAbsDiff == h.ofm.maxAbsDiff && t.ofmFirstMismatch == h.ofm.firstMismatch
    else
      && t.readSeamFired == 0 && t.vendorRc == 0 && t.seamNpuStatus == 0 && t.seamNpuQread == 0
      && t.ofmMismatchCount == 0 && t.ofmMaxAbsDiff == 0
      && t.ofmFirstMismatch == (if c.mode == 1 then 0xFFFF_FFFF else 0)
  }

  /** Every field the host decodes is what the run read, configured or decided, none in another's place. */
  lemma RecordTellsRun(c: Config, p: Probe, h: Readings, uartBytes: word, o: Outcome)
    returns (m: Measured, b: PmuBlock)
    requires c.eventCount <= SLOTS && |h.raw| == 36
    ensures ParseMeasurement(RunComplete(o.runSequence, o.flags, o.rc, BuildRecord(c, p, h, uartBytes, o))) == Ok(m)
    ensures m.runSequence == o.runSequence && m.validFlags == o.flags && m.runRc == o.rc && m.pmu == Some(b)
    ensures FieldsAre(m.fields, h, uartBytes, o) && ConfigIs(b.a, c, p) && ReadingsAre(b.b, c, h)
    ensures |m.trailing| == 7 && TailIs(ReadTail(m.trailing), c, h)
  {
    m, b := HostReads(c, p, h, uartBytes, o);
    BasicIs(c, p, h, uartBytes, o);
    EvidenceIs(c, h);
    RunCompleteRoundTrip(o.runSequence, o.flags, o.rc, BuildRecord(c, p, h, uartBytes, o));
  }

  // ---- the verdict of a RUN ----

  /** The five verdict bits, one by one. */
  predicate FlagsSay(f: word, rcZero: bool, changed: bool, coarse: bool, expected: bool) {
    && f < 32 && f % 2 == 1 && (f / 2 % 2 == 1 <==> rcZero) && (f / 4 % 2 == 1 <==> changed)
    && (f / 8 % 2 == 1 <==> coarse) && (f / 16 == 1 <==> expected)
  }

  lemma FlagsAre(rc: word, changed: bool, coarse: bool, expected: bool)
    ensures FlagsSay(RunFlags(rc, changed, coarse, expected), rc == 0, changed, coarse, expected)
  {
  }

  /** What a run decides, from the memory the vendor's code left. */
  predicate OutcomeTells(o: Outcome, n: word, rc: word, after: Space, h: Readings) {
    && o.rc == rc && o.runSequence == n && o.poisonCrc == Crc(PoisonBytes(n))
    && o.outputCrc == Crc(after[POISON_BASE..POISON_BASE + POISON_SIZE])
    && o.regionCrc == Crc(after[NOINIT_BASE..NOINIT_BASE + NOINIT_SIZE])
    && FlagsSay(o.flags, rc == 0, o.outputCrc != o.poisonCrc, h.timestampsLive && h.tsOpen != h.tsClose,
                o.regionCrc == 0x2708_4C4C)
  }

  lemma OutcomeIs(s: State, run: RunEnv)
    requires CanRun(s, run)
    ensures OutcomeTells(RunOutcome(s, run), Add32(s.runCounter, 1), run.rc, MemoryAfter(s, run), run.readings)
  {
    var o, h := RunOutcome(s, run), run.readings;
    CoarseIs(h);
    FlagsAre(run.rc, o.outputCrc != o.poisonCrc, Coarse(h), o.regionCrc == EXPECTED_CRC);
  }

  lemma CoarseIs(h: Readings)
    ensures Coarse(h) <==> h.timestampsLive && h.tsOpen != h.tsClose
  {
  }

  /** All slots at once. */
  ghost predicate SlotsAre(codes: seq<Option<word>>, c: Config, h: Readings) {
    |codes| == SLOTS
    && forall k :: 0 <= k < SLOTS ==> codes[k] == if SlotGood(c, h, k) then Some(c.eventCodes[k]) else None
  }

  lemma CodesReachHost(c: Config, p: Probe, h: Readings, uartBytes: word, o: Outcome)
    returns (m: Measured, b: PmuBlock)
    requires c.eventCount <= SLOTS && |h.raw| == 36
    ensures ParseMeasurement(RunComplete(o.runSequence, o.flags, o.rc, BuildRecord(c, p, h, uartBytes, o))) == Ok(m)
    ensures m.pmu == Some(b) && SlotsAre(b.eventCodes, c, h)
  {
    m, b := HostReads(c, p, h, uartBytes, o);
    forall k | 0 <= k < SLOTS
      ensures b.eventCodes[k] == if SlotGood(c, h, k) then Some(c.eventCodes[k]) else None
    {
      VouchedIffGood(c, p, h, k);
    }
  }

  /** The frame an accepted RUN reports itself by. */
  lemma RunReportIs(s: State, e: Event) returns (p: Payload, uartBytes: word)
    requires Possible(s, e) && IsRun(s, e)
    ensures |Step(s, e).out| == 2 && Step(s, e).out[1].payload == p
    ensures var o, h := RunOutcome(s, e.env.run), e.env.run.readings;
      p == RunComplete(o.runSequence, o.flags, o.rc, BuildRecord(s.config, s.probe, h, uartBytes, o))
    ensures uartBytes == Add32(s.windowBytes, e.env.run.windowPuts)
  {
    ReceivingCounts(s, e);
    StepOfARun(s, e);
    p := Step(s, e).out[1].payload;
    uartBytes := Add32(s.windowBytes, e.env.run.windowPuts);
  }

  /** The configuration an accepted RUN was made under, as the host decodes it from the RUN's second frame. */
  lemma ConfigReachesHost(s: State, e: Event) returns (m: Measured, b: PmuBlock)
    requires Possible(s, e) && IsRun(s, e)
    ensures |Step(s, e).out| == 2 && ParseMeasurement(Step(s, e).out[1].payload) == Ok(m) && m.pmu == Some(b)
    ensures ConfigIs(b.a, s.config, s.probe) && SlotsAre(b.eventCodes, s.config, e.env.run.readings)
  {
    var p, uart := RunReportIs(s, e);
    var o, h := RunOutcome(s, e.env.run), e.env.run.readings;
    m, b := RecordTellsRun(s.config, s.probe, h, uart, o);
    var m', b' := CodesReachHost(s.config, s.probe, h, uart, o);
  }

  /**
   The host's verdict bits are the run's: it completed, the vendor returned 0, the output region is not its poison, the
   window took time, and .sec_noinit has the expected CRC; and the three CRCs it decodes are those of the poison of that
   run, of the region and of .sec_noinit, as the vendor's code left them.
   */
  lemma VerdictTellsRun(s: State, e: Event) returns (m: Measured, o: Outcome)
    requires Possible(s, e) && IsRun(s, e)
    ensures |Step(s, e).out| == 2 && ParseMeasurement(Step(s, e).out[1].payload) == Ok(m) && |m.fields| == 47
    ensures m.runSequence == m.fields[42] == o.runSequence && m.validFlags == m.fields[43] == o.flags
    ensures m.runRc == m.fields[1] == o.rc && m.fields[44] == o.poisonCrc && m.fields[45] == o.outputCrc
    ensures m.fields[46] == o.regionCrc
    ensures OutcomeTells(o, Add32(s.runCounter, 1), e.env.run.rc, MemoryAfter(s, e.env.run), e.env.run.readings)
  {
    var p, uart := RunReportIs(s, e);
    var b;
    o := RunOutcome(s, e.env.run);
    m, b := RecordTellsRun(s.config, s.probe, e.env.run.readings, uart, o);
    OutcomeIs(s, e.env.run);
  }

  /** The cycle count an accepted RUN read, as the host decodes it from the RUN's second frame. */
  lemma RunCyclesReachHost(s: State, e: Event, n: nat, stable: bool, overflowed: bool)
    returns (m: Measured, b: PmuBlock)
    requires Possible(s, e) && IsRun(s, e) && CyclesRead(s.config, e.env.run.readings, n, stable, overflowed)
    ensures |Step(s, e).out| == 2 && ParseMeasurement(Step(s, e).out[1].payload) == Ok(m) && m.pmu == Some(b)
    ensures var h := e.env.run.readings;
      && b.windowCyclesRaw == n
      && b.windowCycles == if h.counterEnables >= 0x8000_0000 && h.pmcrEnabled % 2 == 1 && stable && !overflowed
                           then Some(n) else None
  {
    var p, uart := RunReportIs(s, e);
    m, b := CyclesReachHost(s.config, s.probe, e.env.run.readings, uart, RunOutcome(s, e.env.run), n, stable,
                            overflowed);
  }

  // ---- the record asked for again ----

  /** Events among which no RUN is accepted leave the last record as it is. */
  lemma {:induction false} RecordIsKept(s: State, es: seq<Event>)
    requires Can(RUNNER, s, es) && Log(RUNNER, s, es) == []
    ensures After(RUNNER, s, es).measured == s.measured
    decreases |es|
  {
    if es != [] {
      assert RUNNER.logs(s, es[0]) == [] && Possible(s, es[0]) && !IsRun(s, es[0]);
      SettingsAreKept(s, es[0]);
      RecordIsKept(Step(s, es[0]).s, es[1..]);
    }
  }

  lemma FieldsBehindHeader(sequence: word, flags: word, rc: word, r: Record)
    requires |r.basic| == KNOWN_FIELDS
    ensures RunComplete(sequence, flags, rc, r)[32..] == Words(RecordWords(r))
  {
  }

  lemma MeasurementAnswer(s: State, g: Event, r: Record)
    requires Possible(s, g) && IsRequest(g, CMD_GET_MEASUREMENT) && s.measured == Some(r)
    requires |r.basic| == KNOWN_FIELDS && s.phase != Boot && s.phase != Running
    ensures Step(s, g).out == [Ack(CMD_GET_MEASUREMENT, g.heard.sequence, Words(RecordWords(r)))]
  {
  }

  /**
   GET_MEASUREMENT repeats the last RUN: after a RUN and any events among which no other is accepted, a RESET or a new
   upload included, it is answered with the very fields that RUN's RUN_COMPLETE carried behind its header.
   */
  lemma MeasurementIsLastRun(s: State, e: Event, es: seq<Event>, g: Event)
    requires Sound(s) && Possible(s, e) && IsRun(s, e)
    requires Can(RUNNER, Step(s, e).s, es) && Log(RUNNER, Step(s, e).s, es) == []
    requires Possible(After(RUNNER, Step(s, e).s, es), g) && IsRequest(g, CMD_GET_MEASUREMENT)
    ensures |Step(s, e).out| == 2 && |Step(s, e).out[1].payload| == 468
    ensures Step(After(RUNNER, Step(s, e).s, es), g).out
         == [Frame(1, 0x84, 0, g.heard.sequence, Step(s, e).out[1].payload[32..])]
  {
    var p, uart := RunReportIs(s, e);
    var o, t := RunOutcome(s, e.env.run), Step(s, e).s;
    RunSettings(s, e);
    RecordIsKept(t, es);
    StepIsSound(s, e);
    SoundAfter(t, es);
    var r := RecordOf(s, e.env.run);
    MeasurementAnswer(After(RUNNER, t, es), g, r);
    FieldsBehindHeader(o.runSequence, o.flags, o.rc, r);
  }

  lemma {:induction false} SoundAfter(s: State, es: seq<Event>)
    requires Sound(s) && Can(RUNNER, s, es)
    ensures Sound(After(RUNNER, s, es))
    decreases |es|
  {
    if es != [] {
      StepIsSound(s, es[0]);
      SoundAfter(Step(s, es[0]).s, es[1..]);
    }
  }
}
