/** How one run fills in its measurement record, and what the host can conclude from the record. */
module RunRecord {
  import opened Bytes
  import opened BitOps
  import opened Measurement
  import opened HostRecord

  const CYCLE_OVERFLOW_BIT: nat := 31

  const RUN_VALID_REQUIRED_MASK: word := 0xF

  datatype Config = Config(mode: word, eventSetId: word, eventCount: word, eventCodes: Slots,
                           configurationSequence: word)

  /** What PMU discovery found out. */
  datatype Probe = Probe(performed: bool, present: bool, hwEventCounters: word)

  function EffectiveSlots(p: Probe): word {
    if p.hwEventCounters < SLOTS then p.hwEventCounters else SLOTS
  }

  /** The counters as the read seam saw them, before the vendor test released the NPU's power. */
  datatype Seam = Seam(fired: word, cycleLo: word, cycleHi: word, stable: bool, retries: word, overflow: word,
                       events: Slots, vendorRc: word, npuStatus: word, npuQread: word)

  datatype OfmComparison = OfmComparison(mismatchCount: word, maxAbsDiff: word, firstMismatch: word)

  /** Everything a run reads from the hardware and from the vendor's code. */
  datatype Readings = Readings(
    raw: seq<word>,       // the 36 register and interrupt fields between ts_source_valid and run_sequence
    timestampsLive: bool, tsOpen: word, tsClose: word,
    counterEnables: word, pmcrEnabled: word, pmcrAtDisable: word,
    cycleLo: word, cycleHi: word, cycleStable: bool, cycleRetries: word, overflow: word,
    tPmuEnable: word, tCallEnter: word, tCallReturn: word, tPmuDisable: word, tPmuProgramming: word, tResult: word,
    readTotal: word, writeTotal: word, readDelta: word, writeDelta: word,
    seam: Seam, ofm: OfmComparison)

  function Flag(b: bool): word { if b then 1 else 0 }

  predicate Counting(mode: word) { mode == INSTRUMENTATION_END_ONLY || mode == INSTRUMENTATION_EVENTS }

  function OverflowMask(seam: Seam): word { And(seam.overflow, 0xFF) }

  function ValidMask(c: Config, seam: Seam): nat { AndNot(LowOnes(c.eventCount), OverflowMask(seam)) }

  lemma MaskFitsWord(c: Config, seam: Seam)
    requires c.eventCount <= SLOTS
    ensures ValidMask(c, seam) < 256
  {
    assert c.eventCount == 0 || c.eventCount == 1 || c.eventCount == 2 || c.eventCount == 3 || c.eventCount == 4
        || c.eventCount == 5 || c.eventCount == 6 || c.eventCount == 7 || c.eventCount == 8;
  }

  function PmuScalarsA(c: Config, p: Probe, h: Readings): ScalarsA
    requires c.eventCount <= SLOTS
  {
    MaskFitsWord(c, h.seam);
    var on, events := Counting(c.mode), c.mode == INSTRUMENTATION_EVENTS;
    ScalarsA(
      1, c.mode, c.mode, c.eventSetId, c.configurationSequence,
      if on then Flag(p.present) else 0, if on then Flag(p.performed) else 0, if on then p.hwEventCounters else 0,
      SLOTS, SLOTS, if on then EffectiveSlots(p) else 0, c.eventCount,
      if events then c.eventCount else 0,
      if events then ValidMask(c, h.seam) else 0,
      if events then OverflowMask(h.seam) else 0)
  }

  predicate CyclesOverflowed(c: Config, h: Readings) {
    BitAt(if c.mode == INSTRUMENTATION_EVENTS then h.seam.overflow else h.overflow, CYCLE_OVERFLOW_BIT)
  }

  predicate CyclesStable(c: Config, h: Readings) {
    if c.mode == INSTRUMENTATION_EVENTS then h.seam.stable else h.cycleStable
  }

  /** PMCNTENSET read back with the cycle counter's own bit, and PMCR with the global enable. */
  predicate CyclesArmed(h: Readings) { BitAt(h.counterEnables, 31) && BitAt(h.pmcrEnabled, 0) }

  function PmuScalarsB(c: Config, h: Readings): ScalarsB {
    var on, events := Counting(c.mode), c.mode == INSTRUMENTATION_EVENTS;
    var lo, hi := if !on then 0 else if events then h.seam.cycleLo else h.cycleLo,
                  if !on then 0 else if events then h.seam.cycleHi else h.cycleHi;
    ScalarsB(
      lo, hi,
      Flag(on && CyclesArmed(h) && CyclesStable(c, h) && !CyclesOverflowed(c, h)),
      Flag(on && CyclesOverflowed(c, h)),
      if !on then 0 else if events then h.seam.retries else h.cycleRetries,
      Flag(on), 1, h.tPmuEnable, h.tCallEnter, h.tCallReturn, h.tPmuDisable, h.tPmuProgramming,
      Sub32(h.tCallReturn, h.tCallEnter), Sub32(h.tPmuDisable, h.tCallReturn), h.tResult,
      h.readTotal, h.writeTotal, h.readDelta, h.writeDelta,
      if on then h.pmcrAtDisable else 0,
      Flag(on && BitAt(h.counterEnables, 31)), Flag(on && BitAt(h.pmcrEnabled, 0)),
      Flag(on && CyclesStable(c, h)), Flag(on && (lo != 0 || hi != 0)))
  }

  function TailFields(c: Config, h: Readings): Tail {
    if c.mode == INSTRUMENTATION_EVENTS then
      Tail(h.seam.fired, h.seam.vendorRc, h.seam.npuStatus, h.seam.npuQread,
           h.ofm.mismatchCount, h.ofm.maxAbsDiff, h.ofm.firstMismatch)
    else if c.mode == INSTRUMENTATION_END_ONLY then Tail(0, 0, 0, 0, 0, 0, 0xFFFFFFFF)
    else Tail(0, 0, 0, 0, 0, 0, 0)
  }

  function EventValues(c: Config, seam: Seam): Slots {
    var vs := seq(SLOTS, i requires 0 <= i < SLOTS =>
                           if c.mode == INSTRUMENTATION_EVENTS && i < c.eventCount then seam.events[i] else 0);
    assert forall i :: 0 <= i < SLOTS ==> 0 <= vs[i] < U32;
    vs
  }

  /** What the run itself decided: its number, verdict and checksums. */
  datatype Outcome = Outcome(rc: word, runSequence: word, flags: word, poisonCrc: word, outputCrc: word,
                             regionCrc: word)

  /** The record of a completed run. */
  function BuildRecord(c: Config, p: Probe, h: Readings, uartBytes: word, o: Outcome): (r: Record)
    requires c.eventCount <= SLOTS && |h.raw| == 36
    ensures |r.basic| == KNOWN_FIELDS
  {
    var early := [1, o.rc, h.tsOpen, h.tsClose, Sub32(h.tsClose, h.tsOpen), Flag(h.timestampsLive)];
    var verdict := [o.runSequence, o.flags, o.poisonCrc, o.outputCrc, o.regionCrc];
    Record(early + h.raw[12 := uartBytes] + verdict,
           PmuScalarsA(c, p, h), c.eventCodes, EventValues(c, h.seam), PmuScalarsB(c, h), TailFields(c, h))
  }

  // ---- what the host can conclude ----

  /** An event counter's overflow was seen at the seam. */
  predicate SlotOverflowed(seam: Seam, n: nat)
  {
    n < SLOTS && BitAt(seam.overflow, n)
  }

  lemma OverflowMaskBit(seam: Seam, n: nat)
    ensures BitAt(OverflowMask(seam), n) <==> SlotOverflowed(seam, n)
  {
    AndBit(seam.overflow, 0xFF, n);
    assert LowOnes(8) == 0xFF;
    LowOnesBit(8, n);
  }

  /** A slot's code and value reach the host exactly when the slot was armed and its counter did not overflow. */
  lemma SlotsComeBack(c: Config, p: Probe, h: Readings, n: nat)
    requires c.mode == INSTRUMENTATION_EVENTS && c.eventCount <= SLOTS && n < SLOTS
    ensures var armed := n < c.eventCount && !SlotOverflowed(h.seam, n);
      && Vouched(PmuScalarsA(c, p, h).eventValidMask, c.eventCodes)[n]
         == (if armed then Some(c.eventCodes[n]) else None)
      && Vouched(PmuScalarsA(c, p, h).eventValidMask, EventValues(c, h.seam))[n]
         == (if armed then Some(h.seam.events[n]) else None)
  {
    AndNotBit(LowOnes(c.eventCount), OverflowMask(h.seam), n);
    LowOnesBit(c.eventCount, n);
    OverflowMaskBit(h.seam, n);
  }

  predicate NoSlotOverflowed(c: Config, seam: Seam) {
    forall n :: 0 <= n < c.eventCount ==> !SlotOverflowed(seam, n)
  }

  lemma MaskWholeIffNoOverflow(c: Config, seam: Seam)
    requires c.eventCount <= SLOTS
    ensures ValidMask(c, seam) == LowOnes(c.eventCount) <==> NoSlotOverflowed(c, seam)
  {
    AndNotWhole(c.eventCount, OverflowMask(seam));
    if NoSlotOverflowed(c, seam) {
      forall n | 0 <= n < c.eventCount
        ensures !BitAt(OverflowMask(seam), n)
      {
        OverflowMaskBit(seam, n);
      }
    } else {
      var n :| 0 <= n < c.eventCount && SlotOverflowed(seam, n);
      OverflowMaskBit(seam, n);
    }
  }

  datatype Validity = Validity(
    rcZero: bool, requiredFlagsOk: bool, cycleValid: bool, cycleProgress: bool, seamFired: bool,
    modeApplied: bool, appliedCount: bool, validMaskFull: bool, codesEcho: bool)
  {
    predicate AllHold() {
      && rcZero && requiredFlagsOk && cycleValid && cycleProgress && seamFired && modeApplied && appliedCount
      && validMaskFull && codesEcho
    }
  }

  /** run_validity in its exact mode, for a host that asked for the events `codes`. */
  function RunValidity(m: Measured, codes: seq<word>): Validity
    requires m.pmu.Some? && |m.pmu.value.eventCodes| == SLOTS && |codes| <= SLOTS
  {
    var p := m.pmu.value;
    Validity(
      m.runRc == 0,
      And(m.validFlags, RUN_VALID_REQUIRED_MASK) == RUN_VALID_REQUIRED_MASK,
      p.b.cycleValid == 1, p.b.cycleProgressObserved == 1,
      |m.trailing| >= 1 && m.trailing[0] == 1,
      p.a.modeApplied == INSTRUMENTATION_EVENTS,
      p.a.appliedEventCount == |codes|,
      p.a.eventValidMask == LowOnes(|codes|),
      forall i :: 0 <= i < |codes| ==> p.eventCodes[i] == Some(codes[i]))
  }

  /**
   End to end, the host calls a run valid exactly when it was: the vendor returned 0, the required flags stand, the
   cycle counter was armed, stable, not overflowed and moved, the seam fired once, and no armed event overflowed.
   */
  lemma ValidityIsExact(c: Config, p: Probe, h: Readings, uartBytes: word, o: Outcome, codes: seq<word>)
    requires c.mode == INSTRUMENTATION_EVENTS && c.eventCount <= SLOTS && |h.raw| == 36
    requires |codes| == c.eventCount && codes == c.eventCodes[..c.eventCount]
    ensures var m := ParseMeasurement(RunComplete(o.runSequence, o.flags, o.rc, BuildRecord(c, p, h, uartBytes, o)));
      m.Ok? && m.value.pmu.Some?
      && (RunValidity(m.value, codes).AllHold() <==>
            && o.rc == 0 && And(o.flags, RUN_VALID_REQUIRED_MASK) == RUN_VALID_REQUIRED_MASK
            && CyclesArmed(h) && h.seam.stable && !BitAt(h.seam.overflow, CYCLE_OVERFLOW_BIT)
            && (h.seam.cycleLo != 0 || h.seam.cycleHi != 0)
            && h.seam.fired == 1 && NoSlotOverflowed(c, h.seam))
  {
    var r := BuildRecord(c, p, h, uartBytes, o);
    RunCompleteRoundTrip(o.runSequence, o.flags, o.rc, r);
    CyclesComeBack(c, h);
    MaskWholeIffNoOverflow(c, h.seam);
    CodesComeBack(c, p, h, codes);
  }

  /** In EVENTS mode the host learns of the cycle counter exactly what the seam saw of it. */
  lemma CyclesComeBack(c: Config, h: Readings)
    requires c.mode == INSTRUMENTATION_EVENTS
    ensures PmuScalarsB(c, h).cycleValid == 1
       <==> CyclesArmed(h) && h.seam.stable && !BitAt(h.seam.overflow, CYCLE_OVERFLOW_BIT)
    ensures PmuScalarsB(c, h).cycleProgressObserved == 1 <==> h.seam.cycleLo != 0 || h.seam.cycleHi != 0
  {
  }

  lemma CodesComeBack(c: Config, p: Probe, h: Readings, codes: seq<word>)
    requires c.mode == INSTRUMENTATION_EVENTS && c.eventCount <= SLOTS
    requires |codes| == c.eventCount && codes == c.eventCodes[..c.eventCount]
    ensures (forall i :: 0 <= i < |codes| ==>
               Vouched(PmuScalarsA(c, p, h).eventValidMask, c.eventCodes)[i] == Some(codes[i]))
       <==> NoSlotOverflowed(c, h.seam)
  {
    var vouched := Vouched(PmuScalarsA(c, p, h).eventValidMask, c.eventCodes);
    forall n | 0 <= n < c.eventCount
      ensures vouched[n] == Some(codes[n]) <==> !SlotOverflowed(h.seam, n)
    {
      SlotsComeBack(c, p, h, n);
    }
  }
}
