/**
 The measurement record: how a run fills it in, the RUN_COMPLETE payload the firmware writes it to, and the decoder and
 validity judgement the host applies to it.
 */
module Measurement {
  import opened Bytes
  import opened Crc32

  const RUN_COMPLETE_ABI_MAGIC: word := 0x524D4531
  const RUN_COMPLETE_ABI_VERSION: word := 1
  const RUN_COMPLETE_HEADER_WORDS: nat := 8
  const KNOWN_FIELDS: nat := 47
  const PMU_FIELDS: nat := 55
  const MEASUREMENT_FIELD_COUNT: nat := 109
  const RUN_COMPLETE_TOTAL_WORDS: nat := 117
  const RME_MIN_WORDS: nat := 55
  const RME_MAX_WORDS: nat := 1024
  const SLOTS: nat := 8

  const INSTRUMENTATION_OFF: word := 0
  const INSTRUMENTATION_END_ONLY: word := 1
  const INSTRUMENTATION_EVENTS: word := 2

  type Slots = s: seq<word> | |s| == 8 witness [0, 0, 0, 0, 0, 0, 0, 0]

  datatype ScalarsA = ScalarsA(
    recordSchemaVersion: word, modeRequested: word, modeApplied: word, eventSetId: word, configurationSequence: word,
    pmuPresent: word, probePerformed: word, hwEventCounterCount: word, expectedHwEventCounterCount: word,
    abiEventSlotCount: word, effectiveEventSlotCount: word, requestedEventCount: word, appliedEventCount: word,
    eventValidMask: word, eventOverflowMask: word)

  datatype ScalarsB = ScalarsB(
    windowCyclesLo: word, windowCyclesHi: word, cycleValid: word, cycleOverflow: word, cycleReadRetryCount: word,
    sampleValid: word, completionWaitMode: word, tPmuEnable: word, tCallEnter: word, tCallReturn: word,
    tPmuDisable: word, tPmuProgramming: word, cpuCallWindowCycles: word, cpuReturnToDisableCycles: word,
    tResultProcessing: word, mmioReadTotal: word, mmioWriteTotal: word, mmioReadDelta: word, mmioWriteDelta: word,
    pmcrAtDisable: word, cycleCounterArmed: word, cycleGlobalEnableVerified: word, cycleReadStable: word,
    cycleProgressObserved: word)

  datatype Tail = Tail(
    readSeamFired: word, vendorRc: word, seamNpuStatus: word, seamNpuQread: word,
    ofmMismatchCount: word, ofmMaxAbsDiff: word, ofmFirstMismatch: word)

  datatype Record = Record(basic: seq<word>, a: ScalarsA, codes: Slots, values: Slots, b: ScalarsB, tail: Tail)

  function WordsA(a: ScalarsA): (ws: seq<word>)
    ensures |ws| == 15
  {
    [a.recordSchemaVersion, a.modeRequested, a.modeApplied, a.eventSetId, a.configurationSequence,
     a.pmuPresent, a.probePerformed, a.hwEventCounterCount, a.expectedHwEventCounterCount,
     a.abiEventSlotCount, a.effectiveEventSlotCount, a.requestedEventCount, a.appliedEventCount,
     a.eventValidMask, a.eventOverflowMask]
  }

  function WordsB(b: ScalarsB): (ws: seq<word>)
    ensures |ws| == 24
  {
    [b.windowCyclesLo, b.windowCyclesHi, b.cycleValid, b.cycleOverflow, b.cycleReadRetryCount,
     b.sampleValid, b.completionWaitMode, b.tPmuEnable, b.tCallEnter, b.tCallReturn,
     b.tPmuDisable, b.tPmuProgramming, b.cpuCallWindowCycles, b.cpuReturnToDisableCycles,
     b.tResultProcessing, b.mmioReadTotal, b.mmioWriteTotal, b.mmioReadDelta, b.mmioWriteDelta,
     b.pmcrAtDisable, b.cycleCounterArmed, b.cycleGlobalEnableVerified, b.cycleReadStable,
     b.cycleProgressObserved]
  }

  function WordsTail(t: Tail): (ws: seq<word>)
    ensures |ws| == 7
  {
    [t.readSeamFired, t.vendorRc, t.seamNpuStatus, t.seamNpuQread,
     t.ofmMismatchCount, t.ofmMaxAbsDiff, t.ofmFirstMismatch]
  }

  /** The fields in wire order. */
  function RecordWords(r: Record): (ws: seq<word>)
    requires |r.basic| == KNOWN_FIELDS
    ensures |ws| == MEASUREMENT_FIELD_COUNT
  {
    r.basic + (WordsA(r.a) + (r.codes + (r.values + (WordsB(r.b) + WordsTail(r.tail)))))
  }

  // ---- the firmware's encoder ----

  /** Sequential little-endian writer into a payload buffer. */
  class WriteCursor {
    const base: array<byte>
    var used: nat

    constructor (base: array<byte>, start: nat)
      requires start <= base.Length
      ensures this.base == base && used == start
    {
      this.base := base;
      used := start;
    }

    method Put32(v: word)
      requires used + 4 <= base.Length
      modifies this`used, base
      ensures used == old(used) + 4
      ensures base[..] == old(base[..used]) + Le32(v) + old(base[used + 4..])
    {
      var d := Le32(v);
      base[used], base[used + 1], base[used + 2], base[used + 3] := d[0], d[1], d[2], d[3];
      used := used + 4;
    }

    method PutAll(ws: seq<word>)
      requires used + 4 * |ws| <= base.Length
      modifies this`used, base
      ensures used == old(used) + 4 * |ws|
      ensures base[..] == old(base[..used]) + Words(ws) + old(base[used + 4 * |ws|..])
    {
      ghost var start := used;
      ghost var before := base[..];
      for i := 0 to |ws|
        invariant used == start + 4 * i <= base.Length
        invariant base[..] == before[..start] + Words(ws[..i]) + before[used..]
      {
        ghost var mid := base[..];
        Put32(ws[i]);
        WordsAppend(ws[..i], [ws[i]]);
        assert ws[..i + 1] == ws[..i] + [ws[i]];
        assert mid[..used - 4] == before[..start] + Words(ws[..i]);
        assert mid[used..] == before[used..];
        assert Words([ws[i]]) == Le32(ws[i]);
      }
      assert ws[..|ws|] == ws;
    }
  }

  /** The CRC the ABI header carries: words 4..6, then words 8 onwards, skipping the CRC word itself. */
  function SplitCrc(head: seq<byte>, fields: seq<byte>): word {
    Crc(head + fields)
  }

  const ABI_WORDS: seq<word> :=
    [RUN_COMPLETE_ABI_MAGIC, RUN_COMPLETE_ABI_VERSION, RUN_COMPLETE_TOTAL_WORDS, RUN_COMPLETE_HEADER_WORDS]

  /** A payload with a given CRC word. */
  function Layout(head: seq<word>, crc: word, fields: seq<word>): (p: seq<byte>)
    requires |head| == 3 && |fields| == MEASUREMENT_FIELD_COUNT
    ensures |p| == 4 * RUN_COMPLETE_TOTAL_WORDS
    ensures p[16..28] == Words(head) && p[28..32] == Le32(crc) && p[32..] == Words(fields)
  {
    Words(ABI_WORDS) + Words(head) + Le32(crc) + Words(fields)
  }

  /** The RUN_COMPLETE payload of a record. */
  function RunComplete(sequence: word, flags: word, rc: word, r: Record): (p: seq<byte>)
    requires |r.basic| == KNOWN_FIELDS
    ensures |p| == 4 * RUN_COMPLETE_TOTAL_WORDS
  {
    var head, fields := [sequence, flags, rc], RecordWords(r);
    Layout(head, SplitCrc(Words(head), Words(fields)), fields)
  }

  /** build_run_complete_payload: header with a placeholder, the fields, then the CRC patched into word 7. */
  method BuildRunComplete(sequence: word, flags: word, rc: word, r: Record) returns (out: array<byte>)
    requires |r.basic| == KNOWN_FIELDS
    ensures fresh(out) && out[..] == RunComplete(sequence, flags, rc, r)
  {
    var fields := RecordWords(r);
    out := FillPayload([sequence, flags, rc], fields);
    PatchCrc(out, [sequence, flags, rc], fields);
  }

  method FillPayload(head: seq<word>, fields: seq<word>) returns (out: array<byte>)
    requires |head| == 3 && |fields| == MEASUREMENT_FIELD_COUNT
    ensures fresh(out) && out[..] == Layout(head, 0, fields)
  {
    out := new byte[468];
    var c := new WriteCursor(out, 0);
    c.PutAll(ABI_WORDS);
    c.PutAll(head);
    c.Put32(0);
    c.PutAll(fields);
  }

  method PatchCrc(out: array<byte>, ghost head: seq<word>, ghost fields: seq<word>)
    requires |head| == 3 && |fields| == MEASUREMENT_FIELD_COUNT
    requires out[..] == Layout(head, 0, fields)
    modifies out
    ensures out[..] == Layout(head, SplitCrc(Words(head), Words(fields)), fields)
  {
    assert |out[..]| == 468;
    assert out[16..28] == Words(head) && out[32..468] == Words(fields);
    var crc := Crc32Update(CRC32_INIT, out[16..28]);
    crc := Crc32Update(crc, out[32..468]);
    UpdateAppend(CRC32_INIT, Words(head), Words(fields));
    var patch := new WriteCursor(out, 28);
    assert out[..28] == Words(ABI_WORDS) + Words(head);
    patch.Put32(Value(Final(crc)));
  }
}
