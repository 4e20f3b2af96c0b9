/**
 The host's side of the measurement record: payload validation, PMU block decoding, and the run validity judgement.
 */
module HostRecord {
  import opened Bytes
  import opened BitOps
  import opened Crc32
  import opened Measurement
  import SR = ShiftRegister

  datatype PmuBlock = PmuBlock(
    a: ScalarsA, b: ScalarsB,
    eventCodes: seq<Option<word>>, eventValues: seq<Option<word>>, eventOverflow: seq<Option<bool>>,
    windowCyclesRaw: nat, windowCycles: Option<nat>)

  datatype Measured = Measured(
    runSequence: word, validFlags: word, runRc: word, fields: seq<word>, trailingWords: int,
    pmu: Option<PmuBlock>, trailing: seq<word>)

  datatype PayloadError =
    | TooShort | BadMagic(magic: word) | UnsupportedVersion(version: word) | UnexpectedHeaderWords(n: word)
    | BelowMinimum(n: word) | ExceedsCap(n: word) | LengthMismatch(n: word) | CrcMismatch

  function ReadA(w: seq<word>): ScalarsA
    requires |w| >= 15
  {
    ScalarsA(w[0], w[1], w[2], w[3], w[4], w[5], w[6], w[7], w[8], w[9], w[10], w[11], w[12], w[13], w[14])
  }

  function ReadB(w: seq<word>): ScalarsB
    requires |w| >= 24
  {
    ScalarsB(w[0], w[1], w[2], w[3], w[4], w[5], w[6], w[7], w[8], w[9], w[10], w[11], w[12], w[13], w[14], w[15],
             w[16], w[17], w[18], w[19], w[20], w[21], w[22], w[23])
  }

  function ReadTail(w: seq<word>): Tail
    requires |w| >= 7
  {
    Tail(w[0], w[1], w[2], w[3], w[4], w[5], w[6])
  }

  /** The slots a mask vouches for; the others are absent, whatever they hold. */
  function Vouched<T>(mask: word, slots: seq<T>): (r: seq<Option<T>>)
    requires |slots| == SLOTS
    ensures |r| == SLOTS
    ensures forall n :: 0 <= n < SLOTS ==> r[n] == if BitAt(mask, n) then Some(slots[n]) else None
  {
    seq(SLOTS, n requires 0 <= n < SLOTS => if BitAt(mask, n) then Some(slots[n]) else None)
  }

  /** decode_pmu_block */
  function DecodePmuBlock(w: seq<word>): PmuBlock
    requires |w| >= PMU_FIELDS
  {
    var a := ReadA(w);
    var codes, values := w[15..23], w[23..31];
    var b := ReadB(w[31..]);
    var raw := b.windowCyclesLo + b.windowCyclesHi % 65536 * U32;
    PmuBlock(a, b,
             Vouched(a.eventValidMask, codes), Vouched(a.eventValidMask, values),
             Vouched(a.eventValidMask, seq(SLOTS, n requires 0 <= n < SLOTS => BitAt(a.eventOverflowMask, n))),
             raw, if b.cycleValid != 0 then Some(raw) else None)
  }

  /** parse_measurement_payload */
  function ParseMeasurement(p: seq<byte>): Result<Measured, PayloadError> {
    if |p| < 4 * RUN_COMPLETE_HEADER_WORDS then Err(TooShort)
    else
      var total := Rd32(p, 8);
      if Rd32(p, 0) != RUN_COMPLETE_ABI_MAGIC then Err(BadMagic(Rd32(p, 0)))
      else if Rd32(p, 4) != RUN_COMPLETE_ABI_VERSION then Err(UnsupportedVersion(Rd32(p, 4)))
      else if Rd32(p, 12) != RUN_COMPLETE_HEADER_WORDS then Err(UnexpectedHeaderWords(Rd32(p, 12)))
      else if total < RME_MIN_WORDS then Err(BelowMinimum(total))
      else if total > RME_MAX_WORDS then Err(ExceedsCap(total))
      else if 4 * total != |p| then Err(LengthMismatch(total))
      else if Crc(p[16..28] + p[32..]) != Rd32(p, 28) then Err(CrcMismatch)
      else
        var body := ReadWords(p, 32, total - RUN_COMPLETE_HEADER_WORDS);
        Ok(Measured(
             Rd32(p, 16), Rd32(p, 20), Rd32(p, 24), body[..KNOWN_FIELDS], |body| - KNOWN_FIELDS,
             if total < RUN_COMPLETE_HEADER_WORDS + KNOWN_FIELDS + PMU_FIELDS then None
             else Some(DecodePmuBlock(body[KNOWN_FIELDS..])),
             if |body| >= KNOWN_FIELDS + PMU_FIELDS then body[KNOWN_FIELDS + PMU_FIELDS..] else []))
  }

  // ---- what is accepted ----

  /** A payload of any length in words, with the CRC its fields call for. */
  function PayloadOf(head: seq<word>, fields: seq<word>): seq<byte>
    requires |head| == 3 && 8 + |fields| < U32
  {
    Words([0x524D_4531, 1, 8 + |fields|, 8]) + Words(head) + Le32(Crc(Words(head) + Words(fields))) + Words(fields)
  }

  /** The words a byte string of whole words stands for. */
  lemma {:induction false} WordsOfBytes(s: seq<byte>, n: nat)
    requires |s| == 4 * n
    ensures Words(ReadWords(s, 0, n)) == s
    decreases n
  {
    if n > 0 {
      WordsOfBytes(s[4..], n - 1);
      EncodeRead(s, 0);
      var ws := ReadWords(s, 0, n);
      assert ws[0] == Rd32(s, 0);
      forall i | 0 <= i < n - 1
        ensures ws[1..][i] == ReadWords(s[4..], 0, n - 1)[i]
      {
        SameRead(s, 4 * (i + 1), s[4..], 4 * i);
      }
      assert ws[1..] == ReadWords(s[4..], 0, n - 1);
      assert s == s[..4] + s[4..];
    }
  }

  lemma ReadElsewhere(s: seq<byte>, at: nat, n: nat)
    requires at + 4 * n <= |s|
    ensures Words(ReadWords(s, at, n)) == s[at..at + 4 * n]
  {
    var t := s[at..at + 4 * n];
    forall i | 0 <= i < n
      ensures ReadWords(s, at, n)[i] == ReadWords(t, 0, n)[i]
    {
      SliceOfSlice(s, at, at + 4 * n, 4 * i, 4 * i + 4);
      SameRead(s, at + 4 * i, t, 4 * i);
    }
    assert ReadWords(s, at, n) == ReadWords(t, 0, n);
    WordsOfBytes(t, n);
  }

  lemma PayloadParts(head: seq<word>, fields: seq<word>)
    requires |head| == 3 && 8 + |fields| < U32
    ensures var p := PayloadOf(head, fields);
      && |p| == 4 * (8 + |fields|)
      && p[0..16] == Words([0x524D_4531, 1, 8 + |fields|, 8]) && p[16..28] == Words(head)
      && p[28..32] == Le32(Crc(Words(head) + Words(fields))) && p[32..] == Words(fields)
  {
  }

  lemma FrontRead(p: seq<byte>, a: word, b: word, c: word, d: word)
    requires |p| >= 16 && p[0..16] == Words([a, b, c, d])
    ensures Rd32(p, 0) == a && Rd32(p, 4) == b && Rd32(p, 8) == c && Rd32(p, 12) == d
  {
    var ws := [a, b, c, d];
    ReadWordsBack(p, 0, ws);
    var rs := ReadWords(p, 0, 4);
    assert rs[0] == Rd32(p, 0) && rs[1] == Rd32(p, 4) && rs[2] == Rd32(p, 8) && rs[3] == Rd32(p, 12);
  }

  lemma PayloadAccepted(head: seq<word>, fields: seq<word>)
    requires |head| == 3 && KNOWN_FIELDS <= |fields| <= RME_MAX_WORDS - 8
    ensures ParseMeasurement(PayloadOf(head, fields)).Ok?
  {
    var p := PayloadOf(head, fields);
    PayloadParts(head, fields);
    FrontRead(p, 0x524D_4531, 1, 8 + |fields|, 8);
    ReadSlice(p, 28, Crc(Words(head) + Words(fields)));
  }

  /** What the host makes of an accepted payload. */
  predicate Understood(m: Measured, head: seq<word>, fields: seq<word>)
    requires |head| == 3 && |fields| >= 47
  {
    && m.runSequence == head[0] && m.validFlags == head[1] && m.runRc == head[2] && m.fields == fields[..47]
    && m.trailingWords == |fields| - 47 && m.pmu.Some? == (|fields| >= 102)
    && m.trailing == if |fields| >= 102 then fields[102..] else []
  }

  lemma PayloadFromParts(p: seq<byte>, head: seq<word>, fields: seq<word>)
    requires |head| == 3 && 8 + |fields| < U32 && |p| == 4 * (8 + |fields|)
    requires p[0..16] == Words([0x524D_4531, 1, 8 + |fields|, 8]) && p[16..28] == Words(head)
    requires p[28..32] == Le32(Crc(Words(head) + Words(fields))) && p[32..] == Words(fields)
    ensures p == PayloadOf(head, fields)
  {
    assert p == p[0..16] + p[16..28] + p[28..32] + p[32..];
  }

  lemma AcceptedParts(p: seq<byte>) returns (head: seq<word>, fields: seq<word>)
    requires ParseMeasurement(p).Ok?
    ensures |head| == 3 && KNOWN_FIELDS <= |fields| <= RME_MAX_WORDS - 8 && |p| == 4 * (8 + |fields|)
    ensures Rd32(p, 0) == 0x524D_4531 && Rd32(p, 4) == 1 && Rd32(p, 8) == 8 + |fields| && Rd32(p, 12) == 8
    ensures Rd32(p, 28) == Crc(p[16..28] + p[32..])
    ensures head == ReadWords(p, 16, 3) && fields == ReadWords(p, 32, |fields|)
    ensures Understood(ParseMeasurement(p).value, head, fields)
  {
    head, fields := ReadWords(p, 16, 3), ReadWords(p, 32, Rd32(p, 8) - 8);
  }

  lemma PartsAreEncoded(p: seq<byte>, head: seq<word>, fields: seq<word>)
    requires |fields| < U32 - 8 && |p| == 4 * (8 + |fields|)
    requires Rd32(p, 0) == 0x524D_4531 && Rd32(p, 4) == 1 && Rd32(p, 8) == 8 + |fields| && Rd32(p, 12) == 8
    requires Rd32(p, 28) == Crc(p[16..28] + p[32..])
    requires head == ReadWords(p, 16, 3) && fields == ReadWords(p, 32, |fields|)
    ensures p == PayloadOf(head, fields)
  {
    FrontEncoded(p, 8 + |fields|);
    BackEncoded(p, head, fields);
    EncodeRead(p, 28);
    PayloadFromParts(p, head, fields);
  }

  lemma BackEncoded(p: seq<byte>, head: seq<word>, fields: seq<word>)
    requires |p| == 32 + 4 * |fields| && head == ReadWords(p, 16, 3) && fields == ReadWords(p, 32, |fields|)
    ensures p[16..28] == Words(head) && p[32..] == Words(fields)
  {
    ReadElsewhere(p, 16, 3);
    ReadElsewhere(p, 32, |fields|);
    assert p[32..32 + 4 * |fields|] == p[32..];
  }

  lemma FrontEncoded(p: seq<byte>, n: word)
    requires |p| >= 16 && Rd32(p, 0) == 0x524D_4531 && Rd32(p, 4) == 1 && Rd32(p, 8) == n && Rd32(p, 12) == 8
    ensures p[0..16] == Words([0x524D_4531, 1, n, 8])
  {
    var front := [0x524D_4531, 1, n, 8];
    var ws := ReadWords(p, 0, 4);
    assert ws[0] == Rd32(p, 0) && ws[1] == Rd32(p, 4) && ws[2] == Rd32(p, 8) && ws[3] == Rd32(p, 12);
    assert ws == front;
    ReadElsewhere(p, 0, 4);
  }

  lemma AcceptedPayloadIs(p: seq<byte>) returns (head: seq<word>, fields: seq<word>)
    requires ParseMeasurement(p).Ok?
    ensures |head| == 3 && KNOWN_FIELDS <= |fields| <= RME_MAX_WORDS - 8 && p == PayloadOf(head, fields)
    ensures Understood(ParseMeasurement(p).value, head, fields)
  {
    head, fields := AcceptedParts(p);
    PartsAreEncoded(p, head, fields);
  }

  /**
   The host accepts exactly the payloads some firmware could have written: for every byte string, there are a header and
   at least 47 fields that it is the encoding of, or it is refused. Fields it does not know are kept and counted, and
   the PMU block is read only where all of it is there.
   */
  lemma AcceptedIffEncoded(p: seq<byte>)
    ensures ParseMeasurement(p).Ok?
       <==> exists head: seq<word>, fields: seq<word> ::
              |head| == 3 && KNOWN_FIELDS <= |fields| <= RME_MAX_WORDS - 8 && p == PayloadOf(head, fields)
    ensures ParseMeasurement(p).Ok? ==>
      exists head: seq<word>, fields: seq<word> ::
        && |head| == 3 && |fields| >= 47 && Understood(ParseMeasurement(p).value, head, fields)
        && p == PayloadOf(head, fields)
  {
    if ParseMeasurement(p).Ok? {
      var head, fields := AcceptedPayloadIs(p);
    }
    if exists head: seq<word>, fields: seq<word> ::
         |head| == 3 && KNOWN_FIELDS <= |fields| <= RME_MAX_WORDS - 8 && p == PayloadOf(head, fields)
    {
      var head: seq<word>, fields: seq<word> :|
        |head| == 3 && KNOWN_FIELDS <= |fields| <= RME_MAX_WORDS - 8 && p == PayloadOf(head, fields);
      PayloadAccepted(head, fields);
    }
  }

  // ---- the record comes back ----

  lemma ReadsTail(t: Tail)
    ensures ReadTail(WordsTail(t)) == t
  {
  }

  /** The host finds every group of fields at the index the firmware wrote it to. */
  lemma FieldPositions(r: Record)
    requires |r.basic| == KNOWN_FIELDS
    ensures var w := RecordWords(r);
      && w[..KNOWN_FIELDS] == r.basic
      && ReadA(w[KNOWN_FIELDS..]) == r.a
      && w[KNOWN_FIELDS..][15..23] == r.codes
      && w[KNOWN_FIELDS..][23..31] == r.values
      && ReadB(w[KNOWN_FIELDS..][31..]) == r.b
      && w[KNOWN_FIELDS + PMU_FIELDS..] == WordsTail(r.tail)
  {
  }

  /** The record's words by their number, the 47 known fields in front. */
  predicate InWireOrder(w: seq<word>, r: Record) {
    && |w| == 109 && |r.basic| == 47 && w[..47] == r.basic
    && w[47] == r.a.recordSchemaVersion && w[48] == r.a.modeRequested && w[49] == r.a.modeApplied
    && w[50] == r.a.eventSetId && w[51] == r.a.configurationSequence && w[52] == r.a.pmuPresent
    && w[53] == r.a.probePerformed && w[54] == r.a.hwEventCounterCount && w[55] == r.a.expectedHwEventCounterCount
    && w[56] == r.a.abiEventSlotCount && w[57] == r.a.effectiveEventSlotCount && w[58] == r.a.requestedEventCount
    && w[59] == r.a.appliedEventCount && w[60] == r.a.eventValidMask && w[61] == r.a.eventOverflowMask
    && w[62..70] == r.codes && w[70..78] == r.values
    && w[78] == r.b.windowCyclesLo && w[79] == r.b.windowCyclesHi && w[80] == r.b.cycleValid
    && w[81] == r.b.cycleOverflow && w[82] == r.b.cycleReadRetryCount && w[83] == r.b.sampleValid
    && w[84] == r.b.completionWaitMode && w[85] == r.b.tPmuEnable && w[86] == r.b.tCallEnter && w[87] == r.b.tCallReturn
    && w[88] == r.b.tPmuDisable && w[89] == r.b.tPmuProgramming && w[90] == r.b.cpuCallWindowCycles
    && w[91] == r.b.cpuReturnToDisableCycles && w[92] == r.b.tResultProcessing && w[93] == r.b.mmioReadTotal
    && w[94] == r.b.mmioWriteTotal && w[95] == r.b.mmioReadDelta && w[96] == r.b.mmioWriteDelta
    && w[97] == r.b.pmcrAtDisable && w[98] == r.b.cycleCounterArmed && w[99] == r.b.cycleGlobalEnableVerified
    && w[100] == r.b.cycleReadStable && w[101] == r.b.cycleProgressObserved
    && w[102] == r.tail.readSeamFired && w[103] == r.tail.vendorRc && w[104] == r.tail.seamNpuStatus
    && w[105] == r.tail.seamNpuQread && w[106] == r.tail.ofmMismatchCount && w[107] == r.tail.ofmMaxAbsDiff
    && w[108] == r.tail.ofmFirstMismatch
  }

  /** A RUN_COMPLETE payload: the ABI header, the run's three words and the CRC, then the record in wire order. */
  lemma RecordLayout(sequence: word, flags: word, rc: word, r: Record)
    requires |r.basic| == KNOWN_FIELDS
    ensures var p := RunComplete(sequence, flags, rc, r);
      && |p| == 468 && Rd32(p, 0) == 0x524D_4531 && Rd32(p, 4) == 1 && Rd32(p, 8) == 117 && Rd32(p, 12) == 8
      && Rd32(p, 16) == sequence && Rd32(p, 20) == flags && Rd32(p, 24) == rc
      && Rd32(p, 28) == Crc(p[16..28] + p[32..]) && InWireOrder(ReadWords(p, 32, 109), r)
  {
    var head, fields := [sequence, flags, rc], RecordWords(r);
    HeaderWords(head, SplitCrc(Words(head), Words(fields)), fields);
    WireOrder(r);
  }

  lemma WireOrder(r: Record)
    requires |r.basic| == KNOWN_FIELDS
    ensures InWireOrder(RecordWords(r), r)
  {
  }

  lemma HeaderWords(head: seq<word>, crc: word, fields: seq<word>)
    requires |head| == 3 && |fields| == MEASUREMENT_FIELD_COUNT
    ensures var p := Layout(head, crc, fields);
      && Rd32(p, 0) == ABI_WORDS[0] && Rd32(p, 4) == ABI_WORDS[1] && Rd32(p, 8) == ABI_WORDS[2]
      && Rd32(p, 12) == ABI_WORDS[3]
      && Rd32(p, 16) == head[0] && Rd32(p, 20) == head[1] && Rd32(p, 24) == head[2] && Rd32(p, 28) == crc
      && ReadWords(p, 32, MEASUREMENT_FIELD_COUNT) == fields
  {
    var p := Layout(head, crc, fields);
    assert p[0..16] == Words(ABI_WORDS);
    ReadWordsBack(p, 0, ABI_WORDS);
    assert p[16..16 + 4 * |head|] == Words(head);
    ReadWordsBack(p, 16, head);
    ReadSlice(p, 28, crc);
    assert p[32..32 + 4 * |fields|] == Words(fields);
    ReadWordsBack(p, 32, fields);
    var abi, hd := ReadWords(p, 0, 4), ReadWords(p, 16, 3);
    assert abi[0] == Rd32(p, 0) && abi[1] == Rd32(p, 4) && abi[2] == Rd32(p, 8) && abi[3] == Rd32(p, 12);
    assert hd[0] == Rd32(p, 16) && hd[1] == Rd32(p, 20) && hd[2] == Rd32(p, 24);
  }

  /** The 48-bit cycle count whose halves two words carry: the low word, and the low half of the high word. */
  predicate IsCycleCount(raw: nat, lo: word, hi: word) {
    raw < 0x1_0000_0000_0000 && raw % U32 == lo && raw / U32 == hi % 0x1_0000
  }

  /** What the host works out from the words of a PMU block: the cycle count, and the overflow of each vouched slot. */
  predicate Derived(p: PmuBlock) {
    && IsCycleCount(p.windowCyclesRaw, p.b.windowCyclesLo, p.b.windowCyclesHi)
    && p.windowCycles == (if p.b.cycleValid != 0 then Some(p.windowCyclesRaw) else None)
    && |p.eventOverflow| == 8
    && forall n :: 0 <= n < 8 ==>
         p.eventOverflow[n]
         == if BitAt(p.a.eventValidMask, n) then Some(BitAt(p.a.eventOverflowMask, n)) else None
  }

  lemma DecodedIsDerived(w: seq<word>)
    requires |w| >= PMU_FIELDS
    ensures Derived(DecodePmuBlock(w))
  {
    var b := ReadB(w[31..]);
    CycleCountOf(b.windowCyclesLo, b.windowCyclesHi);
  }

  lemma CycleCountOf(lo: word, hi: word)
    ensures IsCycleCount(lo + hi % 65536 * U32, lo, hi)
  {
  }

  /**
   Whatever the firmware puts in a record, the host accepts the payload and reads the same record back: header words,
   the 47 known fields, the PMU scalars, the slots its mask vouches for, the cycle count its two words carry, and the
   seven appended words.
   */
  lemma RunCompleteRoundTrip(sequence: word, flags: word, rc: word, r: Record)
    requires |r.basic| == KNOWN_FIELDS
    ensures var p := ParseMeasurement(RunComplete(sequence, flags, rc, r));
      && p.Ok? && p.value.runSequence == sequence && p.value.validFlags == flags && p.value.runRc == rc
      && p.value.fields == r.basic && p.value.trailingWords == 62
      && p.value.pmu.Some? && p.value.pmu.value.a == r.a && p.value.pmu.value.b == r.b
      && p.value.pmu.value.eventCodes == Vouched(r.a.eventValidMask, r.codes)
      && p.value.pmu.value.eventValues == Vouched(r.a.eventValidMask, r.values)
      && Derived(p.value.pmu.value)
      && |p.value.trailing| == 7 && ReadTail(p.value.trailing) == r.tail
  {
    var head, fields := [sequence, flags, rc], RecordWords(r);
    var crc := SplitCrc(Words(head), Words(fields));
    HeaderWords(head, crc, fields);
    FieldPositions(r);
    ReadsTail(r.tail);
    DecodedIsDerived(fields[KNOWN_FIELDS..]);
  }

  /** Where the byte at `at` of a payload lies in what its CRC covers. */
  function Covered(at: nat): nat { if at >= 32 then at - 20 else if at >= 16 then at - 16 else 0 }

  /** A burst that spares the first four words and the CRC word is a burst in what the CRC covers. */
  lemma BurstIsCovered(q: seq<byte>, p: seq<byte>, at: nat)
    requires |q| >= 32 && q != p && SR.DifferWithin(q, p, at, 4) && q[..16] == p[..16] && (at + 4 <= 28 || at >= 32)
    ensures q[16..28] + q[32..] != p[16..28] + p[32..]
    ensures SR.DifferWithin(q[16..28] + q[32..], p[16..28] + p[32..], Covered(at), 4)
  {
    var a, b := q[16..28] + q[32..], p[16..28] + p[32..];
    assert forall j :: 0 <= j < 12 ==> a[j] == q[j + 16] && b[j] == p[j + 16];
    assert forall j :: 12 <= j < |a| ==> a[j] == q[j + 20] && b[j] == p[j + 20];
    SameStart(q, p, 16);
    var i :| 0 <= i < |q| && q[i] != p[i];
    assert a[Covered(i)] != b[Covered(i)];
  }

  lemma SameStart(q: seq<byte>, p: seq<byte>, n: nat)
    requires n <= |q| && n <= |p| && q[..n] == p[..n]
    ensures forall i :: 0 <= i < n ==> q[i] == p[i]
  {
    assert forall i :: 0 <= i < n ==> q[i] == q[..n][i] && p[i] == p[..n][i];
  }

  /** A payload is only accepted with the four words in front that every record of its length has. */
  lemma AcceptedFront(p: seq<byte>, q: seq<byte>)
    requires |p| == |q| >= 32 && ParseMeasurement(p).Ok?
    requires Rd32(q, 0) == RUN_COMPLETE_ABI_MAGIC && Rd32(q, 4) == RUN_COMPLETE_ABI_VERSION
    requires 4 * Rd32(q, 8) == |q| && Rd32(q, 12) == RUN_COMPLETE_HEADER_WORDS
    ensures p[..16] == q[..16]
  {
    SameWord(p, q, 0);
    SameWord(p, q, 4);
    SameWord(p, q, 8);
    SameWord(p, q, 12);
    assert p[..16] == p[0..4] + p[4..8] + p[8..12] + p[12..16];
    assert q[..16] == q[0..4] + q[4..8] + q[8..12] + q[12..16];
  }

  lemma SameWord(p: seq<byte>, q: seq<byte>, at: nat)
    requires at + 4 <= |p| && at + 4 <= |q| && Rd32(p, at) == Rd32(q, at)
    ensures p[at..at + 4] == q[at..at + 4]
  {
    EncodeRead(p, at);
    EncodeRead(q, at);
  }

  /**
   A payload corrupted by a burst of up to four bytes, in its header words or in its fields, is refused, even with the
   frame CRC set aside, as long as the burst spares the CRC word itself.
   */
  lemma CorruptedPayloadRefused(sequence: word, flags: word, rc: word, r: Record, p: seq<byte>, at: nat)
    requires |r.basic| == KNOWN_FIELDS && (at + 4 <= 28 || at >= 32)
    requires p != RunComplete(sequence, flags, rc, r) && SR.DifferWithin(RunComplete(sequence, flags, rc, r), p, at, 4)
    ensures ParseMeasurement(p).Err?
  {
    var head, fields := [sequence, flags, rc], RecordWords(r);
    var q, crc := RunComplete(sequence, flags, rc, r), SplitCrc(Words(head), Words(fields));
    HeaderWords(head, crc, fields);
    if p[..16] == q[..16] {
      BurstIsCovered(q, p, at);
      BurstChangesCrc(q[16..28] + q[32..], p[16..28] + p[32..], Covered(at));
      assert q[16..28] == Words(head) && q[32..] == Words(fields);
      assert Rd32(p, 28) == Rd32(q, 28);
    } else if ParseMeasurement(p).Ok? {
      AcceptedFront(p, q);
    }
  }
}
