/** The firmware itself: globals, handlers and main loop, proved against the state machine. */
module Firmware {
  import opened Bytes
  import opened BitOps
  import opened Crc32
  import opened Frames
  import opened Measurement
  import opened RunRecord
  import opened Memory
  import opened Poison
  import opened Runner
  import opened FirmwareParser

  /** The bytes of frames sent one after the other. */
  function Wire(fs: seq<Frame>): seq<byte> {
    if fs == [] then [] else Encode(fs[0]) + Wire(fs[1..])
  }

  lemma WireOne(f: Frame)
    ensures Wire([f]) == Encode(f)
  {
  }

  lemma WireTwo(f: Frame, g: Frame)
    ensures Wire([f, g]) == Encode(f) + Encode(g)
  {
    assert [f, g][1..] == [g];
    WireOne(g);
  }

  /** A counter advanced twice, as one advanced once. */
  lemma CountMore(c: word, a: nat, b: nat)
    requires a + b < U32
    ensures Add32(Add32(c, a), b) == Add32(c, a + b)
  {
  }

  class Device {
    const mem: array<byte>
    var phase: Phase
    var model: Model
    var inputLength: word
    var lastChunk: Option<Chunk>
    var latch: Latch
    var runCounter: word
    var measured: Option<Record>
    var config: Config
    var probe: Probe
    var counters: Counters
    var windowBytes: word
    var measurementActive: bool
    var txForbidden: bool
    var rx: seq<byte>   // the bytes that will still arrive
    var tx: seq<byte>   // the bytes written to the UART's data register

    /** main() up to its loop */
    constructor (mem: array<byte>, rx: seq<byte>)
      requires mem.Length == U32
      ensures this.mem == mem && this.rx == rx && tx == [] && Idle() && View() == Booted(mem[..])
    {
      this.mem := mem;
      phase, model, inputLength, lastChunk := Phase.Idle, NO_MODEL, 0, None;
      latch, runCounter, measured := NO_RESULT, 0, None;
      config, probe := Config(INSTRUMENTATION_OFF, 0, 0, NO_EVENTS, 0), Probe(false, false, 0);
      counters, windowBytes := Counters(0, 0, 0, 0, 0, 0, 0, 0, 0), 0;
      measurementActive, txForbidden := false, false;
      this.rx, tx := rx, [];
    }

    /** Between commands no flag forbids transmission. */
    ghost predicate Idle()
      reads this
    {
      mem.Length == U32 && !measurementActive && !txForbidden
    }

    ghost function View(): State
      requires mem.Length == U32
      reads this, mem
    {
      State(phase, mem[..], model, inputLength, lastChunk, latch, runCounter, measured, config, probe, counters,
            windowBytes)
    }

    // ---- UART ----

    /** put_raw: refused and counted while either flag is set, never silently dropped. */
    method PutRaw(b: byte)
      modifies this`tx, this`counters, this`windowBytes
      ensures old(measurementActive || txForbidden) ==>
        tx == old(tx) && counters == old(counters) && windowBytes == Add32(old(windowBytes), 1)
      ensures !old(measurementActive || txForbidden) ==>
        && tx == old(tx) + [b] && windowBytes == old(windowBytes)
        && counters == old(counters).(txBytes := Add32(old(counters).txBytes, 1))
      ensures rx == old(rx)
    {
      if measurementActive || txForbidden {
        windowBytes := Add32(windowBytes, 1);
        return;
      }
      tx := tx + [b];
      counters := counters.(txBytes := Add32(counters.txBytes, 1));
    }

    /** Every byte of a block is either sent and counted, or refused and counted. */
    method PutBlock(data: seq<byte>)
      requires |data| < U32
      modifies this`tx, this`counters, this`windowBytes
      ensures old(measurementActive || txForbidden) ==>
        tx == old(tx) && counters == old(counters) && windowBytes == Add32(old(windowBytes), |data|)
      ensures !old(measurementActive || txForbidden) ==>
        tx == old(tx) + data && windowBytes == old(windowBytes)
        && counters == old(counters).(txBytes := Add32(old(counters).txBytes, |data|))
      ensures rx == old(rx)
    {
      for i := 0 to |data|
        invariant old(measurementActive || txForbidden) ==>
          tx == old(tx) && counters == old(counters) && windowBytes == Add32(old(windowBytes), i)
        invariant !old(measurementActive || txForbidden) ==>
          tx == old(tx) + data[..i] && windowBytes == old(windowBytes)
          && counters == old(counters).(txBytes := Add32(old(counters).txBytes, i))
      {
        CountMore(old(counters).txBytes, i, 1);
        CountMore(old(windowBytes), i, 1);
        PutRaw(data[i]);
        assert data[..i + 1] == data[..i] + [data[i]];
      }
      assert data[..|data|] == data;
    }

    /** send_frame: header, payload and the CRC over both, computed in two pieces. */
    method SendFrame(command: byte, flags: half, sequence: word, payload: Payload)
      requires Idle()
      modifies this`tx, this`counters, this`windowBytes
      ensures var f := Frame(RUNNER_VERSION, command, flags, sequence, payload);
        tx == old(tx) + Encode(f) && View() == Transmitted(old(View()), f)
      ensures rx == old(rx)
    {
      var f := Frame(RUNNER_VERSION, command, flags, sequence, payload);
      var header := Frames.Header(f);
      var crc := Crc32Update(CRC32_INIT, header);
      if |payload| != 0 {
        crc := Crc32Update(crc, payload);
      }
      UpdateAppend(CRC32_INIT, header, payload);
      var trailer := Le32(Value(Final(crc)));
      assert header + payload == Body(f);
      assert trailer == Le32(Crc(Body(f)));
      SendParts(header, payload, trailer);
    }

    method SendParts(header: seq<byte>, payload: seq<byte>, trailer: seq<byte>)
      requires Idle() && |header| + |payload| + |trailer| < U32
      modifies this`tx, this`counters, this`windowBytes
      ensures tx == old(tx) + (header + payload + trailer) && windowBytes == old(windowBytes)
      ensures counters == old(counters).(txBytes := Add32(old(counters).txBytes, |header| + |payload| + |trailer|))
      ensures rx == old(rx)
    {
      ghost var t, c := tx, counters.txBytes;
      PutBlock(header);
      if |payload| != 0 {
        PutBlock(payload);
      }
      CountMore(c, |header|, |payload|);
      assert tx == t + (header + payload) && counters.txBytes == Add32(c, |header| + |payload|);
      PutBlock(trailer);
      CountMore(c, |header| + |payload|, |trailer|);
    }

    /** The device has done `d` and transmitted its frames after `sent`. */
    ghost predicate Has(d: Did, sent: seq<byte>)
      reads this, mem
    {
      Idle() && View() == d.s && tx == sent + Wire(d.out)
    }

    method SendAck(command: byte, sequence: word, payload: Payload)
      requires Idle() && command < 0x80
      modifies this`tx, this`counters, this`windowBytes
      ensures Has(Acked(old(View()), command, sequence, payload), old(tx))
      ensures rx == old(rx)
    {
      SendFrame(command + 0x80, 0, sequence, payload);
      WireOne(Ack(command, sequence, payload));
    }

    method SendNack(command: byte, sequence: word, error: half)
      requires Idle()
      modifies this`tx, this`counters, this`windowBytes
      ensures Has(Refused(old(View()), command, sequence, error), old(tx))
      ensures rx == old(rx)
    {
      SendFrame(RESP_NACK, error, sequence, [command, PhaseCode(phase), 0, 0]);
      WireOne(Nack(phase, command, sequence, error));
    }

    // ---- handlers ----

    method HandleLoadModelBegin(sequence: word, payload: Payload)
      requires Idle()
      modifies this
      ensures Has(LoadModelBegin(old(View()), sequence, payload), old(tx)) && rx == old(rx)
    {
      if |payload| != 8 {
        SendNack(CMD_LOAD_MODEL_BEGIN, sequence, ERR_PAYLOAD_FORMAT);
        return;
      }
      var total, expected := Rd32(payload, 0), Rd32(payload, 4);
      if total == 0 || total > STAGING_SIZE {
        SendNack(CMD_LOAD_MODEL_BEGIN, sequence, ERR_RANGE);
        return;
      }
      ghost var s := View();
      model := Model(total, expected, 0, 0);
      lastChunk := None;
      phase := Loading;
      assert View() == s.(model := Model(total, expected, 0, 0), lastChunk := None, phase := Loading);
      SendAck(CMD_LOAD_MODEL_BEGIN, sequence, Triple(total, STAGING_BASE, STAGING_SIZE));
    }

    method HandleLoadModelChunk(sequence: word, payload: Payload)
      requires Idle() && model.total <= STAGING_SIZE
      modifies this, mem
      ensures Has(LoadModelChunk(old(View()), sequence, payload), old(tx)) && rx == old(rx)
    {
      if |payload| <= 4 {
        SendNack(CMD_LOAD_MODEL_CHUNK, sequence, ERR_PAYLOAD_FORMAT);
        return;
      }
      var data := payload[4..];
      var crc := Crc32Buffer(data);
      var chunk := Chunk(sequence, Rd32(payload, 0), |data|, crc);
      if lastChunk.Some? && sequence == lastChunk.value.sequence {
        RepeatChunk(chunk);
      } else {
        AcceptChunk(chunk, data);
      }
    }

    method RepeatChunk(chunk: Chunk)
      requires Idle() && lastChunk.Some?
      modifies this
      ensures Has(RepeatedChunk(old(View()), chunk), old(tx)) && rx == old(rx)
    {
      if chunk == lastChunk.value {
        SendAck(CMD_LOAD_MODEL_CHUNK, chunk.sequence, Triple(chunk.offset, chunk.length, model.staged));
      } else {
        counters := counters.(sequenceError := Add32(counters.sequenceError, 1));
        SendNack(CMD_LOAD_MODEL_CHUNK, chunk.sequence, ERR_CHUNK_MISMATCH);
      }
    }

    method AcceptChunk(chunk: Chunk, data: seq<byte>)
      requires Idle() && model.total <= STAGING_SIZE && chunk.length == |data|
      modifies this, mem
      ensures Has(NewChunk(old(View()), chunk, data), old(tx)) && rx == old(rx)
    {
      if !RangeInside(chunk.offset, |data|, 0, model.total)
         || !RangeInside(Add32(STAGING_BASE, chunk.offset), |data|, STAGING_BASE, Add32(STAGING_BASE, STAGING_SIZE)) {
        SendNack(CMD_LOAD_MODEL_CHUNK, chunk.sequence, ERR_RANGE);
        return;
      }
      ghost var s := View();
      ChunkFitsIffInside(model.total, chunk.offset, |data|);
      StoreChunk(chunk, data);
      ChunkStored(s, chunk, data, View());
      SendAck(CMD_LOAD_MODEL_CHUNK, chunk.sequence, Triple(chunk.offset, |data|, model.staged));
    }

    method StoreChunk(chunk: Chunk, data: seq<byte>)
      requires Idle() && chunk.length == |data| && chunk.offset + |data| <= STAGING_SIZE
      modifies this`model, this`lastChunk, mem
      ensures View() == old(View()).(mem := Store(old(mem[..]), STAGING_BASE + chunk.offset, data),
                                     lastChunk := Some(chunk),
                                     model := old(model).(staged := Add32(old(model).staged, |data|)))
      ensures rx == old(rx)
      ensures Idle() && tx == old(tx)
    {
      Copy(mem, STAGING_BASE + chunk.offset, data);
      model := model.(staged := Add32(model.staged, |data|));
      lastChunk := Some(chunk);
    }

    method HandleLoadModelEnd(sequence: word)
      requires Idle() && model.total <= STAGING_SIZE
      modifies this
      ensures Has(LoadModelEnd(old(View()), sequence), old(tx)) && rx == old(rx)
    {
      var computed := Crc32Buffer(mem[STAGING_BASE..STAGING_BASE + model.total]);
      model := model.(computedCrc := computed);
      if computed != model.expectedCrc {
        SendNack(CMD_LOAD_MODEL_END, sequence, ERR_MODEL_CRC);
        return;
      }
      phase := ModelReady;
      SendAck(CMD_LOAD_MODEL_END, sequence, Triple(computed, model.expectedCrc, model.total));
    }

    method HandleLoadInput(sequence: word, payload: Payload)
      requires Idle()
      modifies this
      ensures Has(LoadInput(old(View()), sequence, payload), old(tx)) && rx == old(rx)
    {
      inputLength := |payload|;
      phase := InputReady;
      SendAck(CMD_LOAD_INPUT, sequence, Le32(|payload|));
    }

    method HandleGetResult(sequence: word, payload: Payload)
      requires Idle()
      modifies this
      ensures Has(GetResult(old(View()), sequence, payload), old(tx)) && rx == old(rx)
    {
      if |payload| != 12 {
        SendNack(CMD_GET_RESULT, sequence, ERR_LENGTH);
        return;
      }
      var valid := IsFresh(Rd32(payload, 8));
      if !valid {
        SendNack(CMD_GET_RESULT, sequence, ERR_RESULT_NOT_VALID);
        return;
      }
      var base, len := Rd32(payload, 0), Rd32(payload, 4);
      if !RangeInside(base, len, NOINIT_BASE, NOINIT_END) {
        SendNack(CMD_GET_RESULT, sequence, ERR_RANGE);
        return;
      }
      SendResult(sequence, base, len);
    }

    method SendResult(sequence: word, base: word, len: word)
      requires Idle() && InNoinit(base, len)
      modifies this`tx, this`counters, this`windowBytes
      ensures Has(Acked(old(View()), CMD_GET_RESULT, sequence,
                        ResultPayload(latch.rc, base, len, Crc(Load(old(mem[..]), base, len)))), old(tx))
      ensures rx == old(rx)
    {
      var crc := Crc32Buffer(mem[base..base + len]);
      SendAck(CMD_GET_RESULT, sequence, ResultPayload(latch.rc, base, len, crc));
    }

    /** The freshness gate, one condition at a time. */
    method IsFresh(requested: word) returns (ok: bool)
      ensures ok <==> Fresh(latch, requested)
    {
      if !latch.completed {
        return false;
      }
      if requested != latch.completedSequence {
        return false;
      }
      if latch.rc != 0 {
        return false;
      }
      if And(latch.flags, RUN_VALID_REQUIRED_MASK) != RUN_VALID_REQUIRED_MASK {
        return false;
      }
      if latch.outputCrc == latch.poisonCrc {
        return false;
      }
      return true;
    }

    method HandleGetMeasurement(sequence: word)
      requires Idle() && (measured.Some? ==> |measured.value.basic| == KNOWN_FIELDS)
      modifies this
      ensures Has(GetMeasurement(old(View()), sequence), old(tx)) && rx == old(rx)
    {
      if measured.None? {
        SendNack(CMD_GET_MEASUREMENT, sequence, ERR_NO_MEASUREMENT);
      } else {
        SendAck(CMD_GET_MEASUREMENT, sequence, Words(RecordWords(measured.value)));
      }
    }

    method HandleSetMode(sequence: word, payload: Payload, hw: Probe)
      requires Idle()
      modifies this
      ensures Has(SetMode(old(View()), sequence, payload, hw), old(tx)) && rx == old(rx)
    {
      if |payload| != 44 {
        SendNack(CMD_SET_MODE, sequence, ERR_LENGTH);
        return;
      }
      var mode, setId, count := Rd32(payload, 0), Rd32(payload, 4), Rd32(payload, 8);
      if mode != INSTRUMENTATION_OFF && mode != INSTRUMENTATION_END_ONLY && mode != INSTRUMENTATION_EVENTS {
        SendNack(CMD_SET_MODE, sequence, ERR_UNSUPPORTED);
        return;
      }
      if !probe.performed {
        probe := hw;
      }
      if count > SLOTS || count > EffectiveSlots(probe) {
        SendNack(CMD_SET_MODE, sequence, ERR_RANGE);
        return;
      }
      if count != 0 && mode != INSTRUMENTATION_EVENTS {
        SendNack(CMD_SET_MODE, sequence, ERR_UNSUPPORTED);
        return;
      }
      AcceptMode(sequence, Config(mode, setId, count, KeptCodes(ReadWords(payload, 12, SLOTS), count),
                                  Add32(config.configurationSequence, 1)));
    }

    /** The new configuration, acknowledged as it was applied. */
    method AcceptMode(sequence: word, c: Config)
      requires Idle()
      modifies this`config, this`tx, this`counters, this`windowBytes
      ensures Has(Acked(old(View()).(config := c), CMD_SET_MODE, sequence,
                        Le32(c.mode) + Le32(c.mode) + Le32(c.eventCount) + Le32(c.configurationSequence)), old(tx))
      ensures rx == old(rx)
    {
      Configure(c);
      SendAck(CMD_SET_MODE, sequence,
              Le32(c.mode) + Le32(config.mode) + Le32(config.eventCount) + Le32(config.configurationSequence));
    }

    method Configure(c: Config)
      requires mem.Length == U32
      modifies this`config
      ensures View() == old(View()).(config := c)
      ensures rx == old(rx)
      ensures old(Idle()) ==> Idle()
    {
      config := c;
    }

    method HandleReset(sequence: word)
      requires Idle()
      modifies this
      ensures Has(Reset(old(View()), sequence), old(tx)) && rx == old(rx)
    {
      Configure(config.(mode := INSTRUMENTATION_OFF, eventCount := 0, eventCodes := NO_EVENTS));
      ResetContext();
      SendAck(CMD_RESET, sequence, []);
    }

    /** runner_reset_context: everything but the run counter. */
    method ResetContext()
      requires mem.Length == U32
      modifies this`model, this`inputLength, this`latch, this`lastChunk, this`phase
      ensures View() == old(View()).(model := NO_MODEL, inputLength := 0, latch := NO_RESULT, lastChunk := None,
                                     phase := Phase.Idle)
      ensures rx == old(rx)
    {
      model, inputLength, latch, lastChunk, phase := NO_MODEL, 0, NO_RESULT, None, Phase.Idle;
    }

    // ---- RUN ----

    /** The previous result is invalidated first, and its output destroyed. */
    method Invalidate() returns (poisonCrc: word)
      requires mem.Length == U32
      modifies this`latch, this`runCounter, mem
      ensures View() == old(View()).(mem := WithPoison(old(View())), runCounter := Add32(old(runCounter), 1),
                                     latch := latch)
      ensures poisonCrc == Crc(PoisonBytes(runCounter))
      ensures !latch.completed && latch.completedSequence == 0 && latch.flags == 0 && latch.lastSequence == runCounter
      ensures rx == old(rx)
      ensures tx == old(tx) && (old(Idle()) ==> Idle())
    {
      latch := latch.(completed := false, completedSequence := 0, flags := 0);
      runCounter := Add32(runCounter, 1);
      latch := latch.(lastSequence := runCounter);
      poisonCrc := PoisonOutputRegion(mem, runCounter);
    }

    /** The measured window: nothing is transmitted, and whatever tries to is counted and refused. */
    method Window(e: RunEnv) returns (outputCrc: word, regionCrc: word)
      requires Idle()
      modifies this`measurementActive, this`txForbidden, this`tx, this`counters, this`windowBytes, mem
      ensures !measurementActive && txForbidden && tx == old(tx)
      ensures View() == old(View()).(mem := e.effect(old(mem[..]), model.total),
                                     windowBytes := Add32(old(windowBytes), e.windowPuts))
      ensures outputCrc == Crc(Region(mem[..])) && regionCrc == Crc(Load(mem[..], NOINIT_BASE, NOINIT_SIZE))
      ensures rx == old(rx)
    {
      txForbidden := true;
      measurementActive := true;
      RunFixedInference(e);
      RefuseTransmission(e.windowPuts);
      outputCrc, regionCrc := RegionCrcs();
      measurementActive := false;
    }

    /** `n` bytes that anything tries to transmit while the flags are set. */
    method RefuseTransmission(n: word)
      requires mem.Length == U32 && measurementActive
      modifies this`tx, this`counters, this`windowBytes
      ensures tx == old(tx) && View() == old(View()).(windowBytes := Add32(old(windowBytes), n))
      ensures rx == old(rx)
    {
      PutBlock(Filled(0, n));
    }

    /** The call into the vendor's code. */
    method RunFixedInference(e: RunEnv)
      requires mem.Length == U32
      modifies mem
      ensures View() == old(View()).(mem := e.effect(old(mem[..]), model.total))
      ensures rx == old(rx)
    {
      var after := e.effect(mem[..], model.total);
      forall i | 0 <= i < mem.Length {
        mem[i] := after[i];
      }
    }

    method RegionCrcs() returns (outputCrc: word, regionCrc: word)
      requires mem.Length == U32
      ensures outputCrc == Crc(Region(mem[..])) && regionCrc == Crc(Load(mem[..], NOINIT_BASE, NOINIT_SIZE))
    {
      outputCrc := Crc32Buffer(mem[POISON_BASE..POISON_BASE + POISON_SIZE]);
      regionCrc := Crc32Buffer(mem[NOINIT_BASE..NOINIT_BASE + NOINIT_SIZE]);
    }

    /** From the refusal of the previous result to the ACK, transmitted while that is still legal. */
    method OpenRun(sequence: word, ghost s: State) returns (poisonCrc: word)
      requires Idle() && View() == s
      modifies this`latch, this`runCounter, this`phase, this`tx, this`counters, this`windowBytes, mem
      ensures Idle() && tx == old(tx) + Encode(RunAck(sequence)) && poisonCrc == Crc(PoisonBytes(runCounter))
      ensures View() == Transmitted(s, RunAck(sequence)).(mem := WithPoison(s), runCounter := Add32(s.runCounter, 1),
                                                          phase := phase, latch := latch)
      ensures rx == old(rx)
    {
      poisonCrc := Invalidate();
      phase := Running;
      ghost var v := View();
      SendFrame(CMD_RUN + 0x80, 0, sequence, Le32(0));
      TransmittedOpen(s, v, RunAck(sequence));
    }

    /** The window has closed over a run of `e` from `s`, which transmitted its ACK and nothing else. */
    ghost predicate Ran(s: State, sequence: word, e: RunEnv, sent: seq<byte>)
      requires CanRun(s, e)
      reads this, mem
    {
      && mem.Length == U32 && !measurementActive && tx == sent + Encode(RunAck(sequence))
      && View() == Executed(s, sequence, e).(phase := phase, latch := latch)
    }

    /** What the run's poisoning and its window have measured. */
    ghost predicate Measures(poisonCrc: word, outputCrc: word, regionCrc: word)
      reads this, mem
    {
      && mem.Length == U32 && poisonCrc == Crc(PoisonBytes(runCounter)) && outputCrc == Crc(Region(mem[..]))
      && regionCrc == Crc(Load(mem[..], NOINIT_BASE, NOINIT_SIZE))
    }

    /** From the refusal of the previous result to the close of the window. */
    method Execute(sequence: word, e: RunEnv, ghost s: State)
      returns (poisonCrc: word, outputCrc: word, regionCrc: word)
      requires Idle() && View() == s && CanRun(s, e)
      modifies this`latch, this`runCounter, this`phase, this`tx, this`counters, this`windowBytes,
               this`measurementActive, this`txForbidden, mem
      ensures Ran(s, sequence, e, old(tx)) && Measures(poisonCrc, outputCrc, regionCrc) && rx == old(rx)
    {
      poisonCrc := OpenRun(sequence, s);
      outputCrc, regionCrc := Window(e);
    }

    /** Latches, transmission legal again, and RUN_COMPLETE. */
    method Finish(sequence: word, e: RunEnv, o: Outcome, r: Record, ghost s: State, ghost sent: seq<byte>)
      requires CanRun(s, e) && Ran(s, sequence, e, sent) && o == RunOutcome(s, e) && r == RecordOf(s, e)
      modifies this`latch, this`measured, this`phase, this`counters, this`txForbidden, this`tx, this`windowBytes
      ensures Has(Run(s, sequence, e), sent) && rx == old(rx)
    {
      RunIsTwoSteps(s, sequence, e, View(), o, r);
      Conclude(o, r, e.readings.raw[7] != 0);
      Report(sequence, o, r);
      WireTwo(RunAck(sequence), RunCompleteFrame(sequence, o, r));
      Regroup(sent, Encode(RunAck(sequence)), Encode(RunCompleteFrame(sequence, o, r)));
    }

    /** handle_run */
    method HandleRun(sequence: word, e: RunEnv)
      requires Idle() && CanRun(View(), e)
      modifies this, mem
      ensures Has(Run(old(View()), sequence, e), old(tx)) && rx == old(rx)
    {
      RunFrom(sequence, e, View(), tx);
    }

    method RunFrom(sequence: word, e: RunEnv, ghost s: State, ghost sent: seq<byte>)
      requires Idle() && View() == s && tx == sent && CanRun(s, e)
      modifies this, mem
      ensures Has(Run(s, sequence, e), sent) && rx == old(rx)
    {
      var poisonCrc, outputCrc, regionCrc := Execute(sequence, e, s);
      var flags := RunFlags(e.rc, outputCrc != poisonCrc, Coarse(e.readings), regionCrc == EXPECTED_CRC);
      var o := Outcome(e.rc, runCounter, flags, poisonCrc, outputCrc, regionCrc);
      var r := BuildRecord(config, probe, e.readings, windowBytes, o);
      Judged(s, sequence, e, View(), o, r);
      Finish(sequence, e, o, r, s, sent);
    }

    /** The latches, written together at the very end, before transmission becomes legal again. */
    method Conclude(o: Outcome, r: Record, overrun: bool)
      requires mem.Length == U32 && !measurementActive
      modifies this`latch, this`measured, this`phase, this`counters, this`txForbidden
      ensures Idle() && View() == Concluded(old(View()), o, r, overrun)
      ensures rx == old(rx)
    {
      if overrun {
        counters := counters.(rxOverrun := Add32(counters.rxOverrun, 1));
      }
      measured := Some(r);
      latch := LatchOf(o);
      phase := ResultReady;
      txForbidden := false;
    }

    method Report(sequence: word, o: Outcome, r: Record)
      requires Idle() && |r.basic| == KNOWN_FIELDS
      modifies this`tx, this`counters, this`windowBytes
      ensures Idle() && tx == old(tx) + Encode(RunCompleteFrame(sequence, o, r))
      ensures View() == Transmitted(old(View()), RunCompleteFrame(sequence, o, r))
      ensures rx == old(rx)
    {
      var payload := BuildRunComplete(o.runSequence, o.flags, o.rc, r);
      SendFrame(CMD_RUN_COMPLETE, 0, sequence, payload[..]);
    }

    // ---- commands ----

    method DispatchCommand(command: byte, sequence: word, payload: Payload, env: Env)
      requires Idle() && WellKept(View()) && Accepts(phase, command) && (command == CMD_RUN ==> CanRun(View(), env.run))
      modifies this, mem
      ensures Has(Dispatch(old(View()), command, sequence, payload, env), old(tx)) && rx == old(rx)
    {
      if command == CMD_PING || command == CMD_GET_STATE {
        var status := BuildStatus();
        SendAck(command, sequence, status);
      } else if command == CMD_GET_CAPABILITIES {
        probe := env.hw;
        SendAck(command, sequence, env.caps);
      } else if command == CMD_GET_MEASUREMENT {
        HandleGetMeasurement(sequence);
      } else if command == CMD_LOAD_MODEL_BEGIN {
        HandleLoadModelBegin(sequence, payload);
      } else if command == CMD_LOAD_MODEL_CHUNK {
        HandleLoadModelChunk(sequence, payload);
      } else if command == CMD_LOAD_MODEL_END {
        HandleLoadModelEnd(sequence);
      } else if command == CMD_LOAD_INPUT {
        HandleLoadInput(sequence, payload);
      } else if command == CMD_RUN {
        HandleRun(sequence, env.run);
      } else if command == CMD_GET_RESULT {
        HandleGetResult(sequence, payload);
      } else if command == CMD_RESET {
        HandleReset(sequence);
      } else {
        HandleSetMode(sequence, payload, env.hw);
      }
    }

    method BuildStatus() returns (p: Payload)
      requires mem.Length == U32
      ensures p == Status(View())
    {
      var c := counters;
      p := [PhaseCode(phase), RUNNER_VERSION] + Le16(0)
           + Words([c.rxBytes, c.txBytes, c.rxOverrun, c.badMagic, c.badVersion, c.badCrc, c.lengthError,
                    c.sequenceError, c.resync]);
    }

    /** A frame with a wrong version, length or CRC is counted and refused; any other is a command. */
    method HandleHeard(h: Heard, env: Env)
      requires Idle() && WellKept(View())
      requires h.Request? && h.command == CMD_RUN && Accepts(phase, CMD_RUN) ==> CanRun(View(), env.run)
      modifies this, mem
      ensures Has(Handle(old(View()), h, env), old(tx)) && rx == old(rx)
    {
      match h
      case WrongVersion(command, sequence) =>
        counters := counters.(badVersion := Add32(counters.badVersion, 1));
        SendNack(command, sequence, ERR_BAD_VERSION);
      case TooLong(command, sequence) =>
        counters := counters.(lengthError := Add32(counters.lengthError, 1));
        SendNack(command, sequence, ERR_LENGTH);
      case Corrupt(command, sequence) =>
        counters := counters.(badCrc := Add32(counters.badCrc, 1));
        SendNack(command, sequence, ERR_BAD_CRC);
      case Request(command, sequence, payload) =>
        if !Known(command) {
          SendNack(command, sequence, ERR_BAD_COMMAND);
        } else if !Accepts(phase, command) {
          SendNack(command, sequence, ERR_STATE);
        } else {
          DispatchCommand(command, sequence, payload, env);
        }
    }

    // ---- reception ----

    /** The bytes taken off the line so far, and the resynchronisations among them. */
    ghost predicate Took(s: State, from: seq<byte>, n: nat, resyncs: nat)
      reads this, mem
    {
      n <= |from| && rx == from[n..] && Idle() && View() == Received(s, n, resyncs)
    }

    /** get_raw, which never returns once the line falls silent */
    method GetRaw(ghost s: State, ghost from: seq<byte>, ghost n: nat, ghost resyncs: nat) returns (ok: bool, b: byte)
      requires Took(s, from, n, resyncs)
      modifies this`rx, this`counters
      ensures ok <==> n < |from|
      ensures ok ==> b == from[n] && Took(s, from, n + 1, resyncs)
    {
      if rx == [] {
        return false, 0;
      }
      CountModulo(s.counters.rxBytes, n);
      ok, b := true, rx[0];
      rx := rx[1..];
      counters := counters.(rxBytes := Add32(counters.rxBytes, 1));
    }

    method CountResync(ghost s: State, ghost from: seq<byte>, ghost n: nat, ghost resyncs: nat)
      requires Took(s, from, n, resyncs)
      modifies this`counters
      ensures Took(s, from, n, resyncs + 1)
    {
      CountModulo(s.counters.badMagic, resyncs);
      CountModulo(s.counters.resync, resyncs);
      counters := counters.(badMagic := Add32(counters.badMagic, 1), resync := Add32(counters.resync, 1));
    }

    /** sync_to_magic */
    method SyncToMagic(ghost s: State, ghost from: seq<byte>) returns (ok: bool, ghost n: nat, ghost resyncs: nat)
      requires Took(s, from, 0, 0)
      modifies this`rx, this`counters
      ensures Sync(from, 0) == if ok then Synced(n, resyncs) else Starved
      ensures ok ==> Took(s, from, n, resyncs)
    {
      var matched := 0;
      n, resyncs := 0, 0;
      while matched < 4
        invariant matched <= 4 && Took(s, from, n, resyncs)
        invariant Behind(n, resyncs, Sync(from[n..], matched)) == Sync(from, 0)
        decreases |from| - n, 4 - matched
      {
        var got, b := GetRaw(s, from, n, resyncs);
        if !got {
          return false, n, resyncs;
        }
        SyncStep(from, n, resyncs, matched);
        n := n + 1;
        if b != MAGIC[matched] {
          CountResync(s, from, n, resyncs);
          resyncs := resyncs + 1;
        }
        matched := if b == MAGIC[matched] then matched + 1 else if b == MAGIC[0] then 1 else 0;
      }
      ok := true;
    }

    /** The next `k` bytes. */
    method GetBlock(k: nat, ghost s: State, ghost from: seq<byte>, ghost n: nat, ghost resyncs: nat)
      returns (ok: bool, data: seq<byte>)
      requires Took(s, from, n, resyncs)
      modifies this`rx, this`counters
      ensures ok <==> n + k <= |from|
      ensures ok ==> data == from[n..n + k] && Took(s, from, n + k, resyncs)
    {
      data := [];
      for i := 0 to k
        invariant n + i <= |from| && data == from[n..n + i] && Took(s, from, n + i, resyncs)
      {
        var got, b := GetRaw(s, from, n + i, resyncs);
        if !got {
          return false, data;
        }
        data := data + [b];
      }
      ok := true;
    }

    /** Payload and CRC of a frame whose header has been read. */
    method ReceiveBody(header: seq<byte>, len: nat, ghost s: State, ghost from: seq<byte>, ghost n: nat,
                       ghost resyncs: nat)
      returns (ok: bool, good: bool, payload: seq<byte>)
      requires Took(s, from, n, resyncs)
      modifies this`rx, this`counters
      ensures ok <==> n + len + 4 <= |from|
      ensures ok ==> payload == from[n..n + len] && Took(s, from, n + len + 4, resyncs)
      ensures ok ==> (good <==> Rd32(from, n + len) == Crc(header + payload))
    {
      var got, data := GetBlock(len, s, from, n, resyncs);
      if !got {
        return false, false, [];
      }
      ghost var mid := n + len;
      var trailer;
      got, trailer := GetBlock(4, s, from, mid, resyncs);
      if !got {
        return false, false, [];
      }
      ok, payload := true, data;
      good := CheckCrc(header, payload, trailer);
      TrailerIs(from, mid, trailer);
    }

    /** The CRC over header and payload, computed in two pieces, against the one received. */
    static method CheckCrc(header: seq<byte>, payload: seq<byte>, trailer: seq<byte>) returns (good: bool)
      requires |trailer| == 4
      ensures good <==> Rd32(trailer, 0) == Crc(header + payload)
    {
      var crc := Crc32Update(CRC32_INIT, header);
      if |payload| != 0 {
        crc := Crc32Update(crc, payload);
      }
      UpdateAppend(CRC32_INIT, header, payload);
      assert payload == [] ==> header + payload == header;
      good := Rd32(trailer, 0) == Value(Final(crc));
    }

    /** A frame found `at` bytes into the stream, its magic already taken. */
    method ReceiveAfterMagic(ghost s: State, ghost from: seq<byte>, ghost at: nat, ghost resyncs: nat,
                             ghost z: seq<byte>)
      returns (ok: bool, heard: Heard, ghost k: nat)
      requires Took(s, from, at + 4, resyncs) && at <= |from| && z == from[at..] && HasMagic(z)
      modifies this`rx, this`counters
      ensures ParseAt(z) == (if ok then Parsed(k, 0, heard) else Blocked) && (ok ==> Took(s, from, at + k, resyncs))
    {
      var header;
      ok, header := ReceiveHeader(s, from, at, resyncs, z);
      ShortBlocks(z);
      heard, k := WrongVersion(0, 0), 16;
      if !ok {
        return;
      }
      ok, heard, k := ReceiveByHeader(header, s, from, at, resyncs, z);
    }

    method ReceiveByHeader(header: seq<byte>, ghost s: State, ghost from: seq<byte>, ghost at: nat, ghost resyncs: nat,
                           ghost z: seq<byte>)
      returns (ok: bool, heard: Heard, ghost k: nat)
      requires Took(s, from, at + 16, resyncs) && at <= |from| && z == from[at..] && HasMagic(z)
      requires |z| >= 16 && |header| == 16 && z[..16] == header
      modifies this`rx, this`counters
      ensures ParseAt(z) == (if ok then Parsed(k, 0, heard) else Blocked) && (ok ==> Took(s, from, at + k, resyncs))
    {
      HeaderDecides(z, header);
      ok, k := true, 16;
      if header[4] != RUNNER_VERSION {
        heard := WrongVersion(header[5], Rd32(header, 8));
        return;
      }
      var len := Rd32(header, 12);
      if len > MAX_PAYLOAD {
        heard := TooLong(header[5], Rd32(header, 8));
        return;
      }
      k := 16 + len + 4;
      ok, heard := ReceiveChecked(header, len, s, from, at, at + 16, resyncs, z);
    }

    /** The twelve header bytes behind the magic. */
    method ReceiveHeader(ghost s: State, ghost from: seq<byte>, ghost at: nat, ghost resyncs: nat, ghost z: seq<byte>)
      returns (ok: bool, header: seq<byte>)
      requires Took(s, from, at + 4, resyncs) && at <= |from| && z == from[at..] && HasMagic(z)
      modifies this`rx, this`counters
      ensures ok <==> |z| >= HEADER_SIZE
      ensures ok ==> |header| == 16 && z[..16] == header && Took(s, from, at + 16, resyncs)
    {
      var front;
      header := MAGIC;
      ok, front := GetBlock(12, s, from, at + 4, resyncs);
      if ok {
        header := MAGIC + front;
        FrontIs(from, at, header);
      }
    }

    /** The rest of a frame with a good header, and the verdict of its CRC. */
    method ReceiveChecked(header: seq<byte>, len: nat, ghost s: State, ghost from: seq<byte>, ghost at: nat,
                          ghost n: nat, ghost resyncs: nat, ghost z: seq<byte>)
      returns (ok: bool, heard: Heard)
      requires n == at + 16 && Took(s, from, n, resyncs) && at <= |from| && z == from[at..]
      requires |z| >= 16 && |header| == 16 && z[..16] == header && len == PayloadLength(z) <= MAX_PAYLOAD
      modifies this`rx, this`counters
      ensures ok <==> |z| >= FrameLength(z)
      ensures ok ==> Took(s, from, n + len + 4, resyncs) && heard == Checked(z)
    {
      var good, payload;
      ok, good, payload := ReceiveBody(header, len, s, from, n, resyncs);
      heard := Corrupt(header[5], Rd32(header, 8));
      BodyFits(from, at, len, z);
      if !ok {
        return;
      }
      ghost var verdict := BodyIs(from, at, n, header, len, payload, z, good);
      if good {
        heard := Request(header[5], Rd32(header, 8), payload);
      }
    }

    /** parse_one_frame up to the dispatch of what it read */
    method ReceiveFrame(ghost s: State, ghost from: seq<byte>)
      returns (ok: bool, heard: Heard, ghost n: nat, ghost resyncs: nat)
      requires Took(s, from, 0, 0)
      modifies this`rx, this`counters
      ensures ParseOne(from) == if ok then Parsed(n, resyncs, heard) else Blocked
      ensures ok ==> Took(s, from, n, resyncs)
    {
      heard := WrongVersion(0, 0);
      ghost var end;
      ok, end, resyncs := SyncToMagic(s, from);
      n := 0;
      if ok {
        ok, heard, n := ReceiveFound(s, from, end, resyncs);
      } else {
        NoFrame(from);
      }
    }

    method ReceiveFound(ghost s: State, ghost from: seq<byte>, ghost end: nat, ghost resyncs: nat)
      returns (ok: bool, heard: Heard, ghost n: nat)
      requires Sync(from, 0) == Synced(end, resyncs) && Took(s, from, end, resyncs)
      modifies this`rx, this`counters
      ensures ParseOne(from) == if ok then Parsed(n, resyncs, heard) else Blocked
      ensures ok ==> Took(s, from, n, resyncs)
    {
      ghost var at, z := FrontOfFrame(from, end, resyncs);
      ok, heard, n := ReceiveAfterMagic(s, from, at, resyncs, z);
      n := at + n;
    }

    /**
     One turn of the main loop: nothing, when the bytes of a frame never come; else exactly one step of the machine.
     */
    method Serve(env: Env) returns (ok: bool, ghost e: Event)
      requires Idle() && WellKept(View()) && ValidEnv(env) && CanRun(View(), env.run)
      modifies this, mem
      ensures e.env == env && ParseOne(old(rx)) == if ok then Parsed(e.consumed, e.resyncs, e.heard) else Blocked
      ensures ok ==> e.consumed <= |old(rx)| && rx == old(rx)[e.consumed..]
      ensures ok ==> Possible(old(View()), e) && Has(Step(old(View()), e), old(tx))
      ensures !ok ==> Idle() && tx == old(tx) && View() == old(View()).(counters := counters)
    {
      ghost var s := View();
      NothingReceived(s, rx);
      var heard;
      ghost var n, resyncs;
      ok, heard, n, resyncs := ReceiveFrame(s, rx);
      e := Event(n, resyncs, heard, env);
      if ok {
        HandleReceived(heard, env, s, e);
      }
    }

    /** What was heard takes the machine, which reception has only made count, one step. */
    method HandleReceived(heard: Heard, env: Env, ghost s: State, ghost e: Event)
      requires Idle() && View() == Received(s, e.consumed, e.resyncs) && e.heard == heard && e.env == env
      requires WellKept(s) && ValidEnv(env) && CanRun(s, env.run)
      modifies this, mem
      ensures Possible(s, e) && Has(Step(s, e), old(tx)) && rx == old(rx)
    {
      ReceptionOnlyCounts(s, e);
      HandleHeard(heard, env);
    }
  }

  lemma TrailerIs(from: seq<byte>, at: nat, trailer: seq<byte>)
    requires at + 4 <= |from| && trailer == from[at..at + 4]
    ensures Rd32(trailer, 0) == Rd32(from, at)
  {
  }

  /** No magic, no frame. */
  lemma NoFrame(from: seq<byte>)
    ensures Sync(from, 0).Starved? ==> ParseOne(from).Blocked?
  {
    SyncStopsAtFirstMagic(from);
  }

  /** The first frame of a stream, by way of its synchronisation. */
  lemma FrontOfFrame(from: seq<byte>, end: nat, resyncs: nat) returns (at: nat, z: seq<byte>)
    requires Sync(from, 0) == Synced(end, resyncs)
    ensures end == at + 4 && at <= |from| && z == from[at..] && HasMagic(z)
    ensures ParseOne(from) == Skipped(at, resyncs, ParseAt(z))
  {
    SyncStopsAtFirstMagic(from);
    at := end - 4;
    z := from[at..];
  }

  lemma NothingReceived(s: State, rx: seq<byte>)
    ensures Received(s, 0, 0) == s && rx[0..] == rx
  {
  }

  lemma ReceptionOnlyCounts(s: State, e: Event)
    requires WellKept(s) && ValidEnv(e.env) && CanRun(s, e.env.run)
    ensures var r := Received(s, e.consumed, e.resyncs);
      WellKept(r) && CanRun(r, e.env.run) && Possible(s, e) && Step(s, e) == Handle(r, e.heard, e.env)
  {
  }

  /** The fields of a header are those of the frame it starts. */
  lemma HeaderReads(s: seq<byte>, header: seq<byte>)
    requires |s| >= HEADER_SIZE && |header| == 16 && s[..16] == header
    ensures s[4] == header[4] && s[5] == header[5] && Rd32(s, 8) == Rd32(header, 8)
    ensures PayloadLength(s) == Rd32(header, 12)
  {
  }

  lemma ShortBlocks(z: seq<byte>)
    requires HasMagic(z)
    ensures |z| < HEADER_SIZE ==> ParseAt(z) == Blocked
  {
  }

  /** What a header alone says of the frame it begins. */
  lemma HeaderDecides(s: seq<byte>, header: seq<byte>)
    requires HasMagic(s) && |s| >= HEADER_SIZE && |header| == 16 && s[..16] == header
    ensures PayloadLength(s) == Rd32(header, 12)
    ensures header[4] != RUNNER_VERSION ==> ParseAt(s) == Parsed(16, 0, WrongVersion(header[5], Rd32(header, 8)))
    ensures header[4] == RUNNER_VERSION && Rd32(header, 12) > MAX_PAYLOAD ==>
      ParseAt(s) == Parsed(16, 0, TooLong(header[5], Rd32(header, 8)))
    ensures header[4] == RUNNER_VERSION && Rd32(header, 12) <= MAX_PAYLOAD ==>
      ParseAt(s) == if |s| < FrameLength(s) then Blocked else Parsed(16 + Rd32(header, 12) + 4, 0, Checked(s))
  {
    HeaderReads(s, header);
  }

  /** The header of a frame whose magic has been found `at` bytes into a stream. */
  lemma FrontIs(from: seq<byte>, at: nat, header: seq<byte>)
    requires at + 16 <= |from| && HasMagic(from[at..]) && header == MAGIC + from[at + 4..at + 16]
    ensures from[at..][..16] == header
  {
  }

  /** The bytes of a frame `at` bytes into a stream. */
  lemma BodyParts(from: seq<byte>, at: nat, header: seq<byte>, payload: seq<byte>, z: seq<byte>, k: nat)
    requires k == 16 + |payload| && at + k + 4 <= |from| && z == from[at..] && |header| == 16 && z[..16] == header
    requires payload == from[at + 16..at + 16 + |payload|]
    ensures k + 4 <= |z| && z[16..k] == payload && z[..k] == header + payload && Rd32(z, k) == Rd32(from, at + k)
  {
  }

  lemma CheckedIs(z: seq<byte>, payload: seq<byte>, k: nat, good: bool)
    requires k == 16 + |payload| && k + 4 <= |z| && z[16..k] == payload && PayloadLength(z) == |payload| <= MAX_PAYLOAD
    requires good <==> Rd32(z, k) == Crc(z[..k])
    ensures Checked(z) == if good then Request(z[5], Rd32(z, 8), payload) else Corrupt(z[5], Rd32(z, 8))
  {
  }

  lemma BodyFits(from: seq<byte>, at: nat, len: nat, z: seq<byte>)
    requires at <= |from| && z == from[at..] && |z| >= HEADER_SIZE && len == PayloadLength(z)
    ensures at + 16 + len + 4 <= |from| <==> |z| >= FrameLength(z)
  {
  }

  /** The verdict on a frame whose header, payload and CRC have been read. */
  lemma BodyIs(from: seq<byte>, at: nat, n: nat, header: seq<byte>, len: nat, payload: seq<byte>, z: seq<byte>,
               good: bool)
    returns (verdict: Heard)
    requires n == at + 16 && n + len + 4 <= |from| && z == from[at..] && |header| == 16 && z[..16] == header
    requires len <= MAX_PAYLOAD && payload == from[n..n + len] && PayloadLength(z) == len
    requires good <==> Rd32(from, n + len) == Crc(header + payload)
    ensures |payload| == len && FrameLength(z) <= |z| && verdict == Checked(z)
    ensures verdict
         == if good then Request(header[5], Rd32(header, 8), payload) else Corrupt(header[5], Rd32(header, 8))
  {
    HeaderReads(z, header);
    var k := 16 + len;
    assert |payload| == len;
    BodyParts(from, at, header, payload, z, k);
    CheckedIs(z, payload, k, good);
    verdict := Checked(z);
  }

  lemma CountModulo(c: word, n: nat)
    ensures Add32(Add32(c, n % U32), 1) == Add32(c, (n + 1) % U32)
  {
    NextModulo(n);
    NextModulo(c + n % U32);
  }

  lemma NextModulo(n: nat)
    ensures (n + 1) % U32 == if n % U32 == U32 - 1 then 0 else n % U32 + 1
  {
  }

  lemma SyncStep(from: seq<byte>, n: nat, resyncs: nat, matched: nat)
    requires n < |from| && matched < 4
    ensures var b := from[n];
      Behind(n, resyncs, Sync(from[n..], matched))
      == Behind(n + 1, resyncs + (if b == MAGIC[matched] then 0 else 1), Sync(from[n + 1..], Advance(matched, b)))
  {
    assert from[n..][0] == from[n] && from[n..][1..] == from[n + 1..];
  }

  lemma ChunkStored(s: State, chunk: Chunk, data: seq<byte>, t: State)
    requires s.model.total <= STAGING_SIZE && chunk.length == |data| && ChunkFits(s.model.total, chunk.offset, |data|)
    requires chunk.offset + |data| <= STAGING_SIZE
    requires t == s.(mem := Store(s.mem, STAGING_BASE + chunk.offset, data), lastChunk := Some(chunk),
                     model := s.model.(staged := Add32(s.model.staged, |data|)))
    ensures NewChunk(s, chunk, data)
         == Acked(t, CMD_LOAD_MODEL_CHUNK, chunk.sequence, Triple(chunk.offset, |data|, t.model.staged))
  {
  }

  /** The verdict on a run and its record, decided from what the window measured. */
  lemma Judged(s: State, sequence: word, e: RunEnv, v: State, o: Outcome, r: Record)
    requires CanRun(s, e) && v == Executed(s, sequence, e).(phase := v.phase, latch := v.latch)
    requires o == Outcome(e.rc, v.runCounter,
                          RunFlags(e.rc, o.outputCrc != o.poisonCrc, Coarse(e.readings), o.regionCrc == EXPECTED_CRC),
                          Crc(PoisonBytes(v.runCounter)), Crc(Region(v.mem)),
                          Crc(Load(v.mem, NOINIT_BASE, NOINIT_SIZE)))
    requires v.config.eventCount <= SLOTS && r == BuildRecord(v.config, v.probe, e.readings, v.windowBytes, o)
    ensures o == RunOutcome(s, e) && r == RecordOf(s, e)
  {
  }

  /** Transmitting only counts, so it does not matter whether the poisoning comes before or after it. */
  lemma TransmittedOpen(s: State, v: State, f: Frame)
    requires v == s.(mem := WithPoison(s), runCounter := Add32(s.runCounter, 1), phase := v.phase, latch := v.latch)
    ensures Transmitted(v, f) == Transmitted(s, f).(mem := WithPoison(s), runCounter := Add32(s.runCounter, 1),
                                                    phase := v.phase, latch := v.latch)
  {
  }

  lemma RunIsTwoSteps(s: State, sequence: word, e: RunEnv, v: State, o: Outcome, r: Record)
    requires CanRun(s, e) && o == RunOutcome(s, e) && r == RecordOf(s, e)
    requires v == Executed(s, sequence, e).(phase := v.phase, latch := v.latch)
    ensures var f := RunCompleteFrame(sequence, o, r);
      Run(s, sequence, e) == Did(Transmitted(Concluded(v, o, r, e.readings.raw[7] != 0), f), [RunAck(sequence), f])
  {
  }
}
