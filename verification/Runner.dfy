/** What the firmware does with each command: the state machine, its acceptance table and its handlers. */
module Runner {
  import opened Bytes
  import opened BitOps
  import opened Crc32
  import opened Frames
  import opened Measurement
  import opened RunRecord
  import opened Memory
  import opened Poison

  const CMD_PING: byte := 0x01
  const CMD_GET_STATE: byte := 0x02
  const CMD_GET_CAPABILITIES: byte := 0x03
  const CMD_GET_MEASUREMENT: byte := 0x04
  const CMD_SET_MODE: byte := 0x05
  const CMD_LOAD_MODEL_BEGIN: byte := 0x10
  const CMD_LOAD_MODEL_CHUNK: byte := 0x11
  const CMD_LOAD_MODEL_END: byte := 0x12
  const CMD_LOAD_INPUT: byte := 0x20
  const CMD_RUN: byte := 0x30
  const CMD_RUN_COMPLETE: byte := 0x31
  const CMD_GET_RESULT: byte := 0x40
  const CMD_RESET: byte := 0x50
  const RESP_NACK: byte := 0xFF

  const ERR_BAD_VERSION: half := 1
  const ERR_BAD_COMMAND: half := 2
  const ERR_LENGTH: half := 3
  const ERR_BAD_CRC: half := 4
  const ERR_STATE: half := 5
  const ERR_RANGE: half := 6
  const ERR_CHUNK_MISMATCH: half := 7
  const ERR_MODEL_CRC: half := 8
  const ERR_PAYLOAD_FORMAT: half := 9
  const ERR_NO_MEASUREMENT: half := 10
  const ERR_RESULT_NOT_VALID: half := 11
  const ERR_UNSUPPORTED: half := 12

  const EXPECTED_CRC: word := 0x2708_4C4C

  datatype Phase = Boot | Idle | Loading | ModelReady | InputReady | Running | ResultReady

  function PhaseCode(p: Phase): byte {
    match p
    case Boot => 0 case Idle => 1 case Loading => 2 case ModelReady => 3
    case InputReady => 4 case Running => 5 case ResultReady => 6
  }

  datatype Model = Model(total: word, expectedCrc: word, staged: word, computedCrc: word)

  /** The chunk a retransmission is recognised by. */
  datatype Chunk = Chunk(sequence: word, offset: word, length: word, crc: word)

  /** What the last run left for GET_RESULT to consult. */
  datatype Latch = Latch(rc: word, completed: bool, lastSequence: word, completedSequence: word,
                         flags: word, poisonCrc: word, outputCrc: word, regionCrc: word)

  datatype Counters = Counters(rxBytes: word, txBytes: word, rxOverrun: word, badMagic: word, badVersion: word,
                               badCrc: word, lengthError: word, sequenceError: word, resync: word)

  datatype State = State(phase: Phase, mem: Space, model: Model, inputLength: word, lastChunk: Option<Chunk>,
                         latch: Latch, runCounter: word, measured: Option<Record>, config: Config, probe: Probe,
                         counters: Counters, windowBytes: word)

  const NO_MODEL: Model := Model(0, 0, 0, 0)
  const NO_RESULT: Latch := Latch(0, false, 0, 0, 0, 0, 0, 0)
  const NO_EVENTS: Slots := [0, 0, 0, 0, 0, 0, 0, 0]

  /** The machine as main() leaves it, over whatever memory it finds. */
  function Booted(mem: Space): State {
    State(Idle, mem, NO_MODEL, 0, None, NO_RESULT, 0, None, Config(INSTRUMENTATION_OFF, 0, 0, NO_EVENTS, 0),
          Probe(false, false, 0), Counters(0, 0, 0, 0, 0, 0, 0, 0, 0), 0)
  }

  // ---- acceptance ----

  predicate Known(command: byte) {
    command == CMD_PING || command == CMD_GET_STATE || command == CMD_GET_CAPABILITIES || command == CMD_GET_MEASUREMENT
    || command == CMD_SET_MODE || command == CMD_LOAD_MODEL_BEGIN || command == CMD_LOAD_MODEL_CHUNK
    || command == CMD_LOAD_MODEL_END || command == CMD_LOAD_INPUT || command == CMD_RUN || command == CMD_GET_RESULT
    || command == CMD_RESET
  }

  predicate Always(command: byte) {
    command == CMD_PING || command == CMD_GET_STATE || command == CMD_GET_CAPABILITIES || command == CMD_GET_MEASUREMENT
  }

  /** The acceptance table. */
  predicate Accepts(p: Phase, c: byte) {
    match p
    case Boot => false
    case Idle => Always(c) || c == CMD_LOAD_MODEL_BEGIN || c == CMD_RESET || c == CMD_SET_MODE
    case Loading => Always(c) || c == CMD_LOAD_MODEL_CHUNK || c == CMD_LOAD_MODEL_END || c == CMD_RESET
    case ModelReady => Always(c) || c == CMD_LOAD_INPUT || c == CMD_LOAD_MODEL_BEGIN || c == CMD_RESET
    case InputReady =>
      || Always(c) || c == CMD_RUN || c == CMD_LOAD_INPUT
      || c == CMD_LOAD_MODEL_BEGIN || c == CMD_RESET || c == CMD_SET_MODE
    case Running => false
    case ResultReady =>
      || Always(c) || c == CMD_GET_RESULT || c == CMD_RUN
      || c == CMD_LOAD_INPUT || c == CMD_RESET || c == CMD_SET_MODE
  }

  // ---- replies ----

  /** A new state and the frames transmitted on the way to it. */
  datatype Did = Did(s: State, out: seq<Frame>)

  function Transmitted(s: State, f: Frame): State {
    s.(counters := s.counters.(txBytes := Add32(s.counters.txBytes, |Encode(f)|)))
  }

  function Reply(s: State, f: Frame): Did { Did(Transmitted(s, f), [f]) }

  function Ack(command: byte, sequence: word, payload: Payload): Frame
    requires command < 0x80
  {
    Frame(RUNNER_VERSION, command + 0x80, 0, sequence, payload)
  }

  function Nack(p: Phase, command: byte, sequence: word, error: half): Frame {
    Frame(RUNNER_VERSION, RESP_NACK, error, sequence, [command, PhaseCode(p), 0, 0])
  }

  function Acked(s: State, command: byte, sequence: word, payload: Payload): Did
    requires command < 0x80
  {
    Reply(s, Ack(command, sequence, payload))
  }

  function Refused(s: State, command: byte, sequence: word, error: half): Did {
    Reply(s, Nack(s.phase, command, sequence, error))
  }

  // ---- loading a model ----

  /** range_inside */
  predicate RangeInside(base: word, len: word, lo: word, hi: word) {
    len != 0 && lo <= base < hi && len <= Sub32(hi, base)
  }

  function Triple(a: word, b: word, c: word): (p: Payload)
    ensures |p| == 12
  {
    Le32(a) + Le32(b) + Le32(c)
  }

  function LoadModelBegin(s: State, sequence: word, payload: Payload): Did {
    if |payload| != 8 then Refused(s, CMD_LOAD_MODEL_BEGIN, sequence, ERR_PAYLOAD_FORMAT)
    else
      var total, crc := Rd32(payload, 0), Rd32(payload, 4);
      if total == 0 || total > STAGING_SIZE then Refused(s, CMD_LOAD_MODEL_BEGIN, sequence, ERR_RANGE)
      else
        Acked(s.(model := Model(total, crc, 0, 0), lastChunk := None, phase := Loading),
              CMD_LOAD_MODEL_BEGIN, sequence, Triple(total, STAGING_BASE, STAGING_SIZE))
  }

  /** The two range checks on a chunk: inside the announced length, and inside the staging window. */
  predicate ChunkFits(total: word, offset: word, n: word) {
    RangeInside(offset, n, 0, total)
    && RangeInside(Add32(STAGING_BASE, offset), n, STAGING_BASE, Add32(STAGING_BASE, STAGING_SIZE))
  }

  lemma ChunkFitsIffInside(total: word, offset: word, n: word)
    requires total <= STAGING_SIZE
    ensures ChunkFits(total, offset, n) <==> n > 0 && offset + n <= total
  {
  }

  /** A chunk with the sequence of the last one: the same again is acknowledged, another is refused. */
  function RepeatedChunk(s: State, chunk: Chunk): Did {
    if s.lastChunk == Some(chunk) then
      Acked(s, CMD_LOAD_MODEL_CHUNK, chunk.sequence, Triple(chunk.offset, chunk.length, s.model.staged))
    else
      Refused(s.(counters := s.counters.(sequenceError := Add32(s.counters.sequenceError, 1))),
              CMD_LOAD_MODEL_CHUNK, chunk.sequence, ERR_CHUNK_MISMATCH)
  }

  /** Any other chunk is staged if it fits. */
  function NewChunk(s: State, chunk: Chunk, data: seq<byte>): Did
    requires s.model.total <= STAGING_SIZE && chunk.length == |data|
  {
    if !ChunkFits(s.model.total, chunk.offset, |data|) then Refused(s, CMD_LOAD_MODEL_CHUNK, chunk.sequence, ERR_RANGE)
    else
      ChunkFitsIffInside(s.model.total, chunk.offset, |data|);
      var staged := Add32(s.model.staged, |data|);
      Acked(s.(mem := Store(s.mem, STAGING_BASE + chunk.offset, data), model := s.model.(staged := staged),
               lastChunk := Some(chunk)),
            CMD_LOAD_MODEL_CHUNK, chunk.sequence, Triple(chunk.offset, |data|, staged))
  }

  function LoadModelChunk(s: State, sequence: word, payload: Payload): Did
    requires s.model.total <= STAGING_SIZE
  {
    if |payload| <= 4 then Refused(s, CMD_LOAD_MODEL_CHUNK, sequence, ERR_PAYLOAD_FORMAT)
    else
      var data := payload[4..];
      var chunk := Chunk(sequence, Rd32(payload, 0), |data|, Crc(data));
      if s.lastChunk.Some? && sequence == s.lastChunk.value.sequence then RepeatedChunk(s, chunk)
      else NewChunk(s, chunk, data)
  }

  function StagedModel(s: State): seq<byte>
    requires s.model.total <= STAGING_SIZE
  {
    Load(s.mem, STAGING_BASE, s.model.total)
  }

  function LoadModelEnd(s: State, sequence: word): Did
    requires s.model.total <= STAGING_SIZE
  {
    var computed := Crc(StagedModel(s));
    var t := s.(model := s.model.(computedCrc := computed));
    if computed != s.model.expectedCrc then Refused(t, CMD_LOAD_MODEL_END, sequence, ERR_MODEL_CRC)
    else Acked(t.(phase := ModelReady), CMD_LOAD_MODEL_END, sequence,
               Triple(computed, s.model.expectedCrc, s.model.total))
  }

  function LoadInput(s: State, sequence: word, payload: Payload): Did {
    Acked(s.(inputLength := |payload|, phase := InputReady), CMD_LOAD_INPUT, sequence, Le32(|payload|))
  }

  // ---- RUN ----

  /**
   Everything a run meets that the firmware does not decide: the vendor's return code, what its test does to memory
   given the length of the staged model, what the hardware reads, and the bytes anything tries to transmit meanwhile.
   */
  datatype RunEnv = RunEnv(rc: word, effect: (Space, word) -> Space, readings: Readings, windowPuts: word)

  function WithPoison(s: State): Space { Store(s.mem, POISON_BASE, PoisonBytes(Add32(s.runCounter, 1))) }

  /** The vendor's test must leave the staged model as it found it. */
  predicate KeepsModel(s: State, e: RunEnv) {
    s.model.total <= STAGING_SIZE ==>
      Agree(e.effect(WithPoison(s), s.model.total), WithPoison(s), STAGING_BASE, s.model.total)
  }

  predicate CanRun(s: State, e: RunEnv) {
    |e.readings.raw| == 36 && s.config.eventCount <= SLOTS && KeepsModel(s, e)
  }

  function MemoryAfter(s: State, e: RunEnv): Space { e.effect(WithPoison(s), s.model.total) }

  function Region(m: Space): (r: seq<byte>)
    ensures |r| == POISON_SIZE
  {
    Load(m, POISON_BASE, POISON_SIZE)
  }

  function RunFlags(rc: word, changed: bool, coarse: bool, expected: bool): word {
    1 + (if rc == 0 then 2 else 0) + (if changed then 4 else 0) + (if coarse then 8 else 0)
    + (if expected then 16 else 0)
  }

  predicate Coarse(h: Readings) { h.timestampsLive && Sub32(h.tsClose, h.tsOpen) != 0 }

  function RunOutcome(s: State, e: RunEnv): Outcome
    requires CanRun(s, e)
  {
    var n, m := Add32(s.runCounter, 1), MemoryAfter(s, e);
    var poisonCrc, outputCrc, regionCrc := Crc(PoisonBytes(n)), Crc(Region(m)), Crc(Load(m, NOINIT_BASE, NOINIT_SIZE));
    Outcome(e.rc, n, RunFlags(e.rc, outputCrc != poisonCrc, Coarse(e.readings), regionCrc == EXPECTED_CRC),
            poisonCrc, outputCrc, regionCrc)
  }

  function LatchOf(o: Outcome): Latch {
    Latch(o.rc, true, o.runSequence, o.runSequence, o.flags, o.poisonCrc, o.outputCrc, o.regionCrc)
  }

  function RunAck(sequence: word): Frame { Ack(CMD_RUN, sequence, Le32(0)) }

  function RunCompleteFrame(sequence: word, o: Outcome, r: Record): Frame
    requires |r.basic| == KNOWN_FIELDS
  {
    Frame(RUNNER_VERSION, CMD_RUN_COMPLETE, 0, sequence, RunComplete(o.runSequence, o.flags, o.rc, r))
  }

  function RecordOf(s: State, e: RunEnv): (r: Record)
    requires CanRun(s, e)
    ensures |r.basic| == KNOWN_FIELDS
  {
    BuildRecord(s.config, s.probe, e.readings, Add32(s.windowBytes, e.windowPuts), RunOutcome(s, e))
  }

  /** A run up to the close of its window: acknowledged, executed, and with every attempt to transmit counted. */
  function Executed(s: State, sequence: word, e: RunEnv): State
    requires CanRun(s, e)
  {
    Transmitted(s, RunAck(sequence)).(mem := MemoryAfter(s, e), runCounter := Add32(s.runCounter, 1),
                                      windowBytes := Add32(s.windowBytes, e.windowPuts))
  }

  /** The latches written at the end of a run. */
  function Concluded(s: State, o: Outcome, r: Record, overrun: bool): State {
    s.(latch := LatchOf(o), measured := Some(r), phase := ResultReady,
       counters := s.counters.(rxOverrun := Add32(s.counters.rxOverrun, if overrun then 1 else 0)))
  }

  function Run(s: State, sequence: word, e: RunEnv): Did
    requires CanRun(s, e)
  {
    var o, r := RunOutcome(s, e), RecordOf(s, e);
    var f := RunCompleteFrame(sequence, o, r);
    Did(Transmitted(Concluded(Executed(s, sequence, e), o, r, e.readings.raw[7] != 0), f), [RunAck(sequence), f])
  }

  // ---- results and measurements ----

  /** The five freshness conditions, in the code's order. */
  predicate Fresh(l: Latch, requested: word) {
    l.completed && requested == l.completedSequence && l.rc == 0
    && And(l.flags, RUN_VALID_REQUIRED_MASK) == RUN_VALID_REQUIRED_MASK && l.outputCrc != l.poisonCrc
  }

  predicate InNoinit(base: word, len: word) { RangeInside(base, len, NOINIT_BASE, NOINIT_END) }

  function ResultPayload(rc: word, base: word, len: word, crc: word): (p: Payload)
    ensures |p| == 16
  {
    Le32(rc) + Le32(base) + Le32(len) + Le32(crc)
  }

  function GetResult(s: State, sequence: word, payload: Payload): Did {
    if |payload| != 12 then Refused(s, CMD_GET_RESULT, sequence, ERR_LENGTH)
    else if !Fresh(s.latch, Rd32(payload, 8)) then Refused(s, CMD_GET_RESULT, sequence, ERR_RESULT_NOT_VALID)
    else
      var base, len := Rd32(payload, 0), Rd32(payload, 4);
      if !InNoinit(base, len) then Refused(s, CMD_GET_RESULT, sequence, ERR_RANGE)
      else Acked(s, CMD_GET_RESULT, sequence, ResultPayload(s.latch.rc, base, len, Crc(Load(s.mem, base, len))))
  }

  function GetMeasurement(s: State, sequence: word): Did
    requires s.measured.Some? ==> |s.measured.value.basic| == KNOWN_FIELDS
  {
    if s.measured.None? then Refused(s, CMD_GET_MEASUREMENT, sequence, ERR_NO_MEASUREMENT)
    else Acked(s, CMD_GET_MEASUREMENT, sequence, Words(RecordWords(s.measured.value)))
  }

  function Status(s: State): (p: Payload)
    ensures |p| == 40
  {
    var c := s.counters;
    [PhaseCode(s.phase), RUNNER_VERSION] + Le16(0)
    + Words([c.rxBytes, c.txBytes, c.rxOverrun, c.badMagic, c.badVersion, c.badCrc, c.lengthError,
             c.sequenceError, c.resync])
  }

  // ---- configuration ----

  function SetMode(s: State, sequence: word, payload: Payload, hw: Probe): Did {
    if |payload| != 44 then Refused(s, CMD_SET_MODE, sequence, ERR_LENGTH)
    else
      var mode, count := Rd32(payload, 0), Rd32(payload, 8);
      if mode != INSTRUMENTATION_OFF && mode != INSTRUMENTATION_END_ONLY && mode != INSTRUMENTATION_EVENTS then
        Refused(s, CMD_SET_MODE, sequence, ERR_UNSUPPORTED)
      else
        var t := if s.probe.performed then s else s.(probe := hw);
        if count > SLOTS || count > EffectiveSlots(t.probe) then Refused(t, CMD_SET_MODE, sequence, ERR_RANGE)
        else if count != 0 && mode != INSTRUMENTATION_EVENTS then Refused(t, CMD_SET_MODE, sequence, ERR_UNSUPPORTED)
        else
          var c := Config(mode, Rd32(payload, 4), count, KeptCodes(ReadWords(payload, 12, SLOTS), count),
                          Add32(s.config.configurationSequence, 1));
          Acked(t.(config := c), CMD_SET_MODE, sequence,
                Le32(mode) + Le32(c.mode) + Le32(c.eventCount) + Le32(c.configurationSequence))
  }

  /** Codes beyond the count are zeroed. */
  function KeptCodes(codes: Slots, count: word): (r: Slots)
    ensures forall i :: 0 <= i < SLOTS ==> r[i] == if i < count then codes[i] else 0
  {
    var r := seq(SLOTS, i requires 0 <= i < SLOTS => if i < count then codes[i] else 0);
    assert forall i :: 0 <= i < |r| ==> 0 <= r[i] < U32;
    r
  }

  /** RESET keeps the run counter, the configuration's sequence and event set, the counters and the last record. */
  function Reset(s: State, sequence: word): Did {
    var c := s.config.(mode := INSTRUMENTATION_OFF, eventCount := 0, eventCodes := NO_EVENTS);
    Acked(s.(config := c, model := NO_MODEL, inputLength := 0, latch := NO_RESULT, lastChunk := None, phase := Idle),
          CMD_RESET, sequence, [])
  }

  // ---- one received frame ----

  /** What the parser makes of the bytes it has consumed. */
  datatype Heard = WrongVersion(command: byte, sequence: word) | TooLong(command: byte, sequence: word)
                 | Corrupt(command: byte, sequence: word) | Request(command: byte, sequence: word, payload: Payload)

  /** What the hardware answers while a command is handled. */
  datatype Env = Env(caps: Payload, hw: Probe, run: RunEnv)

  predicate ValidEnv(e: Env) { e.hw.performed }

  /** One turn of the main loop: the bytes it took, the resynchronisations among them, and what they said. */
  datatype Event = Event(consumed: nat, resyncs: nat, heard: Heard, env: Env)

  predicate WellKept(s: State) {
    s.model.total <= STAGING_SIZE && s.config.eventCount <= SLOTS
    && (s.measured.Some? ==> |s.measured.value.basic| == KNOWN_FIELDS)
  }

  function Dispatch(s: State, command: byte, sequence: word, payload: Payload, env: Env): Did
    requires WellKept(s) && Accepts(s.phase, command) && (command == CMD_RUN ==> CanRun(s, env.run))
  {
    if command == CMD_PING || command == CMD_GET_STATE then Acked(s, command, sequence, Status(s))
    else if command == CMD_GET_CAPABILITIES then Acked(s.(probe := env.hw), command, sequence, env.caps)
    else if command == CMD_GET_MEASUREMENT then GetMeasurement(s, sequence)
    else if command == CMD_LOAD_MODEL_BEGIN then LoadModelBegin(s, sequence, payload)
    else if command == CMD_LOAD_MODEL_CHUNK then LoadModelChunk(s, sequence, payload)
    else if command == CMD_LOAD_MODEL_END then LoadModelEnd(s, sequence)
    else if command == CMD_LOAD_INPUT then LoadInput(s, sequence, payload)
    else if command == CMD_RUN then Run(s, sequence, env.run)
    else if command == CMD_GET_RESULT then GetResult(s, sequence, payload)
    else if command == CMD_RESET then Reset(s, sequence)
    else SetMode(s, sequence, payload, env.hw)
  }

  function Received(s: State, consumed: nat, resyncs: nat): State {
    s.(counters := s.counters.(rxBytes := Add32(s.counters.rxBytes, consumed % U32),
                               badMagic := Add32(s.counters.badMagic, resyncs % U32),
                               resync := Add32(s.counters.resync, resyncs % U32)))
  }

  /** The hardware has been probed where that matters, and an accepted RUN leaves the staged model as it was. */
  predicate Possible(s: State, e: Event) {
    WellKept(s) && ValidEnv(e.env)
    && (IsRun(s, e) ==> CanRun(s, e.env.run))
  }

  predicate IsRun(s: State, e: Event) {
    e.heard.Request? && e.heard.command == CMD_RUN && Accepts(s.phase, CMD_RUN)
  }

  function Handle(s: State, h: Heard, env: Env): Did
    requires WellKept(s)
    requires h.Request? && h.command == CMD_RUN && Accepts(s.phase, CMD_RUN) ==> CanRun(s, env.run)
  {
    match h
    case WrongVersion(command, sequence) =>
      Refused(s.(counters := s.counters.(badVersion := Add32(s.counters.badVersion, 1))), command, sequence,
              ERR_BAD_VERSION)
    case TooLong(command, sequence) =>
      Refused(s.(counters := s.counters.(lengthError := Add32(s.counters.lengthError, 1))), command, sequence,
              ERR_LENGTH)
    case Corrupt(command, sequence) =>
      Refused(s.(counters := s.counters.(badCrc := Add32(s.counters.badCrc, 1))), command, sequence, ERR_BAD_CRC)
    case Request(command, sequence, payload) =>
      if !Known(command) then Refused(s, command, sequence, ERR_BAD_COMMAND)
      else if !Accepts(s.phase, command) then Refused(s, command, sequence, ERR_STATE)
      else Dispatch(s, command, sequence, payload, env)
  }

  function Step(s: State, e: Event): Did
    requires Possible(s, e)
  {
    Handle(Received(s, e.consumed, e.resyncs), e.heard, e.env)
  }
}
