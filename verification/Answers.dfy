/**
 How the firmware answers every frame it hears: which error refuses it, what a refusal leaves alone, how phases go on.
 */
module Answers {
  import opened Bytes
  import opened Crc32
  import opened Frames
  import opened Measurement
  import opened Memory
  import opened RunRecord
  import opened Runner
  import opened RunHistory

  // ---- which command in which phase ----

  /** The phases a command belongs to. */
  function PhasesOf(c: byte): set<Phase> {
    if c == 0x01 || c == 0x02 || c == 0x03 || c == 0x04 then {Idle, Loading, ModelReady, InputReady, ResultReady}
    else if c == 0x05 then {Idle, InputReady, ResultReady}
    else if c == 0x10 then {Idle, ModelReady, InputReady}
    else if c == 0x11 || c == 0x12 then {Loading}
    else if c == 0x20 then {ModelReady, InputReady, ResultReady}
    else if c == 0x30 then {InputReady, ResultReady}
    else if c == 0x40 then {ResultReady}
    else if c == 0x50 then {Idle, Loading, ModelReady, InputReady, ResultReady}
    else {}
  }

  lemma TableByCommand(p: Phase, c: byte)
    ensures Known(c) <==> PhasesOf(c) != {}
    ensures Known(c) && Accepts(p, c) <==> p in PhasesOf(c)
  {
    assert Idle in {Idle, Loading, ModelReady, InputReady, ResultReady};
    assert ResultReady in {ResultReady} && Loading in {Loading} && InputReady in {InputReady, ResultReady};
  }

  /** The host's names for the phases, by the code a NACK and the status carry. */
  function HostPhase(code: byte): Option<Phase> {
    if code == 0 then Some(Boot) else if code == 1 then Some(Idle) else if code == 2 then Some(Loading)
    else if code == 3 then Some(ModelReady) else if code == 4 then Some(InputReady)
    else if code == 5 then Some(Running) else if code == 6 then Some(ResultReady) else None
  }

  lemma PhaseComesBack(p: Phase)
    ensures HostPhase(PhaseCode(p)) == Some(p)
  {
  }

  // ---- which error ----

  /** The chunk is under the number of the last one, which is how a retransmission is told. */
  predicate Repeats(s: State, sequence: word) { s.lastChunk.Some? && s.lastChunk.value.sequence == sequence }

  /** Same place, same length, same checksum. */
  predicate SameChunk(s: State, p: Payload)
    requires s.lastChunk.Some? && |p| >= 4
  {
    var c := s.lastChunk.value;
    c.offset == Rd32(p, 0) && c.length == |p| - 4 && c.crc == Crc(p[4..])
  }

  /** The hardware as a SET_MODE finds it: probed before, or probed now. */
  function Probed(s: State, hw: Probe): Probe { if s.probe.performed then s.probe else hw }

  function BeginError(p: Payload): half {
    if |p| != 8 then 9 else if 1 <= Rd32(p, 0) <= STAGING_SIZE then 0 else 6
  }

  function ChunkError(s: State, sequence: word, p: Payload): half {
    if |p| <= 4 then 9
    else if Repeats(s, sequence) then if SameChunk(s, p) then 0 else 7
    else if Rd32(p, 0) + |p| - 4 <= s.model.total then 0 else 6
  }

  function EndError(s: State): half
    requires s.model.total <= STAGING_SIZE
  {
    if Crc(s.mem[STAGING_BASE..STAGING_BASE + s.model.total]) == s.model.expectedCrc then 0 else 8
  }

  function ResultError(s: State, p: Payload): half {
    if |p| != 12 then 3
    else if !Fresh(s.latch, Rd32(p, 8)) then 11
    else if 1 <= Rd32(p, 4) && NOINIT_BASE <= Rd32(p, 0) && Rd32(p, 0) + Rd32(p, 4) <= NOINIT_END then 0 else 6
  }

  function ModeError(s: State, p: Payload, hw: Probe): half {
    if |p| != 44 then 3
    else
      var mode, count := Rd32(p, 0), Rd32(p, 8);
      if mode > 2 then 12
      else if count > 8 || count > Probed(s, hw).hwEventCounters then 6
      else if count != 0 && mode != 2 then 12
      else 0
  }

  /** The error a request that its phase accepts is refused with, 0 when it is acknowledged. */
  function RequestError(s: State, c: byte, sequence: word, p: Payload, hw: Probe): half
    requires s.model.total <= STAGING_SIZE
  {
    if c == 0x04 then if s.measured.None? then 10 else 0
    else if c == 0x05 then ModeError(s, p, hw)
    else if c == 0x10 then BeginError(p)
    else if c == 0x11 then ChunkError(s, sequence, p)
    else if c == 0x12 then EndError(s)
    else if c == 0x40 then ResultError(s, p)
    else 0
  }

  /** The error anything heard is refused with, 0 when it is acknowledged. */
  function ErrorOf(s: State, h: Heard, hw: Probe): half
    requires s.model.total <= STAGING_SIZE
  {
    match h
    case WrongVersion(_, _) => 1
    case TooLong(_, _) => 3
    case Corrupt(_, _) => 4
    case Request(c, sequence, p) =>
      if PhasesOf(c) == {} then 2
      else if s.phase !in PhasesOf(c) then 5
      else RequestError(s, c, sequence, p, hw)
  }

  // ---- the answer ----

  /** A NACK as the host reads it: the error, the command and the phase. */
  predicate IsRefusal(out: seq<Frame>, error: half, command: byte, sequence: word, p: Phase) {
    out == [Frame(1, 0xFF, error, sequence, [command, PhaseCode(p), 0, 0])]
  }

  /** Refusing changes counters, and at most what was looked up on the way: the probe, and a model's computed CRC. */
  predicate Untouched(s: State, t: State) {
    t == s.(counters := t.counters, probe := t.probe, model := s.model.(computedCrc := t.model.computedCrc))
  }

  /** One acknowledgement; a RUN's is followed by its RUN_COMPLETE. */
  predicate IsAcceptance(out: seq<Frame>, c: byte, sequence: word)
    requires c < 0x80
  {
    && |out| == (if c == 0x30 then 2 else 1)
    && out[0].version == 1 && out[0].command == c + 0x80 && out[0].flags == 0 && out[0].sequence == sequence
    && (c == 0x30 ==> out[1].version == 1 && out[1].command == 0x31 && out[1].flags == 0
                      && out[1].sequence == sequence)
  }

  /** Refused with this error and nothing changed, or acknowledged. */
  predicate AnsweredBy(s: State, d: Did, error: half, c: byte, sequence: word) {
    if error != 0 then IsRefusal(d.out, error, c, sequence, s.phase) && Untouched(s, d.s)
    else c < 0x80 && IsAcceptance(d.out, c, sequence)
  }

  lemma BeginAnswer(s: State, sequence: word, p: Payload)
    ensures AnsweredBy(s, LoadModelBegin(s, sequence, p), BeginError(p), 0x10, sequence)
  {
  }

  lemma ChunkAnswer(s: State, sequence: word, p: Payload)
    requires s.model.total <= STAGING_SIZE
    ensures AnsweredBy(s, LoadModelChunk(s, sequence, p), ChunkError(s, sequence, p), 0x11, sequence)
  {
    if |p| > 4 {
      ChunkFitsIffInside(s.model.total, Rd32(p, 0), |p| - 4);
      assert |p[4..]| == |p| - 4;
    }
  }

  lemma EndAnswer(s: State, sequence: word)
    requires s.model.total <= STAGING_SIZE
    ensures AnsweredBy(s, LoadModelEnd(s, sequence), EndError(s), 0x12, sequence)
  {
  }

  lemma RangeInNoinit(base: word, len: word)
    ensures InNoinit(base, len) <==> 1 <= len && NOINIT_BASE <= base && base + len <= NOINIT_END
  {
  }

  lemma ResultAnswer(s: State, sequence: word, p: Payload)
    ensures AnsweredBy(s, GetResult(s, sequence, p), ResultError(s, p), 0x40, sequence)
  {
    if |p| == 12 {
      var base, len := Rd32(p, 0), Rd32(p, 4);
      RangeInNoinit(base, len);
    }
  }

  lemma ModeAnswer(s: State, sequence: word, p: Payload, hw: Probe)
    ensures AnsweredBy(s, SetMode(s, sequence, p, hw), ModeError(s, p, hw), 0x05, sequence)
  {
  }

  lemma OtherAnswer(s: State, c: byte, sequence: word, p: Payload, env: Env)
    requires WellKept(s) && s.phase in PhasesOf(c) && Accepts(s.phase, c)
    requires c != 0x05 && c != 0x10 && c != 0x11 && c != 0x12 && c != 0x40 && c != 0x30
    ensures AnsweredBy(s, Dispatch(s, c, sequence, p, env), RequestError(s, c, sequence, p, env.hw), c, sequence)
  {
  }

  lemma RunAnswer(s: State, sequence: word, e: RunEnv)
    requires CanRun(s, e)
    ensures AnsweredBy(s, Run(s, sequence, e), 0, 0x30, sequence)
  {
  }

  lemma RequestAnswer(s: State, c: byte, sequence: word, p: Payload, env: Env)
    requires WellKept(s) && s.phase in PhasesOf(c) && Accepts(s.phase, c) && (c == CMD_RUN ==> CanRun(s, env.run))
    ensures AnsweredBy(s, Dispatch(s, c, sequence, p, env), RequestError(s, c, sequence, p, env.hw), c, sequence)
  {
    if c == 0x05 {
      ModeAnswer(s, sequence, p, env.hw);
    } else if c == 0x10 {
      BeginAnswer(s, sequence, p);
    } else if c == 0x11 {
      ChunkAnswer(s, sequence, p);
    } else if c == 0x12 {
      EndAnswer(s, sequence);
    } else if c == 0x40 {
      ResultAnswer(s, sequence, p);
    } else if c == 0x30 {
      RunAnswer(s, sequence, env.run);
    } else {
      OtherAnswer(s, c, sequence, p, env);
    }
  }

  lemma HeardAnswer(s: State, h: Heard, env: Env)
    requires WellKept(s) && (h.Request? && h.command == CMD_RUN && Accepts(s.phase, CMD_RUN) ==> CanRun(s, env.run))
    ensures AnsweredBy(s, Handle(s, h, env), ErrorOf(s, h, env.hw), h.command, h.sequence)
  {
    TableByCommand(s.phase, h.command);
    if h.Request? && s.phase in PhasesOf(h.command) {
      RequestAnswer(s, h.command, h.sequence, h.payload, env);
    }
  }

  /** Receiving bytes changes no error. */
  lemma SameError(s: State, consumed: nat, resyncs: nat, h: Heard, hw: Probe)
    requires s.model.total <= STAGING_SIZE
    ensures ErrorOf(Received(s, consumed, resyncs), h, hw) == ErrorOf(s, h, hw)
  {
  }

  lemma UntouchedBefore(s: State, r: State, t: State)
    requires r == s.(counters := r.counters) && Untouched(r, t)
    ensures Untouched(s, t)
  {
  }

  /**
   Whatever is heard, in whatever state, the answer is decided: a refusal with exactly the error the tables give, which
   leaves everything but counters and what was looked up as it was, or the acknowledgement of that command.
   */
  lemma AnswerIsExact(s: State, e: Event)
    requires Possible(s, e)
    ensures AnsweredBy(s, Step(s, e), ErrorOf(s, e.heard, e.env.hw), e.heard.command, e.heard.sequence)
  {
    var r := Received(s, e.consumed, e.resyncs);
    ReceivingCounts(s, e);
    SameError(s, e.consumed, e.resyncs, e.heard, e.env.hw);
    HeardAnswer(r, e.heard, e.env);
    if ErrorOf(s, e.heard, e.env.hw) != 0 {
      UntouchedBefore(s, r, Step(s, e).s);
    }
  }

  // ---- what an acknowledgement says ----

  /** The words the host unpacks from the acknowledgement of an upload's requests, `t` being the state it leaves. */
  function AckWords(t: State, c: byte, p: Payload): seq<word>
    requires (c == 0x10 ==> |p| == 8) && (c == 0x11 ==> |p| > 4)
  {
    if c == 0x10 then [Rd32(p, 0), 0x9012_0000, 0x100_0000]
    else if c == 0x11 then [Rd32(p, 0), |p| - 4, t.model.staged]
    else if c == 0x12 then [t.model.computedCrc, t.model.expectedCrc, t.model.total]
    else [|p|]
  }

  lemma ThreeWords(a: word, b: word, c: word)
    ensures Triple(a, b, c) == Words([a, b, c])
  {
    assert [a, b, c][1..] == [b, c] && [b, c][1..] == [c] && [c][1..] == [];
    assert Words([c]) == Le32(c) && Words([b, c]) == Le32(b) + Le32(c);
    assert Le32(a) + (Le32(b) + Le32(c)) == Le32(a) + Le32(b) + Le32(c);
  }

  lemma OneWord(a: word)
    ensures Le32(a) == Words([a])
  {
    assert [a][1..] == [];
  }

  lemma BeginSays(s: State, sequence: word, p: Payload)
    requires BeginError(p) == 0
    ensures var d := LoadModelBegin(s, sequence, p);
      d.out == [Frame(1, 0x90, 0, sequence, Words(AckWords(d.s, 0x10, p)))]
  {
    ThreeWords(Rd32(p, 0), 0x9012_0000, 0x100_0000);
  }

  lemma RepeatSays(s: State, chunk: Chunk)
    requires s.lastChunk == Some(chunk)
    ensures var d := RepeatedChunk(s, chunk);
      && d.out == [Frame(1, 0x91, 0, chunk.sequence, Words([chunk.offset, chunk.length, s.model.staged]))]
      && d.s.model == s.model
  {
    ThreeWords(chunk.offset, chunk.length, s.model.staged);
  }

  lemma NewSays(s: State, chunk: Chunk, data: seq<byte>)
    requires s.model.total <= STAGING_SIZE && chunk.length == |data| && 1 <= |data|
    requires chunk.offset + |data| <= s.model.total
    ensures var d, staged := NewChunk(s, chunk, data), (s.model.staged + |data|) % U32;
      && d.out == [Frame(1, 0x91, 0, chunk.sequence, Words([chunk.offset, |data|, staged]))]
      && d.s.model.staged == staged
  {
    ChunkFitsIffInside(s.model.total, chunk.offset, |data|);
    ThreeWords(chunk.offset, |data|, (s.model.staged + |data|) % U32);
  }

  /** Bytes staged are counted once, however often a chunk is sent. */
  lemma ChunkSays(s: State, sequence: word, p: Payload)
    requires s.model.total <= STAGING_SIZE && ChunkError(s, sequence, p) == 0
    ensures var d := LoadModelChunk(s, sequence, p);
      && d.out == [Frame(1, 0x91, 0, sequence, Words(AckWords(d.s, 0x11, p)))]
      && d.s.model.staged == (if Repeats(s, sequence) then s.model.staged else (s.model.staged + |p| - 4) % U32)
  {
    var data := p[4..];
    var chunk := Chunk(sequence, Rd32(p, 0), |data|, Crc(data));
    if Repeats(s, sequence) {
      RepeatSays(s, chunk);
    } else {
      NewSays(s, chunk, data);
    }
  }

  lemma EndSays(s: State, sequence: word, p: Payload)
    requires s.model.total <= STAGING_SIZE && EndError(s) == 0
    ensures var d := LoadModelEnd(s, sequence);
      && d.out == [Frame(1, 0x92, 0, sequence, Words(AckWords(d.s, 0x12, p)))]
      && d.s.model.computedCrc == s.model.expectedCrc && d.s.model.total == s.model.total
  {
    var d := LoadModelEnd(s, sequence);
    ThreeWords(d.s.model.computedCrc, d.s.model.expectedCrc, d.s.model.total);
  }

  lemma InputSays(s: State, sequence: word, p: Payload)
    ensures var d := LoadInput(s, sequence, p);
      d.out == [Frame(1, 0xA0, 0, sequence, Words(AckWords(d.s, 0x20, p)))]
  {
    OneWord(|p|);
  }

  lemma UploadDispatched(s: State, c: byte, sequence: word, p: Payload, env: Env)
    requires WellKept(s) && Accepts(s.phase, c) && (c == 0x10 || c == 0x11 || c == 0x12 || c == 0x20)
    requires RequestError(s, c, sequence, p, env.hw) == 0
    ensures (c == 0x10 ==> |p| == 8) && (c == 0x11 ==> |p| > 4)
    ensures var d := Dispatch(s, c, sequence, p, env);
      d.out == [Frame(1, c + 0x80, 0, sequence, Words(AckWords(d.s, c, p)))]
  {
    if c == 0x10 {
      BeginSays(s, sequence, p);
    } else if c == 0x11 {
      ChunkSays(s, sequence, p);
    } else if c == 0x12 {
      EndSays(s, sequence, p);
    } else {
      InputSays(s, sequence, p);
    }
  }

  /**
   What an upload's acknowledgements say: the announced length and the staging window; the place, the length and the
   bytes staged so far; the computed and the announced CRC and the length; the length of the input.
   */
  lemma UploadAcksSay(s: State, e: Event)
    requires Possible(s, e) && e.heard.Request? && ErrorOf(s, e.heard, e.env.hw) == 0
    requires var c := e.heard.command; c == 0x10 || c == 0x11 || c == 0x12 || c == 0x20
    ensures var c, p := e.heard.command, e.heard.payload;
      && (c == 0x10 ==> |p| == 8) && (c == 0x11 ==> |p| > 4)
      && Step(s, e).out == [Frame(1, c + 0x80, 0, e.heard.sequence, Words(AckWords(Step(s, e).s, c, p)))]
  {
    TableByCommand(s.phase, e.heard.command);
    ReceivingCounts(s, e);
    SameError(s, e.consumed, e.resyncs, e.heard, e.env.hw);
    UploadDispatched(Received(s, e.consumed, e.resyncs), e.heard.command, e.heard.sequence, e.heard.payload, e.env);
  }

  // ---- how phases go on ----

  /** The phase an acknowledged command leads to. */
  function NextPhase(p: Phase, c: byte): Phase {
    if c == 0x10 then Loading
    else if c == 0x12 then ModelReady
    else if c == 0x20 then InputReady
    else if c == 0x30 then ResultReady
    else if c == 0x50 then Idle
    else p
  }

  lemma LoadingPhases(s: State, c: byte, sequence: word, p: Payload, env: Env)
    requires WellKept(s) && Accepts(s.phase, c) && (c == 0x10 || c == 0x11 || c == 0x12)
    requires RequestError(s, c, sequence, p, env.hw) == 0
    ensures Dispatch(s, c, sequence, p, env).s.phase == NextPhase(s.phase, c)
  {
    if c == 0x10 {
      BeginAnswer(s, sequence, p);
    } else if c == 0x11 {
      ChunkAnswer(s, sequence, p);
    } else {
      EndAnswer(s, sequence);
    }
  }

  lemma OtherPhases(s: State, c: byte, sequence: word, p: Payload, env: Env)
    requires WellKept(s) && Accepts(s.phase, c) && (c == CMD_RUN ==> CanRun(s, env.run))
    requires c != 0x10 && c != 0x11 && c != 0x12
    ensures var t := Dispatch(s, c, sequence, p, env).s; Known(c) ==> t.phase == NextPhase(s.phase, c)
  {
  }

  /** An acknowledged command leads to its phase, from every phase it is accepted in; a refused one stays. */
  lemma PhasesGoOn(s: State, e: Event)
    requires Possible(s, e)
    ensures Step(s, e).s.phase
         == if ErrorOf(s, e.heard, e.env.hw) == 0 then NextPhase(s.phase, e.heard.command) else s.phase
  {
    AnswerIsExact(s, e);
    var r := Received(s, e.consumed, e.resyncs);
    SameError(s, e.consumed, e.resyncs, e.heard, e.env.hw);
    if ErrorOf(s, e.heard, e.env.hw) == 0 {
      TableByCommand(s.phase, e.heard.command);
      if e.heard.command == 0x10 || e.heard.command == 0x11 || e.heard.command == 0x12 {
        LoadingPhases(r, e.heard.command, e.heard.sequence, e.heard.payload, e.env);
      } else {
        OtherPhases(r, e.heard.command, e.heard.sequence, e.heard.payload, e.env);
      }
    }
  }

  // ---- what only some commands change ----

  /** Only a RUN changes the record, the window's byte count and the run counter; only SET_MODE and RESET the config. */
  predicate KeepsSettings(s: State, t: State, c: byte) {
    && t.measured == s.measured && t.windowBytes == s.windowBytes && t.runCounter == s.runCounter
    && (c != 0x05 && c != 0x50 ==> t.config == s.config)
  }

  lemma LoadingSettings(s: State, c: byte, sequence: word, p: Payload, env: Env)
    requires WellKept(s) && Accepts(s.phase, c) && (c == 0x10 || c == 0x11 || c == 0x12)
    ensures KeepsSettings(s, Dispatch(s, c, sequence, p, env).s, c)
  {
  }

  lemma ModeSettings(s: State, sequence: word, p: Payload, hw: Probe)
    ensures KeepsSettings(s, SetMode(s, sequence, p, hw).s, 0x05)
  {
  }

  lemma ResultSettings(s: State, sequence: word, p: Payload)
    ensures KeepsSettings(s, GetResult(s, sequence, p).s, 0x40)
  {
  }

  lemma OtherSettings(s: State, c: byte, sequence: word, p: Payload, env: Env)
    requires WellKept(s) && Known(c) && Accepts(s.phase, c) && c != 0x30 && c != 0x10 && c != 0x11 && c != 0x12
    ensures KeepsSettings(s, Dispatch(s, c, sequence, p, env).s, c)
  {
    if c == 0x05 {
      ModeSettings(s, sequence, p, env.hw);
    } else if c == 0x40 {
      ResultSettings(s, sequence, p);
    }
  }

  lemma HandledSettings(s: State, h: Heard, env: Env)
    requires WellKept(s) && !(h.Request? && h.command == CMD_RUN && Accepts(s.phase, CMD_RUN))
    ensures KeepsSettings(s, Handle(s, h, env).s, if h.Request? then h.command else 0)
  {
    if h.Request? && Known(h.command) && Accepts(s.phase, h.command) {
      if h.command == 0x10 || h.command == 0x11 || h.command == 0x12 {
        LoadingSettings(s, h.command, h.sequence, h.payload, env);
      } else {
        OtherSettings(s, h.command, h.sequence, h.payload, env);
      }
    }
  }

  lemma SettingsBefore(s: State, r: State, t: State, c: byte)
    requires r == s.(counters := r.counters) && KeepsSettings(r, t, c)
    ensures KeepsSettings(s, t, c)
  {
  }

  /** What a step that is not an accepted RUN keeps. */
  lemma SettingsAreKept(s: State, e: Event)
    requires Possible(s, e) && !IsRun(s, e)
    ensures KeepsSettings(s, Step(s, e).s, if e.heard.Request? then e.heard.command else 0)
  {
    ReceivingCounts(s, e);
    var r := Received(s, e.consumed, e.resyncs);
    HandledSettings(r, e.heard, e.env);
    SettingsBefore(s, r, Step(s, e).s, if e.heard.Request? then e.heard.command else 0);
  }

  /** An accepted RUN keeps the configuration, and leaves its record. */
  lemma RunSettings(s: State, e: Event)
    requires Possible(s, e) && IsRun(s, e)
    ensures var t := Step(s, e).s;
      && t.config == s.config && t.measured == Some(RecordOf(s, e.env.run))
      && t.windowBytes == Add32(s.windowBytes, e.env.run.windowPuts)
  {
    ReceivingCounts(s, e);
    StepOfARun(s, e);
  }
}
