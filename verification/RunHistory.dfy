/**
 What holds over every sequence of commands from boot: verified models, numbered runs, and results that are never
 stale.
 */
module RunHistory {
  import opened Bytes
  import opened BitOps
  import opened Crc32
  import opened Frames
  import opened Measurement
  import opened HostRecord
  import opened RunRecord
  import opened Memory
  import opened Poison
  import opened Runner
  import opened Histories

  // ---- sequences of events ----

  /** What a RUN that was accepted came to. */
  datatype Ran = Ran(rc: word, coarse: bool, after: Space)

  function RanBy(s: State, e: Event): Ran
    requires Possible(s, e) && IsRun(s, e)
  {
    Ran(e.env.run.rc, Coarse(e.env.run.readings), MemoryAfter(s, e.env.run))
  }

  function RunsOf(s: State, e: Event): seq<Ran>
    requires Possible(s, e)
  {
    if IsRun(s, e) then [RanBy(s, e)] else []
  }

  /** The machine, its accepted RUNs being what it logs. */
  const RUNNER: Machine<State, Event, Ran> := Machine(
    (s, e) => Possible(s, e),
    (s, e) => if Possible(s, e) then Step(s, e).s else s,
    (s, e) => if Possible(s, e) then RunsOf(s, e) else [])

  /** The same machine, logging the frames it transmits. */
  const TALKING: Machine<State, Event, Frame> := Machine(
    (s, e) => Possible(s, e),
    (s, e) => if Possible(s, e) then Step(s, e).s else s,
    (s, e) => if Possible(s, e) then Step(s, e).out else [])

  // ---- the invariant ----

  predicate HasModel(p: Phase) { p == ModelReady || p == InputReady || p == ResultReady }

  /** The staged bytes still have the CRC given at LOAD_MODEL_BEGIN. */
  predicate Verified(s: State) {
    1 <= s.model.total <= STAGING_SIZE && Crc(StagedModel(s)) == s.model.expectedCrc
  }

  predicate Sound(s: State) {
    && WellKept(s) && s.phase != Boot && s.phase != Running
    && (s.phase == Loading ==> s.model.total >= 1)
    && (HasModel(s.phase) ==> Verified(s))
    && (Counting(s.config.mode) ==> s.probe.performed)
  }

  /** The environment alone decides whether an event is possible. */
  predicate EnvironmentAllows(s: State, e: Event) {
    ValidEnv(e.env) && (IsRun(s, e) ==> |e.env.run.readings.raw| == 36 && KeepsModel(s, e.env.run))
  }

  lemma SoundStatesGoOn(s: State, e: Event)
    requires Sound(s) && EnvironmentAllows(s, e)
    ensures Possible(s, e)
  {
  }

  function OutcomeOf(n: word, r: Ran): Outcome {
    var poisonCrc, outputCrc := Crc(PoisonBytes(n)), Crc(Region(r.after));
    var regionCrc := Crc(Load(r.after, NOINIT_BASE, NOINIT_SIZE));
    Outcome(r.rc, n, RunFlags(r.rc, outputCrc != poisonCrc, r.coarse, regionCrc == EXPECTED_CRC), poisonCrc, outputCrc,
            regionCrc)
  }

  /** A state that offers a result offers the last run's, and its memory is as that run left it. */
  predicate Offers(s: State, n: word, r: Ran) {
    s.mem == r.after && s.latch == LatchOf(OutcomeOf(n, r))
  }

  predicate Tracks(s: State, log: seq<Ran>) {
    && s.runCounter == |log| % U32
    && (s.phase == ResultReady ==> log != [] && Offers(s, s.runCounter, log[|log| - 1]))
  }

  lemma BootIsSound(mem: Space)
    ensures Sound(Booted(mem)) && Tracks(Booted(mem), [])
  {
  }

  // ---- one step ----

  lemma RunKeepsModel(s: State, e: RunEnv)
    requires CanRun(s, e) && s.model.total <= STAGING_SIZE
    ensures Agree(MemoryAfter(s, e), s.mem, STAGING_BASE, s.model.total)
  {
    LoadApart(s.mem, POISON_BASE, PoisonBytes(Add32(s.runCounter, 1)), STAGING_BASE, s.model.total);
  }

  lemma RunOutcomeIs(s: State, e: Event)
    requires Possible(s, e) && IsRun(s, e)
    ensures RunOutcome(s, e.env.run) == OutcomeOf(Add32(s.runCounter, 1), RanBy(s, e))
  {
  }

  lemma RunIsSound(s: State, sequence: word, e: RunEnv)
    requires Sound(s) && CanRun(s, e) && HasModel(s.phase)
    ensures var t := Run(s, sequence, e).s;
      && Sound(t) && t.phase == ResultReady && t.model == s.model && StagedModel(t) == StagedModel(s)
      && t.runCounter == Add32(s.runCounter, 1) && t.mem == MemoryAfter(s, e) && t.latch == LatchOf(RunOutcome(s, e))
  {
    RunKeepsModel(s, e);
  }

  lemma RunAccepted(p: Phase)
    ensures Accepts(p, CMD_RUN) ==> HasModel(p)
  {
  }

  /** Receiving bytes only counts. */
  lemma ReceivingCounts(s: State, e: Event)
    requires Possible(s, e)
    ensures var r := Received(s, e.consumed, e.resyncs);
      && r == s.(counters := r.counters) && (Sound(s) ==> Sound(r))
      && (IsRun(s, e) ==>
            && MemoryAfter(r, e.env.run) == MemoryAfter(s, e.env.run)
            && RunOutcome(r, e.env.run) == RunOutcome(s, e.env.run))
  {
  }

  lemma DispatchedRun(r: State, h: Heard, env: Env)
    requires WellKept(r) && h.Request? && h.command == CMD_RUN && Accepts(r.phase, CMD_RUN) && CanRun(r, env.run)
    ensures Handle(r, h, env) == Run(r, h.sequence, env.run)
  {
    assert Known(CMD_RUN) && !Always(CMD_RUN);
    assert Handle(r, h, env) == Dispatch(r, CMD_RUN, h.sequence, h.payload, env);
  }

  lemma StepOfARun(s: State, e: Event)
    requires Possible(s, e) && IsRun(s, e)
    ensures var r := Received(s, e.consumed, e.resyncs);
      r.runCounter == s.runCounter && CanRun(r, e.env.run) && Step(s, e) == Run(r, e.heard.sequence, e.env.run)
  {
    DispatchedRun(Received(s, e.consumed, e.resyncs), e.heard, e.env);
  }

  lemma StepOfRun(s: State, e: Event)
    requires Possible(s, e) && IsRun(s, e) && Sound(s)
    ensures var t := Step(s, e).s;
      && Sound(t) && t.phase == ResultReady && t.model == s.model && StagedModel(t) == StagedModel(s)
      && t.runCounter == Add32(s.runCounter, 1) && Offers(t, t.runCounter, RanBy(s, e))
  {
    ReceivingCounts(s, e);
    RunAccepted(s.phase);
    StepOfARun(s, e);
    RunIsSound(Received(s, e.consumed, e.resyncs), e.heard.sequence, e.env.run);
    RunOutcomeIs(s, e);
  }

  lemma ChunkKeeps(s: State, sequence: word, payload: Payload)
    requires Sound(s) && s.phase == Loading
    ensures var t := LoadModelChunk(s, sequence, payload).s;
      Sound(t) && t.phase == Loading && t.runCounter == s.runCounter && t.model.total == s.model.total
  {
    ChunkLoads(s, sequence, payload);
  }

  /** A chunk changes nothing but the staging, what is staged, and the record of the last chunk. */
  lemma ChunkLoads(s: State, sequence: word, payload: Payload)
    requires s.phase == Loading && s.model.total <= STAGING_SIZE
    ensures var t := LoadModelChunk(s, sequence, payload).s;
      && t == s.(mem := t.mem, model := t.model, lastChunk := t.lastChunk, counters := t.counters)
      && t.model.total == s.model.total
  {
  }

  lemma EndKeeps(s: State, sequence: word)
    requires Sound(s) && s.phase == Loading
    ensures var t := LoadModelEnd(s, sequence).s;
      Sound(t) && t.phase != ResultReady && t.runCounter == s.runCounter && t.mem == s.mem
  {
  }

  /** The commands that neither load nor run leave memory, model and latch alone. */
  predicate Quiet(c: byte) {
    Always(c) || c == CMD_GET_RESULT || c == CMD_SET_MODE || c == CMD_LOAD_INPUT
  }

  /** What a command that is neither loading nor running does to a state. */
  predicate KeepsAll(s: State, t: State) {
    t.mem == s.mem && t.model == s.model && t.runCounter == s.runCounter && t.latch == s.latch
  }

  lemma KeptIsSound(s: State, t: State)
    requires Sound(s) && KeepsAll(s, t) && (t.phase == s.phase || (HasModel(s.phase) && t.phase == InputReady))
    requires t.config.eventCount <= SLOTS && (t.measured.Some? ==> |t.measured.value.basic| == KNOWN_FIELDS)
    requires Counting(t.config.mode) ==> t.probe.performed
    ensures Sound(t)
  {
  }

  lemma SetModeKeeps(s: State, sequence: word, payload: Payload, hw: Probe)
    requires Sound(s) && hw.performed
    ensures var t := SetMode(s, sequence, payload, hw).s;
      Sound(t) && KeepsAll(s, t) && t.phase == s.phase
  {
    var t := SetMode(s, sequence, payload, hw).s;
    KeptIsSound(s, t);
  }

  lemma ResultKeeps(s: State, sequence: word, payload: Payload)
    requires Sound(s)
    ensures var t := GetResult(s, sequence, payload).s;
      Sound(t) && KeepsAll(s, t) && t.phase == s.phase
  {
    KeptIsSound(s, GetResult(s, sequence, payload).s);
  }

  lemma MeasurementKeeps(s: State, sequence: word)
    requires Sound(s)
    ensures var t := GetMeasurement(s, sequence).s;
      Sound(t) && KeepsAll(s, t) && t.phase == s.phase
  {
    KeptIsSound(s, GetMeasurement(s, sequence).s);
  }

  lemma InputKeeps(s: State, sequence: word, payload: Payload)
    requires Sound(s) && HasModel(s.phase)
    ensures var t := LoadInput(s, sequence, payload).s;
      Sound(t) && KeepsAll(s, t) && t.phase == InputReady
  {
    KeptIsSound(s, LoadInput(s, sequence, payload).s);
  }

  lemma QuietKeeps(s: State, c: byte, sequence: word, payload: Payload, env: Env)
    requires Sound(s) && Accepts(s.phase, c) && Quiet(c) && env.hw.performed
    ensures var t := Dispatch(s, c, sequence, payload, env).s;
      && Sound(t) && KeepsAll(s, t)
      && (t.phase == s.phase || (c == CMD_LOAD_INPUT && t.phase == InputReady))
  {
    if c == CMD_SET_MODE {
      SetModeKeeps(s, sequence, payload, env.hw);
    } else if c == CMD_GET_RESULT {
      ResultKeeps(s, sequence, payload);
    } else if c == CMD_GET_MEASUREMENT {
      MeasurementKeeps(s, sequence);
    } else if c == CMD_LOAD_INPUT {
      InputKeeps(s, sequence, payload);
    } else {
      KeptIsSound(s, Dispatch(s, c, sequence, payload, env).s);
    }
  }

  lemma BeginKeeps(s: State, sequence: word, payload: Payload)
    requires Sound(s)
    ensures var t := LoadModelBegin(s, sequence, payload).s;
      && Sound(t) && t.mem == s.mem && t.runCounter == s.runCounter && t.latch == s.latch
      && (t.phase == Loading || t.phase == s.phase)
  {
  }

  lemma ResetKeeps(s: State, sequence: word)
    requires Sound(s)
    ensures var t := Reset(s, sequence).s;
      Sound(t) && t.mem == s.mem && t.runCounter == s.runCounter && t.phase == Idle
  {
  }

  lemma FreshStartKeeps(s: State, c: byte, sequence: word, payload: Payload, env: Env)
    requires Sound(s) && Accepts(s.phase, c) && (c == CMD_LOAD_MODEL_BEGIN || c == CMD_RESET)
    ensures var t := Dispatch(s, c, sequence, payload, env).s;
      && Sound(t) && t.mem == s.mem && t.runCounter == s.runCounter
      && (t.phase == ResultReady ==> t.latch == s.latch && s.phase == ResultReady)
  {
    if c == CMD_RESET {
      ResetKeeps(s, sequence);
    } else {
      BeginKeeps(s, sequence, payload);
    }
  }

  /** What a step that is not a RUN does. */
  predicate KeepsResult(s: State, t: State) {
    && Sound(t) && t.runCounter == s.runCounter
    && (t.phase == ResultReady ==> s.phase == ResultReady && t.mem == s.mem && t.latch == s.latch)
  }

  lemma RequestKeepsResult(r: State, c: byte, sequence: word, payload: Payload, env: Env)
    requires Sound(r) && Accepts(r.phase, c) && c != CMD_RUN && env.hw.performed
    ensures KeepsResult(r, Dispatch(r, c, sequence, payload, env).s)
  {
    if c == CMD_LOAD_MODEL_CHUNK {
      ChunkKeeps(r, sequence, payload);
    } else if c == CMD_LOAD_MODEL_END {
      EndKeeps(r, sequence);
    } else if Quiet(c) {
      QuietKeeps(r, c, sequence, payload, env);
    } else {
      FreshStartKeeps(r, c, sequence, payload, env);
    }
  }

  lemma RefusalKeepsResult(r: State, h: Heard, env: Env)
    requires Sound(r) && (h.Request? ==> !(Known(h.command) && Accepts(r.phase, h.command)))
    ensures KeepsResult(r, Handle(r, h, env).s)
  {
  }

  lemma KeepsBehindCounters(s: State, r: State, t: State)
    requires r == s.(counters := r.counters) && KeepsResult(r, t)
    ensures KeepsResult(s, t)
  {
  }

  /** A step that is not a RUN keeps the counter, and offers a result only if one was offered, unchanged. */
  lemma StepOfOther(s: State, e: Event)
    requires Possible(s, e) && !IsRun(s, e) && Sound(s)
    ensures KeepsResult(s, Step(s, e).s)
  {
    ReceivingCounts(s, e);
    var r, h := Received(s, e.consumed, e.resyncs), e.heard;
    if h.Request? && Known(h.command) && Accepts(s.phase, h.command) {
      RequestKeepsResult(r, h.command, h.sequence, h.payload, e.env);
    } else {
      RefusalKeepsResult(r, h, e.env);
    }
    KeepsBehindCounters(s, r, Step(s, e).s);
  }

  lemma Counted(n: nat, counter: word)
    requires counter == n % U32
    ensures Add32(counter, 1) == (n + 1) % U32
  {
  }

  lemma Appended<T>(log: seq<T>, r: T)
    ensures |log + [r]| == |log| + 1 && (log + [r])[|log + [r]| - 1] == r
  {
  }

  lemma TracksRun(s: State, t: State, log: seq<Ran>, r: Ran)
    requires Tracks(s, log) && t.runCounter == Add32(s.runCounter, 1) && Offers(t, t.runCounter, r)
    ensures Tracks(t, log + [r])
  {
    Counted(|log|, s.runCounter);
    Appended(log, r);
  }

  lemma TracksOther(s: State, t: State, log: seq<Ran>)
    requires Tracks(s, log) && t.runCounter == s.runCounter
    requires t.phase == ResultReady ==> s.phase == ResultReady && t.mem == s.mem && t.latch == s.latch
    ensures Tracks(t, log)
  {
  }

  lemma StepTracks(s: State, e: Event, log: seq<Ran>)
    requires Possible(s, e) && Sound(s) && Tracks(s, log)
    ensures Sound(Step(s, e).s) && Tracks(Step(s, e).s, log + RunsOf(s, e))
  {
    var t := Step(s, e).s;
    if IsRun(s, e) {
      StepOfRun(s, e);
      TracksRun(s, t, log, RanBy(s, e));
    } else {
      StepOfOther(s, e);
      TracksOther(s, t, log);
      assert log + [] == log;
    }
  }

  lemma StepIsSound(s: State, e: Event)
    requires Possible(s, e) && Sound(s)
    ensures Sound(Step(s, e).s)
  {
    if IsRun(s, e) {
      StepOfRun(s, e);
    } else {
      StepOfOther(s, e);
    }
  }

  predicate Inv(s: State, log: seq<Ran>) { Sound(s) && Tracks(s, log) }

  lemma InvIsKept()
    ensures Kept(RUNNER, Inv)
  {
    forall s: State, e: Event, log: seq<Ran> | Inv(s, log) && RUNNER.can(s, e)
      ensures Inv(RUNNER.step(s, e), log + RUNNER.logs(s, e))
    {
      StepTracks(s, e, log);
    }
  }

  /** Whatever commands arrive from boot on, the invariant holds, with the log of all accepted RUNs. */
  lemma EveryHistory(mem: Space, es: seq<Event>)
    requires Can(RUNNER, Booted(mem), es)
    ensures Inv(After(RUNNER, Booted(mem), es), Log(RUNNER, Booted(mem), es))
  {
    BootIsSound(mem);
    InvIsKept();
    KeptThroughout(RUNNER, Inv, Booted(mem), es, []);
    assert [] + Log(RUNNER, Booted(mem), es) == Log(RUNNER, Booted(mem), es);
  }

  // ---- freshness ----

  lemma LowNibble(f: word)
    ensures And(f, RUN_VALID_REQUIRED_MASK) == f % 16
  {
    AndLowOnes(f, 4);
    assert Pow2(4) == 16 && LowOnes(4) == 15;
  }

  lemma FullNibble(rc: word, changed: bool, coarse: bool, expected: bool)
    ensures RunFlags(rc, changed, coarse, expected) % 16 == 15 <==> rc == 0 && changed && coarse
  {
  }

  lemma AllRequired(rc: word, changed: bool, coarse: bool, expected: bool)
    ensures And(RunFlags(rc, changed, coarse, expected), RUN_VALID_REQUIRED_MASK) == RUN_VALID_REQUIRED_MASK
       <==> rc == 0 && changed && coarse
  {
    FullNibble(rc, changed, coarse, expected);
    var f := RunFlags(rc, changed, coarse, expected);
    LowNibble(f);
  }

  /** A run whose result may be served: it returned 0 in a window that took time, and its region is not its poison. */
  predicate Trustworthy(n: word, r: Ran) {
    r.rc == 0 && r.coarse && Crc(Region(r.after)) != Crc(PoisonBytes(n))
  }

  lemma FreshIffTrustworthy(n: word, r: Ran, requested: word)
    ensures Fresh(LatchOf(OutcomeOf(n, r)), requested) <==> requested == n && Trustworthy(n, r)
  {
    var o := OutcomeOf(n, r);
    AllRequired(r.rc, o.outputCrc != o.poisonCrc, r.coarse, o.regionCrc == EXPECTED_CRC);
  }

  predicate Served(d: Did) { |d.out| == 1 && d.out[0].command == CMD_GET_RESULT + 0x80 }

  /** The request names the last run, and a range of .sec_noinit. */
  predicate Asks(payload: Payload, n: nat) {
    |payload| == 12 && Rd32(payload, 8) == n && InNoinit(Rd32(payload, 0), Rd32(payload, 4))
  }

  function ResultOf(sequence: word, payload: Payload, r: Ran): Frame
    requires |payload| == 12 && InNoinit(Rd32(payload, 0), Rd32(payload, 4))
  {
    var base, len := Rd32(payload, 0), Rd32(payload, 4);
    Ack(CMD_GET_RESULT, sequence, ResultPayload(0, base, len, Crc(Load(r.after, base, len))))
  }

  lemma OfferedResult(s: State, n: word, r: Ran, sequence: word, payload: Payload)
    requires Offers(s, n, r)
    ensures var d := GetResult(s, sequence, payload);
      && (Served(d) <==> Asks(payload, n) && Trustworthy(n, r))
      && (Served(d) ==> d.out == [ResultOf(sequence, payload, r)])
  {
    if |payload| == 12 {
      FreshIffTrustworthy(n, r, Rd32(payload, 8));
    }
  }

  function IsRequest(e: Event, command: byte): bool { e.heard.Request? && e.heard.command == command }

  lemma StepOfGetResult(s: State, e: Event)
    requires Possible(s, e) && IsRequest(e, CMD_GET_RESULT)
    ensures s.phase == ResultReady ==>
      Step(s, e) == GetResult(Received(s, e.consumed, e.resyncs), e.heard.sequence, e.heard.payload)
    ensures s.phase != ResultReady ==> !Served(Step(s, e))
  {
  }

  /** The answer to a GET_RESULT in a state with a known history. */
  ghost predicate AnswersFreshly(s: State, log: seq<Ran>, e: Event, d: Did)
    requires IsRequest(e, CMD_GET_RESULT) && |log| < U32
  {
    && (Served(d) <==>
          && s.phase == ResultReady && log != []
          && Asks(e.heard.payload, |log|) && Trustworthy(|log|, log[|log| - 1]))
    && (Served(d) ==> d.out == [ResultOf(e.heard.sequence, e.heard.payload, log[|log| - 1])])
  }

  lemma AnswerIsFresh(s: State, log: seq<Ran>, e: Event, r: State, d: Did)
    requires Tracks(s, log) && IsRequest(e, CMD_GET_RESULT) && |log| < U32 && r.mem == s.mem && r.latch == s.latch
    requires if s.phase == ResultReady then d == GetResult(r, e.heard.sequence, e.heard.payload) else !Served(d)
    ensures AnswersFreshly(s, log, e, d)
  {
    if s.phase == ResultReady {
      LastOffered(s, log);
      OfferedResult(r, |log|, log[|log| - 1], e.heard.sequence, e.heard.payload);
    }
  }

  lemma LastOffered(s: State, log: seq<Ran>)
    requires Tracks(s, log) && s.phase == ResultReady && |log| < U32
    ensures log != [] && Offers(s, |log|, log[|log| - 1])
  {
    Small(|log|);
  }

  lemma Small(n: nat)
    requires n < U32
    ensures n % U32 == n
  {
  }

  lemma FreshInState(s: State, log: seq<Ran>, e: Event)
    requires Inv(s, log) && Possible(s, e) && IsRequest(e, CMD_GET_RESULT) && |log| < U32
    ensures AnswersFreshly(s, log, e, Step(s, e))
  {
    StepOfGetResult(s, e);
    AnswerIsFresh(s, log, e, Received(s, e.consumed, e.resyncs), Step(s, e));
  }

  /**
   No stale result is ever served. After any commands whatever from boot, with fewer than 2^32 RUNs among them, a
   GET_RESULT is answered exactly when the machine is in RESULT_READY and the request names, by its number counted
   from boot across every RESET, the most recent RUN, which returned 0 and left an output region whose CRC is not its
   poison's; and the CRC in the answer is taken over memory as that run left it.
   */
  lemma FreshResult(mem: Space, es: seq<Event>, e: Event)
    requires Can(RUNNER, Booted(mem), es) && IsRequest(e, CMD_GET_RESULT)
    requires Possible(After(RUNNER, Booted(mem), es), e) && |Log(RUNNER, Booted(mem), es)| < U32
    ensures var s, log := After(RUNNER, Booted(mem), es), Log(RUNNER, Booted(mem), es);
      AnswersFreshly(s, log, e, Step(s, e))
  {
    EveryHistory(mem, es);
    FreshInState(After(RUNNER, Booted(mem), es), Log(RUNNER, Booted(mem), es), e);
  }

  // ---- the blob that runs ----

  /** In every state that has a model, the staged bytes carry the CRC announced for them. */
  lemma ModelsAreVerified(mem: Space, es: seq<Event>)
    requires Can(RUNNER, Booted(mem), es)
    ensures var s := After(RUNNER, Booted(mem), es);
      s.model.total <= STAGING_SIZE && (HasModel(s.phase) ==> Crc(StagedModel(s)) == s.model.expectedCrc)
  {
    EveryHistory(mem, es);
  }

  /** A new upload or a reset that is accepted. */
  predicate Reloads(s: State, e: Event) {
    && e.heard.Request? && (e.heard.command == CMD_LOAD_MODEL_BEGIN || e.heard.command == CMD_RESET)
    && Accepts(s.phase, e.heard.command)
  }

  /** The machine as long as nothing reloads it. */
  const RERUNNING: Machine<State, Event, Ran> := Machine(
    (s, e) => Possible(s, e) && !Reloads(s, e),
    (s, e) => if Possible(s, e) then Step(s, e).s else s,
    (s, e) => if Possible(s, e) then RunsOf(s, e) else [])

  predicate HoldsBlob(s: State, total: word, blob: seq<byte>) {
    Sound(s) && HasModel(s.phase) && s.model.total == total && StagedModel(s) == blob
  }

  lemma QuietHolds(s: State, e: Event, total: word, blob: seq<byte>)
    requires Possible(s, e) && !IsRun(s, e) && !Reloads(s, e) && HoldsBlob(s, total, blob)
    ensures HoldsBlob(Step(s, e).s, total, blob)
  {
    ReceivingCounts(s, e);
    var r, h := Received(s, e.consumed, e.resyncs), e.heard;
    if h.Request? && Known(h.command) && Accepts(s.phase, h.command) {
      QuietRequest(r, h.command, h.sequence, h.payload, e.env);
    } else {
      RefusalKeepsAll(r, h, e.env);
    }
    HoldsOn(r, Step(s, e).s, total, blob);
  }

  lemma QuietRequest(r: State, c: byte, sequence: word, payload: Payload, env: Env)
    requires Sound(r) && HasModel(r.phase) && Accepts(r.phase, c) && c != CMD_RUN && c != CMD_LOAD_MODEL_BEGIN
    requires c != CMD_RESET
    requires env.hw.performed
    ensures var t := Dispatch(r, c, sequence, payload, env).s; Sound(t) && KeepsAll(r, t) && HasModel(t.phase)
  {
    QuietKeeps(r, c, sequence, payload, env);
  }

  lemma RefusalKeepsAll(r: State, h: Heard, env: Env)
    requires Sound(r) && (h.Request? ==> !(Known(h.command) && Accepts(r.phase, h.command)))
    ensures var t := Handle(r, h, env).s; Sound(t) && KeepsAll(r, t) && t.phase == r.phase
  {
  }

  lemma HoldsOn(s: State, t: State, total: word, blob: seq<byte>)
    requires HoldsBlob(s, total, blob) && t.mem == s.mem && t.model == s.model && HasModel(t.phase) && Sound(t)
    ensures HoldsBlob(t, total, blob)
  {
  }

  lemma StepHolds(s: State, e: Event, total: word, blob: seq<byte>)
    requires Possible(s, e) && !Reloads(s, e) && HoldsBlob(s, total, blob)
    ensures HoldsBlob(Step(s, e).s, total, blob)
  {
    if IsRun(s, e) {
      StepOfRun(s, e);
    } else {
      QuietHolds(s, e, total, blob);
    }
  }

  /** One upload serves any number of runs: until something reloads, every RUN executes the same staged bytes. */
  lemma OneUploadManyRuns(s: State, es: seq<Event>)
    requires Sound(s) && HasModel(s.phase) && Can(RERUNNING, s, es)
    ensures HoldsBlob(After(RERUNNING, s, es), s.model.total, StagedModel(s))
  {
    var total, blob := s.model.total, StagedModel(s);
    var inv := (t: State, log: seq<Ran>) => HoldsBlob(t, total, blob);
    forall t: State, e: Event, log: seq<Ran> | inv(t, log) && RERUNNING.can(t, e)
      ensures inv(RERUNNING.step(t, e), log + RERUNNING.logs(t, e))
    {
      StepHolds(t, e, total, blob);
    }
    KeptThroughout(RERUNNING, inv, s, es, []);
  }

  // ---- run numbers ----

  /** A RUN's answer: the ACK, then a RUN_COMPLETE that carries the run's number. */
  predicate Reports(d: Did, sequence: word, n: int) {
    && |d.out| == 2 && d.out[0] == RunAck(sequence) && d.out[1].command == CMD_RUN_COMPLETE
    && d.out[1].sequence == sequence && |d.out[1].payload| == 468 && Rd32(d.out[1].payload, 16) == n
  }

  lemma RunReports(s: State, sequence: word, e: RunEnv)
    requires CanRun(s, e)
    ensures Reports(Run(s, sequence, e), sequence, Add32(s.runCounter, 1))
  {
    var o, rec := RunOutcome(s, e), RecordOf(s, e);
    HeaderWords([o.runSequence, o.flags, o.rc],
                SplitCrc(Words([o.runSequence, o.flags, o.rc]), Words(RecordWords(rec))), RecordWords(rec));
  }

  lemma NextNumber(s: State, log: seq<Ran>)
    requires Tracks(s, log) && |log| < U32 - 1
    ensures Add32(s.runCounter, 1) == |log| + 1
  {
  }

  lemma NumberedInState(s: State, log: seq<Ran>, e: Event)
    requires Inv(s, log) && Possible(s, e) && IsRun(s, e) && |log| < U32 - 1
    ensures Reports(Step(s, e), e.heard.sequence, |log| + 1)
  {
    StepOfARun(s, e);
    NextNumber(s, log);
    RunReports(Received(s, e.consumed, e.resyncs), e.heard.sequence, e.env.run);
  }

  /** Runs are numbered from boot on, whatever resets and refusals lie between. */
  lemma RunsAreNumbered(mem: Space, es: seq<Event>, e: Event)
    requires Can(RUNNER, Booted(mem), es) && Possible(After(RUNNER, Booted(mem), es), e)
    requires IsRun(After(RUNNER, Booted(mem), es), e)
    requires |Log(RUNNER, Booted(mem), es)| < U32 - 1
    ensures Reports(Step(After(RUNNER, Booted(mem), es), e), e.heard.sequence, |Log(RUNNER, Booted(mem), es)| + 1)
  {
    EveryHistory(mem, es);
    NumberedInState(After(RUNNER, Booted(mem), es), Log(RUNNER, Booted(mem), es), e);
  }
}
