/** SET_MODE and RESET at both ends: what is asked for, what is configured, and what every later RUN is made under. */
module ModeControl {
  import opened Bytes
  import opened BitOps
  import opened Frames
  import opened Measurement
  import opened HostRecord
  import opened RunRecord
  import opened Memory
  import opened Runner
  import opened Histories
  import opened RunHistory
  import opened Answers
  import opened Requests
  import opened Refusals
  import opened DecodedRun
  import EndToEnd
  import HostLink

  // ---- the host's side ----

  /** set_instrumentation_mode: the payload it sends for at most eight event codes. */
  function ModePayload(mode: word, setId: word, codes: seq<word>): (p: Payload)
    requires |codes| <= SLOTS
    ensures |p| == 44
  {
    Words([mode, setId, |codes|] + codes + seq(SLOTS - |codes|, _ => 0))
  }

  /** The four words it returns: requested, applied, applied_count, configuration_sequence. */
  function ModeReply(p: Payload): seq<word>
    requires |p| >= 16
  {
    ReadWords(p, 0, 4)
  }

  // ---- the firmware's side ----

  /** The words of a SET_MODE request. */
  predicate AsksMode(p: Payload, mode: word, setId: word, count: word, codes: Slots) {
    p == Words([mode, setId, count] + codes)
  }

  /** The configuration asked for: mode, event set and count, the codes of the counted slots, and nothing behind. */
  predicate IsConfigured(c: Config, mode: word, setId: word, count: word, codes: Slots) {
    && c.mode == mode && c.eventSetId == setId && c.eventCount == count
    && forall i :: 0 <= i < 8 ==> c.eventCodes[i] == if i < count then codes[i] else 0
  }

  /** A mode that exists, no more events than slots or counters, and events only in the mode that counts them. */
  predicate Allowed(mode: word, count: word, hw: Probe) {
    mode <= 2 && count <= 8 && count <= hw.hwEventCounters && (count == 0 || mode == 2)
  }

  lemma ModeWords(p: Payload, mode: word, setId: word, count: word, codes: Slots)
    requires AsksMode(p, mode, setId, count, codes)
    ensures |p| == 44 && Rd32(p, 0) == mode && Rd32(p, 4) == setId && Rd32(p, 8) == count
    ensures ReadWords(p, 12, 8) == codes
  {
    var ws := [mode, setId, count] + codes;
    ReadWordAt(ws, 0);
    ReadWordAt(ws, 1);
    ReadWordAt(ws, 2);
    WordsFrom(ws, 3, 8);
    assert ws[3..11] == codes;
  }

  lemma ModeSet(s: State, sequence: word, p: Payload, hw: Probe, mode: word, setId: word, count: word, codes: Slots)
    requires AsksMode(p, mode, setId, count, codes) && Allowed(mode, count, Probed(s, hw))
    ensures var d, n := SetMode(s, sequence, p, hw), Add32(s.config.configurationSequence, 1);
      && IsConfigured(d.s.config, mode, setId, count, codes) && d.s.config.configurationSequence == n
      && d.out == [Frame(1, 0x85, 0, sequence, Le32(mode) + Le32(mode) + Le32(count) + Le32(n))]
  {
    ModeWords(p, mode, setId, count, codes);
  }

  lemma ModeErrorIs(s: State, p: Payload, hw: Probe, mode: word, setId: word, count: word, codes: Slots)
    requires AsksMode(p, mode, setId, count, codes)
    ensures ModeError(s, p, hw) == 0 <==> Allowed(mode, count, Probed(s, hw))
  {
    ModeWords(p, mode, setId, count, codes);
  }

  /** The event asks for a mode where one may be set. */
  predicate SetsMode(s: State, e: Event, mode: word, setId: word, count: word, codes: Slots) {
    && Possible(s, e) && IsRequest(e, CMD_SET_MODE) && AsksMode(e.heard.payload, mode, setId, count, codes)
    && (s.phase == Idle || s.phase == InputReady || s.phase == ResultReady)
  }

  lemma StepOfSetMode(s: State, e: Event)
    requires Possible(s, e) && IsRequest(e, CMD_SET_MODE)
    requires s.phase == Idle || s.phase == InputReady || s.phase == ResultReady
    ensures Step(s, e) == SetMode(Received(s, e.consumed, e.resyncs), e.heard.sequence, e.heard.payload, e.env.hw)
  {
  }

  /**
   SET_MODE, exactly: it is acknowledged if and only if the mode exists, the events fit the slots and the counters, and
   none are asked for but in EVENTS mode. Then the configuration is the one asked for and the reply says so; refused, it
   is the one there was.
   */
  lemma SetModeIsExact(s: State, e: Event, mode: word, setId: word, count: word, codes: Slots)
    requires SetsMode(s, e, mode, setId, count, codes)
    ensures var d, n := Step(s, e), Add32(s.config.configurationSequence, 1);
      if Allowed(mode, count, Probed(s, e.env.hw)) then
        && IsConfigured(d.s.config, mode, setId, count, codes) && d.s.config.configurationSequence == n
        && d.out == [Frame(1, 0x85, 0, e.heard.sequence, Le32(mode) + Le32(mode) + Le32(count) + Le32(n))]
      else
        && d.s.config == s.config && IsRefusal(d.out, ErrorOf(s, e.heard, e.env.hw), 0x05, e.heard.sequence, s.phase)
        && ErrorOf(s, e.heard, e.env.hw) != 0
  {
    var p, hw := e.heard.payload, e.env.hw;
    ModeErrorIs(s, p, hw, mode, setId, count, codes);
    TableByCommand(s.phase, CMD_SET_MODE);
    if Allowed(mode, count, Probed(s, hw)) {
      StepOfSetMode(s, e);
      ReceivingCounts(s, e);
      ModeSet(Received(s, e.consumed, e.resyncs), e.heard.sequence, p, hw, mode, setId, count, codes);
    } else {
      AnswerIsExact(s, e);
    }
  }

  /** RESET turns measuring off: no mode, no events, no model, no result; the run counter goes on. */
  lemma ResetTurnsOff(s: State, e: Event)
    requires Possible(s, e) && IsRequest(e, CMD_RESET) && s.phase != Boot && s.phase != Running
    ensures var t := Step(s, e).s;
      && t.config.mode == 0 && t.config.eventCount == 0 && t.config.eventCodes == [0, 0, 0, 0, 0, 0, 0, 0]
      && t.config.eventSetId == s.config.eventSetId
      && t.config.configurationSequence == s.config.configurationSequence
      && t.phase == Idle && t.model.total == 0 && !t.latch.completed && t.lastChunk == None
      && t.runCounter == s.runCounter && t.mem == s.mem && t.measured == s.measured
    ensures Step(s, e).out == [Frame(1, 0xD0, 0, e.heard.sequence, [])]
  {
  }

  // ---- both ends of the request ----

  lemma PayloadAsks(mode: word, setId: word, codes: seq<word>) returns (slots: Slots)
    requires |codes| <= SLOTS
    ensures AsksMode(ModePayload(mode, setId, codes), mode, setId, |codes|, slots)
    ensures forall i :: 0 <= i < |codes| ==> slots[i] == codes[i]
  {
    slots := codes + seq(SLOTS - |codes|, _ => 0);
    assert [mode, setId, |codes|] + codes + seq(SLOTS - |codes|, _ => 0) == [mode, setId, |codes|] + slots;
  }

  lemma ReplyReads(a: word, b: word, c: word, d: word)
    ensures ModeReply(Le32(a) + Le32(b) + Le32(c) + Le32(d)) == [a, b, c, d]
  {
    var p := Le32(a) + Le32(b) + Le32(c) + Le32(d);
    assert p[0..4] == Le32(a) && p[4..8] == Le32(b) && p[8..12] == Le32(c) && p[12..16] == Le32(d);
    ReadSlice(p, 0, a);
    ReadSlice(p, 4, b);
    ReadSlice(p, 8, c);
    ReadSlice(p, 12, d);
  }

  /**
   set_instrumentation_mode works end to end: for any mode, event set and codes, heard where a mode may be set, the host
   gets the four words of the configuration it asked for, which is then in force, or else a refusal, and the
   configuration stands.
   */
  lemma ModeWorks(s: State, e: Event, mode: word, setId: word, codes: seq<word>, unread: seq<Frame>, later: seq<Frame>)
    returns (slots: Slots)
    requires |codes| <= SLOTS && Possible(s, e) && IsRequest(e, CMD_SET_MODE)
    requires s.phase == Idle || s.phase == InputReady || s.phase == ResultReady
    requires e.heard.payload == ModePayload(mode, setId, codes) && NoneUnder(unread, e.heard.sequence)
    ensures forall i :: 0 <= i < |codes| ==> slots[i] == codes[i]
    ensures var t, fs := Step(s, e).s, EndToEnd.Reads(unread + (Step(s, e).out + later));
      var r := HostLink.Await(fs, e.heard.sequence, CMD_SET_MODE).0;
      if Allowed(mode, |codes|, Probed(s, e.env.hw)) then
        && r.Answer? && |r.frame.payload| >= 16 && IsConfigured(t.config, mode, setId, |codes|, slots)
        && ModeReply(r.frame.payload) == [mode, mode, |codes|, t.config.configurationSequence]
      else r.Nacked? && t.config == s.config
  {
    slots := PayloadAsks(mode, setId, codes);
    SetModeIsExact(s, e, mode, setId, |codes|, slots);
    TableByCommand(s.phase, CMD_SET_MODE);
    ModeErrorIs(s, e.heard.payload, e.env.hw, mode, setId, |codes|, slots);
    ReplyReachesHost(s, e, CMD_SET_MODE, e.heard.sequence, unread, later);
    ReplyReads(mode, mode, |codes|, Add32(s.config.configurationSequence, 1));
  }

  // ---- the configuration in force ----

  /** A SET_MODE or a RESET that its phase accepts. */
  predicate Reconfigures(s: State, e: Event) {
    && e.heard.Request? && (e.heard.command == CMD_SET_MODE || e.heard.command == CMD_RESET)
    && Accepts(s.phase, e.heard.command)
  }

  /** The machine as long as nothing reconfigures it. */
  const CONFIGURED: Machine<State, Event, Ran> := Machine(
    (s, e) => Possible(s, e) && !Reconfigures(s, e),
    (s, e) => if Possible(s, e) then Step(s, e).s else s,
    (s, e) => if Possible(s, e) then RunsOf(s, e) else [])

  lemma RefusedKeepsConfig(s: State, e: Event)
    requires Possible(s, e) && IsRequestOfNone(s, e)
    ensures Step(s, e).s.config == s.config
  {
    TableByCommand(s.phase, e.heard.command);
    AnswerIsExact(s, e);
  }

  /** Nothing that its phase accepts. */
  predicate IsRequestOfNone(s: State, e: Event) {
    e.heard.Request? ==> !(Known(e.heard.command) && Accepts(s.phase, e.heard.command))
  }

  lemma ConfigIsKept(s: State, e: Event)
    requires Possible(s, e) && !Reconfigures(s, e)
    ensures Step(s, e).s.config == s.config
  {
    if IsRun(s, e) {
      RunSettings(s, e);
    } else if IsRequestOfNone(s, e) {
      RefusedKeepsConfig(s, e);
    } else {
      SettingsAreKept(s, e);
    }
  }

  lemma {:induction false} ConfigStands(s: State, es: seq<Event>)
    requires Can(CONFIGURED, s, es)
    ensures After(CONFIGURED, s, es).config == s.config
    decreases |es|
  {
    if es != [] {
      assert CONFIGURED.can(s, es[0]);
      ConfigIsKept(s, es[0]);
      ConfigStands(Step(s, es[0]).s, es[1..]);
    }
  }

  /** The host decodes this configuration of a run whose seam saw these overflows. */
  predicate DecodesAs(b: PmuBlock, h: Readings, mode: word, setId: word, count: word, codes: Slots) {
    && b.a.modeRequested == mode && b.a.modeApplied == mode && b.a.eventSetId == setId
    && b.a.requestedEventCount == count && |b.eventCodes| == 8
    && forall i :: 0 <= i < 8 ==>
         b.eventCodes[i] == if mode == 2 && i < count && !BitAt(h.seam.overflow, i) then Some(codes[i]) else None
  }

  lemma ResetConfigures(s: State, e: Event)
    requires Possible(s, e) && IsRequest(e, CMD_RESET) && s.phase != Boot && s.phase != Running
    ensures IsConfigured(Step(s, e).s.config, 0, s.config.eventSetId, 0, NO_EVENTS)
  {
    ResetTurnsOff(s, e);
  }

  lemma ConfiguredDecodes(c: Config, p: Probe, h: Readings, b: PmuBlock, mode: word, setId: word, count: word,
                          codes: Slots)
    requires IsConfigured(c, mode, setId, count, codes) && ConfigIs(b.a, c, p) && SlotsAre(b.eventCodes, c, h)
    ensures DecodesAs(b, h, mode, setId, count, codes)
  {
    forall i | 0 <= i < 8
      ensures b.eventCodes[i] == if mode == 2 && i < count && !BitAt(h.seam.overflow, i) then Some(codes[i]) else None
    {
      assert SlotGood(c, h, i) <==> mode == 2 && i < count && !BitAt(h.seam.overflow, i);
    }
  }

  lemma RunUnder(s: State, e: Event, mode: word, setId: word, count: word, codes: Slots)
    returns (m: Measured, b: PmuBlock)
    requires Possible(s, e) && IsRun(s, e) && IsConfigured(s.config, mode, setId, count, codes)
    ensures |Step(s, e).out| == 2 && ParseMeasurement(Step(s, e).out[1].payload) == Ok(m) && m.pmu == Some(b)
    ensures DecodesAs(b, e.env.run.readings, mode, setId, count, codes)
  {
    m, b := ConfigReachesHost(s, e);
    ConfiguredDecodes(s.config, s.probe, e.env.run.readings, b, mode, setId, count, codes);
  }

  /**
   A mode governs every RUN until the next: once a SET_MODE is acknowledged, whatever follows that neither sets a mode
   nor resets, uploads and other RUNs included, the host decodes from every RUN the mode, the event set, the count, and
   in every slot that did not overflow the event that was asked for.
   */
  lemma ModeGoverns(s: State, e: Event, mode: word, setId: word, count: word, codes: Slots, es: seq<Event>, run: Event)
    returns (m: Measured, b: PmuBlock)
    requires SetsMode(s, e, mode, setId, count, codes) && Allowed(mode, count, Probed(s, e.env.hw))
    requires Can(CONFIGURED, Step(s, e).s, es)
    requires var u := After(CONFIGURED, Step(s, e).s, es); Possible(u, run) && IsRun(u, run)
    ensures var d := Step(After(CONFIGURED, Step(s, e).s, es), run);
      |d.out| == 2 && ParseMeasurement(d.out[1].payload) == Ok(m) && m.pmu == Some(b)
    ensures DecodesAs(b, run.env.run.readings, mode, setId, count, codes)
  {
    SetModeIsExact(s, e, mode, setId, count, codes);
    ConfigStands(Step(s, e).s, es);
    m, b := RunUnder(After(CONFIGURED, Step(s, e).s, es), run, mode, setId, count, codes);
  }

  /** And after a RESET every RUN is made with measuring off, until a mode is set. */
  lemma ResetGoverns(s: State, e: Event, es: seq<Event>, run: Event) returns (m: Measured, b: PmuBlock)
    requires Possible(s, e) && IsRequest(e, CMD_RESET) && s.phase != Boot && s.phase != Running
    requires Can(CONFIGURED, Step(s, e).s, es)
    requires var u := After(CONFIGURED, Step(s, e).s, es); Possible(u, run) && IsRun(u, run)
    ensures var d := Step(After(CONFIGURED, Step(s, e).s, es), run);
      |d.out| == 2 && ParseMeasurement(d.out[1].payload) == Ok(m) && m.pmu == Some(b)
    ensures DecodesAs(b, run.env.run.readings, 0, s.config.eventSetId, 0, NO_EVENTS)
  {
    ResetConfigures(s, e);
    ConfigStands(Step(s, e).s, es);
    m, b := RunUnder(After(CONFIGURED, Step(s, e).s, es), run, 0, s.config.eventSetId, 0, NO_EVENTS);
  }
}
