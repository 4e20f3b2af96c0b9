/** The diagnostic counters: what they count over every history from boot, and what ping() reads of them. */
module CounterLaws {
  import opened Bytes
  import opened Frames
  import Crc32
  import opened Measurement
  import opened RunRecord
  import opened Memory
  import opened Runner
  import opened Histories
  import opened RunHistory
  import opened Answers

  // ---- what there is to count ----

  /** Bytes taken and sent, resynchronisations, refusals by kind, overruns, and bytes kept back in windows. */
  datatype Tally = Tally(rx: nat, tx: nat, resyncs: nat, versions: nat, lengths: nat, crcs: nat, mismatches: nat,
                         overruns: nat, keptBack: nat)

  const NOTHING_YET: Tally := Tally(0, 0, 0, 0, 0, 0, 0, 0, 0)

  function Plus(a: Tally, b: Tally): Tally {
    Tally(a.rx + b.rx, a.tx + b.tx, a.resyncs + b.resyncs, a.versions + b.versions, a.lengths + b.lengths,
          a.crcs + b.crcs, a.mismatches + b.mismatches, a.overruns + b.overruns, a.keptBack + b.keptBack)
  }

  /** Header, payload and CRC. */
  function Size(f: Frame): nat { 20 + |f.payload| }

  lemma SizeOnWire(f: Frame)
    ensures |Encode(f)| == Size(f)
  {
  }

  /** The bytes of some frames on the wire. */
  function Sent(fs: seq<Frame>): nat {
    if fs == [] then 0 else Size(fs[0]) + Sent(fs[1..])
  }

  function One(b: bool): nat { if b then 1 else 0 }

  /** A chunk refused because another one came under its number. */
  predicate IsMismatch(fs: seq<Frame>) { |fs| == 1 && fs[0].command == 0xFF && fs[0].flags == 7 }

  /** What one event adds. */
  function Adds(s: State, e: Event): Tally
    requires Possible(s, e)
  {
    var out, run := Step(s, e).out, IsRun(s, e);
    Tally(e.consumed, Sent(out), e.resyncs, One(e.heard.WrongVersion?), One(e.heard.TooLong?), One(e.heard.Corrupt?),
          One(IsMismatch(out)), One(run && e.env.run.readings.raw[7] != 0), if run then e.env.run.windowPuts else 0)
  }

  /** What a history adds. */
  function Total(s: State, es: seq<Event>): Tally
    requires Can(RUNNER, s, es)
    decreases |es|
  {
    if es == [] then NOTHING_YET else Plus(Adds(s, es[0]), Total(Step(s, es[0]).s, es[1..]))
  }

  // ---- what is counted ----

  predicate Up(from: word, to: word, n: nat) { to == (from + n) % U32 }

  /** Every counter has gone up by its tally, modulo 2^32. */
  predicate WentUp(s: State, t: State, n: Tally) {
    var a, b := s.counters, t.counters;
    && Up(a.rxBytes, b.rxBytes, n.rx) && Up(a.txBytes, b.txBytes, n.tx)
    && Up(a.resync, b.resync, n.resyncs) && Up(a.badMagic, b.badMagic, n.resyncs)
    && Up(a.badVersion, b.badVersion, n.versions) && Up(a.lengthError, b.lengthError, n.lengths)
    && Up(a.badCrc, b.badCrc, n.crcs) && Up(a.sequenceError, b.sequenceError, n.mismatches)
    && Up(a.rxOverrun, b.rxOverrun, n.overruns) && Up(s.windowBytes, t.windowBytes, n.keptBack)
  }

  lemma UpTwice(a: word, b: word, c: word, m: nat, n: nat)
    requires Up(a, b, m) && Up(b, c, n)
    ensures Up(a, c, m + n)
  {
  }

  lemma UpSmall(a: word, n: nat)
    ensures Up(a, Add32(a, n % U32), n)
  {
  }

  lemma WentUpTwice(s: State, t: State, u: State, m: Tally, n: Tally)
    requires WentUp(s, t, m) && WentUp(t, u, n)
    ensures WentUp(s, u, Plus(m, n))
  {
    var a, b, c := s.counters, t.counters, u.counters;
    UpTwice(a.rxBytes, b.rxBytes, c.rxBytes, m.rx, n.rx);
    UpTwice(a.txBytes, b.txBytes, c.txBytes, m.tx, n.tx);
    UpTwice(a.resync, b.resync, c.resync, m.resyncs, n.resyncs);
    UpTwice(a.badMagic, b.badMagic, c.badMagic, m.resyncs, n.resyncs);
    UpTwice(a.badVersion, b.badVersion, c.badVersion, m.versions, n.versions);
    UpTwice(a.lengthError, b.lengthError, c.lengthError, m.lengths, n.lengths);
    UpTwice(a.badCrc, b.badCrc, c.badCrc, m.crcs, n.crcs);
    UpTwice(a.sequenceError, b.sequenceError, c.sequenceError, m.mismatches, n.mismatches);
    UpTwice(a.rxOverrun, b.rxOverrun, c.rxOverrun, m.overruns, n.overruns);
    UpTwice(s.windowBytes, t.windowBytes, u.windowBytes, m.keptBack, n.keptBack);
  }

  // ---- one step ----

  lemma ReceivingAdds(s: State, consumed: nat, resyncs: nat)
    ensures WentUp(s, Received(s, consumed, resyncs), NOTHING_YET.(rx := consumed, resyncs := resyncs))
  {
    UpSmall(s.counters.rxBytes, consumed);
    UpSmall(s.counters.resync, resyncs);
    UpSmall(s.counters.badMagic, resyncs);
  }

  lemma OneFrame(f: Frame)
    ensures Sent([f]) == Size(f)
  {
    assert [f][1..] == [];
  }

  lemma TransmittedAdds(s: State, f: Frame)
    ensures Transmitted(s, f) == s.(counters := s.counters.(txBytes := Add32(s.counters.txBytes, Size(f))))
  {
    SizeOnWire(f);
  }

  /** What an event adds behind the bytes it took. */
  function Handled(d: Did, mismatches: nat, versions: nat, lengths: nat, crcs: nat): Tally {
    Tally(0, Sent(d.out), 0, versions, lengths, crcs, mismatches, 0, 0)
  }

  /** The state `u` with one frame transmitted. */
  predicate Sends(u: State, d: Did, f: Frame) {
    d.out == [f] && d.s.windowBytes == u.windowBytes
    && d.s.counters == u.counters.(txBytes := Add32(u.counters.txBytes, Size(f)))
  }

  lemma ReplySends(u: State, f: Frame)
    ensures Sends(u, Reply(u, f), f)
  {
    TransmittedAdds(u, f);
  }

  lemma SendingAdds(s: State, u: State, d: Did, f: Frame, n: Tally)
    requires Sends(u, d, f) && WentUp(s, u, n) && n.tx == 0
    ensures WentUp(s, d.s, n.(tx := Sent(d.out)))
  {
    OneFrame(f);
  }

  lemma Still(s: State)
    ensures WentUp(s, s, NOTHING_YET)
  {
  }

  /** A handler that replies once, over a state that differs in nothing that is counted. */
  ghost predicate RepliesOnce(s: State, d: Did) {
    !IsMismatch(d.out) && exists f :: Sends(s, d, f)
  }

  lemma RepliedOnce(s: State, d: Did)
    requires RepliesOnce(s, d)
    ensures WentUp(s, d.s, Handled(d, 0, 0, 0, 0))
  {
    var f :| Sends(s, d, f);
    Still(s);
    SendingAdds(s, s, d, f, NOTHING_YET);
  }

  lemma OneMismatch(s: State, u: State)
    requires u == s.(counters := s.counters.(sequenceError := Add32(s.counters.sequenceError, 1)))
    ensures WentUp(s, u, NOTHING_YET.(mismatches := 1))
  {
  }

  lemma MismatchAdds(s: State, chunk: Chunk)
    requires s.lastChunk != Some(chunk)
    ensures var d := RepeatedChunk(s, chunk); IsMismatch(d.out) && WentUp(s, d.s, Handled(d, 1, 0, 0, 0))
  {
    var u := s.(counters := s.counters.(sequenceError := Add32(s.counters.sequenceError, 1)));
    var f := Nack(s.phase, CMD_LOAD_MODEL_CHUNK, chunk.sequence, ERR_CHUNK_MISMATCH);
    ReplySends(u, f);
    OneMismatch(s, u);
    SendingAdds(s, u, Reply(u, f), f, NOTHING_YET.(mismatches := 1));
  }

  lemma ChunkAdds(s: State, sequence: word, p: Payload)
    requires s.model.total <= STAGING_SIZE
    ensures var d := LoadModelChunk(s, sequence, p); WentUp(s, d.s, Handled(d, One(IsMismatch(d.out)), 0, 0, 0))
  {
    var d := LoadModelChunk(s, sequence, p);
    if |p| > 4 && Repeats(s, sequence) && !SameChunk(s, p) {
      MismatchAdds(s, Chunk(sequence, Rd32(p, 0), |p[4..]|, Crc32.Crc(p[4..])));
    } else {
      ChunkReplies(s, sequence, p);
      RepliedOnce(s, d);
    }
  }

  /** A reply from a state with the counters of `s`, and what it was counted as. */
  lemma RepliesAs(s: State, u: State, f: Frame, d: Did)
    requires d == Reply(u, f) && u.counters == s.counters && u.windowBytes == s.windowBytes && !IsMismatch([f])
    ensures RepliesOnce(s, d)
  {
    ReplySends(u, f);
    assert Sends(s, d, f);
  }

  lemma ChunkReplies(s: State, sequence: word, p: Payload)
    requires s.model.total <= STAGING_SIZE && (|p| > 4 && Repeats(s, sequence) ==> SameChunk(s, p))
    ensures RepliesOnce(s, LoadModelChunk(s, sequence, p))
  {
    var d := LoadModelChunk(s, sequence, p);
    var u, f := ChunkReply(s, sequence, p);
    RepliesAs(s, u, f, d);
  }

  lemma ChunkReply(s: State, sequence: word, p: Payload) returns (u: State, f: Frame)
    requires s.model.total <= STAGING_SIZE && (|p| > 4 && Repeats(s, sequence) ==> SameChunk(s, p))
    ensures LoadModelChunk(s, sequence, p) == Reply(u, f) && u.counters == s.counters && u.windowBytes == s.windowBytes
    ensures !IsMismatch([f])
  {
    if |p| <= 4 {
      u, f := s, Nack(s.phase, CMD_LOAD_MODEL_CHUNK, sequence, ERR_PAYLOAD_FORMAT);
    } else {
      var data := p[4..];
      var chunk := Chunk(sequence, Rd32(p, 0), |data|, Crc32.Crc(data));
      if Repeats(s, sequence) {
        u, f := s, Ack(CMD_LOAD_MODEL_CHUNK, sequence, Triple(chunk.offset, chunk.length, s.model.staged));
      } else {
        u, f := NewChunkReply(s, chunk, data);
      }
    }
  }

  lemma NewChunkReply(s: State, chunk: Chunk, data: seq<byte>) returns (u: State, f: Frame)
    requires s.model.total <= STAGING_SIZE && chunk.length == |data|
    ensures NewChunk(s, chunk, data) == Reply(u, f) && u.counters == s.counters && u.windowBytes == s.windowBytes
    ensures !IsMismatch([f])
  {
    if ChunkFits(s.model.total, chunk.offset, |data|) {
      ChunkFitsIffInside(s.model.total, chunk.offset, |data|);
      var staged := Add32(s.model.staged, |data|);
      u := s.(mem := Store(s.mem, STAGING_BASE + chunk.offset, data), model := s.model.(staged := staged),
              lastChunk := Some(chunk));
      f := Ack(CMD_LOAD_MODEL_CHUNK, chunk.sequence, Triple(chunk.offset, |data|, staged));
    } else {
      u, f := s, Nack(s.phase, CMD_LOAD_MODEL_CHUNK, chunk.sequence, ERR_RANGE);
    }
  }

  lemma BeginReply(s: State, sequence: word, p: Payload) returns (u: State, f: Frame)
    ensures LoadModelBegin(s, sequence, p) == Reply(u, f) && u.counters == s.counters && u.windowBytes == s.windowBytes
    ensures !IsMismatch([f])
  {
    if |p| == 8 && 1 <= Rd32(p, 0) <= STAGING_SIZE {
      var total := Rd32(p, 0);
      u := s.(model := Model(total, Rd32(p, 4), 0, 0), lastChunk := None, phase := Loading);
      f := Ack(CMD_LOAD_MODEL_BEGIN, sequence, Triple(total, STAGING_BASE, STAGING_SIZE));
    } else {
      u, f := s, Nack(s.phase, CMD_LOAD_MODEL_BEGIN, sequence, if |p| != 8 then ERR_PAYLOAD_FORMAT else ERR_RANGE);
    }
  }

  lemma EndReply(s: State, sequence: word) returns (u: State, f: Frame)
    requires s.model.total <= STAGING_SIZE
    ensures LoadModelEnd(s, sequence) == Reply(u, f) && u.counters == s.counters && u.windowBytes == s.windowBytes
    ensures !IsMismatch([f])
  {
    var computed := Crc32.Crc(StagedModel(s));
    u := s.(model := s.model.(computedCrc := computed));
    if computed == s.model.expectedCrc {
      u := u.(phase := ModelReady);
      f := Ack(CMD_LOAD_MODEL_END, sequence, Triple(computed, s.model.expectedCrc, s.model.total));
    } else {
      f := Nack(s.phase, CMD_LOAD_MODEL_END, sequence, ERR_MODEL_CRC);
    }
  }

  lemma ModeReplies(s: State, sequence: word, p: Payload, hw: Probe)
    ensures RepliesOnce(s, SetMode(s, sequence, p, hw))
  {
    var d := SetMode(s, sequence, p, hw);
    ReplyOf(s, d);
  }

  /** Whatever a handler replied, it transmitted it from the state it left. */
  lemma ReplyOf(s: State, d: Did)
    requires |d.out| == 1 && !IsMismatch(d.out) && d.s.windowBytes == s.windowBytes
    requires d.s.counters == s.counters.(txBytes := Add32(s.counters.txBytes, |Encode(d.out[0])|))
    ensures RepliesOnce(s, d)
  {
    SizeOnWire(d.out[0]);
    assert Sends(s, d, d.out[0]);
  }

  lemma ResultReplies(s: State, sequence: word, p: Payload)
    ensures RepliesOnce(s, GetResult(s, sequence, p))
  {
    ReplyOf(s, GetResult(s, sequence, p));
  }

  lemma RestReplies(s: State, c: byte, sequence: word, p: Payload, env: Env)
    requires WellKept(s) && Accepts(s.phase, c) && Known(c)
    requires c != 0x30 && c != 0x10 && c != 0x11 && c != 0x12 && c != 0x05 && c != 0x40
    ensures RepliesOnce(s, Dispatch(s, c, sequence, p, env))
  {
    ReplyOf(s, Dispatch(s, c, sequence, p, env));
  }

  lemma PlainReplies(s: State, c: byte, sequence: word, p: Payload, env: Env)
    requires WellKept(s) && Known(c) && Accepts(s.phase, c) && c != CMD_RUN && c != CMD_LOAD_MODEL_CHUNK
    ensures RepliesOnce(s, Dispatch(s, c, sequence, p, env))
  {
    if c == CMD_LOAD_MODEL_BEGIN {
      var u, f := BeginReply(s, sequence, p);
      RepliesAs(s, u, f, LoadModelBegin(s, sequence, p));
    } else if c == CMD_LOAD_MODEL_END {
      var u, f := EndReply(s, sequence);
      RepliesAs(s, u, f, LoadModelEnd(s, sequence));
    } else if c == CMD_SET_MODE {
      ModeReplies(s, sequence, p, env.hw);
    } else if c == CMD_GET_RESULT {
      ResultReplies(s, sequence, p);
    } else {
      RestReplies(s, c, sequence, p, env);
    }
  }

  lemma RequestAdds(s: State, c: byte, sequence: word, p: Payload, env: Env)
    requires WellKept(s) && Known(c) && Accepts(s.phase, c) && c != CMD_RUN
    ensures var d := Dispatch(s, c, sequence, p, env); WentUp(s, d.s, Handled(d, One(IsMismatch(d.out)), 0, 0, 0))
  {
    if c == CMD_LOAD_MODEL_CHUNK {
      ChunkAdds(s, sequence, p);
    } else {
      PlainReplies(s, c, sequence, p, env);
      RepliedOnce(s, Dispatch(s, c, sequence, p, env));
    }
  }

  /** A refusal over a state `u` in which an error has already been counted. */
  lemma RefusalAdds(s: State, u: State, c: byte, sequence: word, error: half, n: Tally)
    requires WentUp(s, u, n) && n.tx == 0 && error != 7
    ensures var d := Refused(u, c, sequence, error);
      !IsMismatch(d.out) && WentUp(s, d.s, n.(tx := Sent(d.out)))
  {
    var f := Nack(u.phase, c, sequence, error);
    ReplySends(u, f);
    SendingAdds(s, u, Reply(u, f), f, n);
  }

  lemma HandledAdds(s: State, h: Heard, env: Env)
    requires WellKept(s) && !(h.Request? && h.command == CMD_RUN && Accepts(s.phase, CMD_RUN))
    ensures var d := Handle(s, h, env);
      WentUp(s, d.s, Handled(d, One(IsMismatch(d.out)), One(h.WrongVersion?), One(h.TooLong?), One(h.Corrupt?)))
  {
    match h
    case WrongVersion(c, sequence) =>
      var u := s.(counters := s.counters.(badVersion := Add32(s.counters.badVersion, 1)));
      RefusalAdds(s, u, c, sequence, ERR_BAD_VERSION, NOTHING_YET.(versions := 1));
    case TooLong(c, sequence) =>
      var u := s.(counters := s.counters.(lengthError := Add32(s.counters.lengthError, 1)));
      RefusalAdds(s, u, c, sequence, ERR_LENGTH, NOTHING_YET.(lengths := 1));
    case Corrupt(c, sequence) =>
      var u := s.(counters := s.counters.(badCrc := Add32(s.counters.badCrc, 1)));
      RefusalAdds(s, u, c, sequence, ERR_BAD_CRC, NOTHING_YET.(crcs := 1));
    case Request(c, sequence, p) =>
      Still(s);
      if !Known(c) {
        RefusalAdds(s, s, c, sequence, ERR_BAD_COMMAND, NOTHING_YET);
      } else if !Accepts(s.phase, c) {
        RefusalAdds(s, s, c, sequence, ERR_STATE, NOTHING_YET);
      } else {
        RequestAdds(s, c, sequence, p, env);
      }
  }

  lemma TwoFrames(f: Frame, g: Frame)
    ensures Sent([f, g]) == Size(f) + Size(g)
  {
    assert [f, g][1..] == [g];
    OneFrame(g);
  }

  /** The counters a RUN that sent `f` and `g` leaves. */
  predicate RunLeaves(s: State, t: State, f: Frame, g: Frame, overrun: bool, puts: word) {
    var a := s.counters;
    && t.windowBytes == Add32(s.windowBytes, puts)
    && t.counters == a.(txBytes := Add32(Add32(a.txBytes, Size(f)), Size(g)),
                        rxOverrun := Add32(a.rxOverrun, if overrun then 1 else 0))
  }

  lemma RunCounters(s: State, sequence: word, e: RunEnv) returns (f: Frame, g: Frame)
    requires CanRun(s, e)
    ensures var d := Run(s, sequence, e);
      d.out == [f, g] && RunLeaves(s, d.s, f, g, e.readings.raw[7] != 0, e.windowPuts)
  {
    f, g := RunAck(sequence), RunCompleteFrame(sequence, RunOutcome(s, e), RecordOf(s, e));
    TransmittedAdds(s, f);
    var u := Concluded(Executed(s, sequence, e), RunOutcome(s, e), RecordOf(s, e), e.readings.raw[7] != 0);
    TransmittedAdds(u, g);
  }

  lemma LeftAdds(s: State, t: State, f: Frame, g: Frame, overrun: bool, puts: word)
    requires RunLeaves(s, t, f, g, overrun, puts)
    ensures WentUp(s, t, Tally(0, Size(f) + Size(g), 0, 0, 0, 0, 0, One(overrun), puts))
  {
    var a := s.counters.txBytes;
    UpBy(a, Size(f));
    UpBy(Add32(a, Size(f)), Size(g));
    UpTwice(a, Add32(a, Size(f)), t.counters.txBytes, Size(f), Size(g));
    UpBy(s.windowBytes, puts);
  }

  lemma RunAdds(s: State, sequence: word, e: RunEnv)
    requires CanRun(s, e)
    ensures var d := Run(s, sequence, e);
      WentUp(s, d.s, Tally(0, Sent(d.out), 0, 0, 0, 0, 0, One(e.readings.raw[7] != 0), e.windowPuts))
  {
    var f, g := RunCounters(s, sequence, e);
    TwoFrames(f, g);
    LeftAdds(s, Run(s, sequence, e).s, f, g, e.readings.raw[7] != 0, e.windowPuts);
  }

  lemma UpBy(a: word, n: word)
    ensures Up(a, Add32(a, n), n)
  {
  }

  /** What is added behind the bytes that were taken. */
  function Behind(s: State, e: Event): Tally
    requires Possible(s, e)
  {
    Adds(s, e).(rx := 0, resyncs := 0)
  }

  lemma RestAdds(s: State, e: Event)
    requires Possible(s, e)
    ensures WentUp(Received(s, e.consumed, e.resyncs), Step(s, e).s, Behind(s, e))
  {
    var r := Received(s, e.consumed, e.resyncs);
    if IsRun(s, e) {
      StepOfARun(s, e);
      RunAdds(r, e.heard.sequence, e.env.run);
      RunIsNoMismatch(s, e);
    } else {
      HandledAdds(r, e.heard, e.env);
    }
  }

  lemma RunIsNoMismatch(s: State, e: Event)
    requires Possible(s, e) && IsRun(s, e)
    ensures !IsMismatch(Step(s, e).out)
  {
    StepOfARun(s, e);
  }

  /** Every event makes every counter go up by exactly what it adds. */
  lemma StepAdds(s: State, e: Event)
    requires Possible(s, e)
    ensures WentUp(s, Step(s, e).s, Adds(s, e))
  {
    ReceivingAdds(s, e.consumed, e.resyncs);
    RestAdds(s, e);
    var took := NOTHING_YET.(rx := e.consumed, resyncs := e.resyncs);
    WentUpTwice(s, Received(s, e.consumed, e.resyncs), Step(s, e).s, took, Behind(s, e));
  }

  /** Over every history, nothing is miscounted. */
  lemma {:induction false} HistoryAdds(s: State, es: seq<Event>)
    requires Can(RUNNER, s, es)
    ensures WentUp(s, After(RUNNER, s, es), Total(s, es))
    decreases |es|
  {
    if es != [] {
      StepAdds(s, es[0]);
      HistoryAdds(Step(s, es[0]).s, es[1..]);
      WentUpTwice(s, Step(s, es[0]).s, After(RUNNER, s, es), Adds(s, es[0]), Total(Step(s, es[0]).s, es[1..]));
    } else {
      assert Total(s, es) == NOTHING_YET;
    }
  }

  // ---- ping() ----

  /** What the host unpacks from the forty bytes of a status. */
  datatype HostCounters = HostCounters(state: byte, version: byte, rx: word, tx: word, rxOverrun: word, badMagic: word,
                                       badVersion: word, badCrc: word, lengthError: word, sequenceError: word,
                                       resync: word)

  function Unpack(p: Payload): HostCounters
    requires |p| >= 40
  {
    HostCounters(p[0], p[1], Rd32(p, 4), Rd32(p, 8), Rd32(p, 12), Rd32(p, 16), Rd32(p, 20), Rd32(p, 24), Rd32(p, 28),
                 Rd32(p, 32), Rd32(p, 36))
  }

  lemma StatusReads(s: State)
    ensures var c, h := s.counters, Unpack(Status(s));
      h == HostCounters(PhaseCode(s.phase), RUNNER_VERSION, c.rxBytes, c.txBytes, c.rxOverrun, c.badMagic, c.badVersion,
                        c.badCrc, c.lengthError, c.sequenceError, c.resync)
  {
    var c, p := s.counters, Status(s);
    var ws := [c.rxBytes, c.txBytes, c.rxOverrun, c.badMagic, c.badVersion, c.badCrc, c.lengthError, c.sequenceError,
               c.resync];
    assert p[4..4 + 4 * |ws|] == Words(ws);
    ReadWordsBack(p, 4, ws);
    var rs := ReadWords(p, 4, 9);
    assert rs[0] == Rd32(p, 4) && rs[1] == Rd32(p, 8) && rs[2] == Rd32(p, 12) && rs[3] == Rd32(p, 16);
    assert rs[4] == Rd32(p, 20) && rs[5] == Rd32(p, 24) && rs[6] == Rd32(p, 28) && rs[7] == Rd32(p, 32);
    assert rs[8] == Rd32(p, 36);
  }

  /** The counters a status reports, the host having taken `n` bytes and `k` resynchronisations more to ask for it. */
  predicate Reported(h: HostCounters, p: Phase, t: Tally, n: nat, k: nat) {
    && HostPhase(h.state) == Some(p) && h.version == 1
    && h.rx == (t.rx + n) % U32 && h.tx == t.tx % U32 && h.rxOverrun == t.overruns % U32
    && h.badMagic == (t.resyncs + k) % U32 && h.resync == (t.resyncs + k) % U32
    && h.badVersion == t.versions % U32 && h.badCrc == t.crcs % U32 && h.lengthError == t.lengths % U32
    && h.sequenceError == t.mismatches % U32
  }

  lemma CountersFromBoot(mem: Space, s: State, t: Tally, consumed: nat, resyncs: nat)
    requires WentUp(Booted(mem), s, t)
    ensures Reported(Unpack(Status(Received(s, consumed, resyncs))), s.phase, t, consumed, resyncs)
  {
    var r := Received(s, consumed, resyncs);
    StatusReads(r);
    PhaseComesBack(s.phase);
    ReceivingAdds(s, consumed, resyncs);
    WentUpTwice(Booted(mem), s, r, t, NOTHING_YET.(rx := consumed, resyncs := resyncs));
  }

  lemma StepOfPing(s: State, g: Event)
    requires Sound(s) && Possible(s, g) && (IsRequest(g, CMD_PING) || IsRequest(g, CMD_GET_STATE))
    ensures Step(s, g).out
         == [Ack(g.heard.command, g.heard.sequence, Status(Received(s, g.consumed, g.resyncs)))]
  {
  }

  /**
   ping() tells the truth: after any history from boot, the host unpacks the phase the machine is in, and of every kind
   of byte and error exactly as many as there have been, modulo 2^32, the bytes of the question included.
   */
  lemma PingTellsHistory(mem: Space, es: seq<Event>, g: Event)
    requires Can(RUNNER, Booted(mem), es) && Possible(After(RUNNER, Booted(mem), es), g)
    requires IsRequest(g, CMD_PING) || IsRequest(g, CMD_GET_STATE)
    ensures var s := After(RUNNER, Booted(mem), es);
      && |Step(s, g).out| == 1 && Step(s, g).out[0].command == g.heard.command + 0x80
      && |Step(s, g).out[0].payload| == 40
      && Reported(Unpack(Step(s, g).out[0].payload), s.phase, Total(Booted(mem), es), g.consumed, g.resyncs)
  {
    var s := After(RUNNER, Booted(mem), es);
    EveryHistory(mem, es);
    HistoryAdds(Booted(mem), es);
    StepOfPing(s, g);
    CountersFromBoot(mem, s, Total(Booted(mem), es), g.consumed, g.resyncs);
  }
}
