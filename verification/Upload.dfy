/** Uploading a blob: the host's loop over chunks, and what the firmware has staged when it is done. */
module Upload {
  import opened Bytes
  import opened Crc32
  import opened Frames
  import opened Memory
  import opened Runner
  import opened RunHistory
  import opened Histories

  const CHUNK: nat := 4092

  // ---- what the host sends ----

  datatype Command = Command(code: byte, payload: Payload)

  function ChunkSize(blob: seq<byte>, off: nat): (n: nat)
    requires off < |blob|
    ensures 1 <= n <= CHUNK && off + n <= |blob|
  {
    if |blob| - off < CHUNK then |blob| - off else CHUNK
  }

  function ChunkCommand(blob: seq<byte>, off: nat): Command
    requires off < |blob| < U32
  {
    Command(CMD_LOAD_MODEL_CHUNK, Le32(off) + blob[off..off + ChunkSize(blob, off)])
  }

  function ChunkCommands(blob: seq<byte>, off: nat): seq<Command>
    requires off <= |blob| < U32
    decreases |blob| - off
  {
    if off == |blob| then [] else [ChunkCommand(blob, off)] + ChunkCommands(blob, off + ChunkSize(blob, off))
  }

  /** As few chunks as payloads of 4096 bytes, four of them the offset, allow. */
  lemma {:induction false} FewChunks(blob: seq<byte>, off: nat)
    requires off <= |blob| < U32
    ensures |ChunkCommands(blob, off)| == (|blob| - off + 4091) / 4092
    decreases |blob| - off
  {
    if off < |blob| {
      FewChunks(blob, off + ChunkSize(blob, off));
    }
  }

  function BeginCommand(blob: seq<byte>): Command
    requires |blob| < U32
  {
    Command(CMD_LOAD_MODEL_BEGIN, Le32(|blob|) + Le32(Crc(blob)))
  }

  const CLOSING: seq<Command> := [Command(CMD_LOAD_MODEL_END, []), Command(CMD_LOAD_INPUT, [])]

  /** prime: the whole upload, and an empty input. */
  function PrimeCommands(blob: seq<byte>): seq<Command>
    requires |blob| < U32
  {
    [BeginCommand(blob)] + (ChunkCommands(blob, 0) + CLOSING)
  }

  /** The frames of a series of requests, the last one before them having had the number `last`. */
  function Numbered(cs: seq<Command>, last: word): (fs: seq<Frame>)
    ensures |fs| == |cs|
  {
    if cs == [] then []
    else [Frame(RUNNER_VERSION, cs[0].code, 0, Add32(last, 1), cs[0].payload)] + Numbered(cs[1..], Add32(last, 1))
  }

  /** The number of the last request of a series. */
  function Last(cs: seq<Command>, last: word): word {
    if cs == [] then last else Last(cs[1..], Add32(last, 1))
  }

  lemma {:induction false} NumberedAppend(a: seq<Command>, b: seq<Command>, last: word)
    ensures Numbered(a + b, last) == Numbered(a, last) + Numbered(b, Last(a, last))
    decreases |a|
  {
    if a == [] {
      assert a + b == b;
    } else {
      assert (a + b)[1..] == a[1..] + b;
      NumberedAppend(a[1..], b, Add32(last, 1));
    }
  }

  // ---- what the firmware makes of it ----

  predicate Delivers(e: Event, f: Frame) {
    e.heard == Request(f.command, f.sequence, f.payload) && ValidEnv(e.env)
  }

  /** Events that bring exactly these frames, whatever noise was skipped to find them. */
  predicate AllDelivered(es: seq<Event>, fs: seq<Frame>) {
    |es| == |fs| && forall i :: 0 <= i < |es| ==> Delivers(es[i], fs[i])
  }

  /** How much of a reply's payload the host unpacks. */
  function Unpacked(command: byte): nat { if command == CMD_LOAD_INPUT then 4 else 12 }

  predicate Acknowledges(g: Frame, f: Frame) {
    f.command < 0x7F && g.command == f.command + 0x80 && g.sequence == f.sequence && |g.payload| >= Unpacked(f.command)
  }

  predicate AllAcknowledged(gs: seq<Frame>, fs: seq<Frame>) {
    |gs| == |fs| && forall i :: 0 <= i < |gs| ==> Acknowledges(gs[i], fs[i])
  }

  /** `off` bytes of the blob are staged, the last chunk having had the number `last`. */
  predicate StagedUpTo(s: State, blob: seq<byte>, off: nat, last: word) {
    && Sound(s) && s.phase == Loading && off <= |blob| <= STAGING_SIZE && s.model.total == |blob|
    && s.model.expectedCrc == Crc(blob) && s.model.staged == off && Load(s.mem, STAGING_BASE, off) == blob[..off]
    && (s.lastChunk.Some? ==> s.lastChunk.value.sequence == last)
  }

  lemma RequestsArePossible(s: State, e: Event, f: Frame)
    requires Sound(s) && Delivers(e, f) && f.command != CMD_RUN
    ensures Possible(s, e)
  {
  }

  lemma StepOfRequest(s: State, e: Event, f: Frame)
    requires Possible(s, e) && Delivers(e, f) && Known(f.command) && Accepts(s.phase, f.command)
    ensures var r := Received(s, e.consumed, e.resyncs);
      && (f.command == CMD_LOAD_MODEL_BEGIN ==> Step(s, e) == LoadModelBegin(r, f.sequence, f.payload))
      && (f.command == CMD_LOAD_MODEL_CHUNK ==> Step(s, e) == LoadModelChunk(r, f.sequence, f.payload))
      && (f.command == CMD_LOAD_MODEL_END ==> Step(s, e) == LoadModelEnd(r, f.sequence))
      && (f.command == CMD_LOAD_INPUT ==> Step(s, e) == LoadInput(r, f.sequence, f.payload))
  {
  }

  lemma BeginReads(blob: seq<byte>)
    requires |blob| < U32
    ensures Rd32(BeginCommand(blob).payload, 0) == |blob| && Rd32(BeginCommand(blob).payload, 4) == Crc(blob)
  {
  }

  lemma BeginStages(r: State, blob: seq<byte>, sequence: word)
    requires Sound(r) && 1 <= |blob| <= STAGING_SIZE
    ensures var d := LoadModelBegin(r, sequence, BeginCommand(blob).payload);
      StagedUpTo(d.s, blob, 0, sequence) && |d.out| == 1 && d.out[0] == Ack(CMD_LOAD_MODEL_BEGIN, sequence,
                 Triple(|blob|, STAGING_BASE, STAGING_SIZE))
  {
    BeginReads(blob);
    BeginAccepted(r, sequence, BeginCommand(blob).payload);
    assert blob[..0] == [] == Load(r.mem, STAGING_BASE, 0);
  }

  /** A model of a length that fits is announced and acknowledged. */
  lemma BeginAccepted(r: State, sequence: word, payload: Payload)
    requires Sound(r) && |payload| == 8 && 1 <= Rd32(payload, 0) <= STAGING_SIZE
    ensures var d, total := LoadModelBegin(r, sequence, payload), Rd32(payload, 0);
      && d.out == [Ack(CMD_LOAD_MODEL_BEGIN, sequence, Triple(total, STAGING_BASE, STAGING_SIZE))]
      && Sound(d.s) && d.s.phase == Loading && d.s.mem == r.mem && d.s.lastChunk.None?
      && d.s.model == Model(total, Rd32(payload, 4), 0, 0)
  {
  }

  lemma ChunkReads(blob: seq<byte>, off: nat)
    requires off < |blob| < U32
    ensures var p := ChunkCommand(blob, off).payload;
      |p| == ChunkSize(blob, off) + 4 && Rd32(p, 0) == off && p[4..] == blob[off..off + ChunkSize(blob, off)]
  {
  }

  lemma GrowsBy(m: Space, blob: seq<byte>, off: nat, n: nat)
    requires off + n <= |blob| <= STAGING_SIZE && Load(m, STAGING_BASE, off) == blob[..off]
    ensures Load(Store(m, STAGING_BASE + off, blob[off..off + n]), STAGING_BASE, off + n) == blob[..off + n]
  {
  }

  /** A chunk under a fresh number that fits is stored and acknowledged. */
  lemma ChunkIsNew(r: State, sequence: word, payload: Payload)
    requires r.model.total <= STAGING_SIZE && |payload| > 4 && Rd32(payload, 0) + |payload| - 4 <= r.model.total
    requires r.lastChunk.Some? ==> r.lastChunk.value.sequence != sequence
    ensures var d, data := LoadModelChunk(r, sequence, payload), payload[4..];
      && |d.out| == 1 && d.out[0].command == CMD_LOAD_MODEL_CHUNK + 0x80 && d.out[0].sequence == sequence
      && |d.out[0].payload| == 12
      && d.s.mem == Store(r.mem, STAGING_BASE + Rd32(payload, 0), data)
      && d.s.model == r.model.(staged := Add32(r.model.staged, |data|)) && d.s.phase == r.phase
      && d.s.lastChunk.Some? && d.s.lastChunk.value.sequence == sequence
  {
    ChunkFitsIffInside(r.model.total, Rd32(payload, 0), |payload| - 4);
  }

  lemma NumbersDiffer(last: word)
    ensures Add32(last, 1) != last
  {
  }

  lemma ChunkStages(r: State, blob: seq<byte>, off: nat, last: word)
    requires StagedUpTo(r, blob, off, last) && off < |blob|
    ensures var d := LoadModelChunk(r, Add32(last, 1), ChunkCommand(blob, off).payload);
      && StagedUpTo(d.s, blob, off + ChunkSize(blob, off), Add32(last, 1))
      && |d.out| == 1 && d.out[0].command == CMD_LOAD_MODEL_CHUNK + 0x80 && d.out[0].sequence == Add32(last, 1)
      && |d.out[0].payload| == 12
  {
    var n, p := ChunkSize(blob, off), ChunkCommand(blob, off).payload;
    NumbersDiffer(last);
    ChunkReads(blob, off);
    DataStages(r, blob, off, n, last, Add32(last, 1), p);
  }

  lemma DataStages(r: State, blob: seq<byte>, off: nat, n: nat, last: word, sequence: word, payload: Payload)
    requires StagedUpTo(r, blob, off, last) && sequence != last && 1 <= n && off + n <= |blob|
    requires |payload| == n + 4 && Rd32(payload, 0) == off && payload[4..] == blob[off..off + n]
    ensures var d := LoadModelChunk(r, sequence, payload);
      && StagedUpTo(d.s, blob, off + n, sequence)
      && |d.out| == 1 && d.out[0].command == CMD_LOAD_MODEL_CHUNK + 0x80 && d.out[0].sequence == sequence
      && |d.out[0].payload| == 12
  {
    var data := blob[off..off + n];
    var t := StoredChunk(r, sequence, payload, data);
    assert |data| == n;
    GrowsBy(r.mem, blob, off, n);
    StagedMore(r, t, blob, off, n, last, sequence);
  }

  lemma StoredChunk(r: State, sequence: word, payload: Payload, data: seq<byte>) returns (t: State)
    requires Sound(r) && r.phase == Loading && |payload| > 4 && Rd32(payload, 0) + |payload| - 4 <= r.model.total
    requires data == payload[4..]
    requires r.lastChunk.Some? ==> r.lastChunk.value.sequence != sequence
    ensures t == LoadModelChunk(r, sequence, payload).s && Sound(t) && t.phase == Loading
    ensures STAGING_BASE + Rd32(payload, 0) + |data| <= U32
    ensures t.mem == Store(r.mem, STAGING_BASE + Rd32(payload, 0), data)
    ensures t.model == r.model.(staged := Add32(r.model.staged, |data|)) && t.lastChunk.Some?
    ensures t.lastChunk.value.sequence == sequence
    ensures var d := LoadModelChunk(r, sequence, payload);
      && |d.out| == 1 && d.out[0].command == CMD_LOAD_MODEL_CHUNK + 0x80
      && d.out[0].sequence == sequence && |d.out[0].payload| == 12
  {
    ChunkIsNew(r, sequence, payload);
    ChunkKeeps(r, sequence, payload);
    t := LoadModelChunk(r, sequence, payload).s;
  }

  lemma StagedMore(r: State, t: State, blob: seq<byte>, off: nat, n: nat, last: word, sequence: word)
    requires StagedUpTo(r, blob, off, last) && Sound(t) && t.phase == Loading && off + n <= |blob|
    requires t.model == r.model.(staged := Add32(r.model.staged, n)) && t.lastChunk.Some?
    requires t.lastChunk.value.sequence == sequence
    requires Load(t.mem, STAGING_BASE, off + n) == blob[..off + n]
    ensures StagedUpTo(t, blob, off + n, sequence)
  {
  }

  // ---- one request at a time ----

  lemma BeginAnswered(s: State, e: Event, blob: seq<byte>, last: word)
    requires Sound(s) && Accepts(s.phase, CMD_LOAD_MODEL_BEGIN) && 1 <= |blob| <= STAGING_SIZE
    requires Delivers(e, Numbered([BeginCommand(blob)], last)[0])
    ensures Possible(s, e) && StagedUpTo(Step(s, e).s, blob, 0, Add32(last, 1))
    ensures |Step(s, e).out| == 1 && Acknowledges(Step(s, e).out[0], Numbered([BeginCommand(blob)], last)[0])
  {
    var f := Numbered([BeginCommand(blob)], last)[0];
    RequestsArePossible(s, e, f);
    StepOfRequest(s, e, f);
    ReceivingCounts(s, e);
    BeginStages(Received(s, e.consumed, e.resyncs), blob, f.sequence);
  }

  lemma ReceivedStaged(s: State, blob: seq<byte>, off: nat, last: word, consumed: nat, resyncs: nat)
    requires StagedUpTo(s, blob, off, last)
    ensures StagedUpTo(Received(s, consumed, resyncs), blob, off, last)
  {
  }

  lemma ChunkAnswered(s: State, e: Event, f: Frame, blob: seq<byte>, off: nat, last: word)
    requires StagedUpTo(s, blob, off, last) && off < |blob| && Delivers(e, f)
    requires f.command == CMD_LOAD_MODEL_CHUNK && f.sequence == Add32(last, 1)
    requires f.payload == ChunkCommand(blob, off).payload
    ensures Possible(s, e) && StagedUpTo(Step(s, e).s, blob, off + ChunkSize(blob, off), Add32(last, 1))
    ensures |Step(s, e).out| == 1 && Acknowledges(Step(s, e).out[0], f)
  {
    RequestsArePossible(s, e, f);
    StepOfRequest(s, e, f);
    ReceivedStaged(s, blob, off, last, e.consumed, e.resyncs);
    ChunkStages(Received(s, e.consumed, e.resyncs), blob, off, last);
  }

  /** The blob is staged, verified, and a RUN would be accepted. */
  predicate Uploaded(s: State, blob: seq<byte>, phase: Phase) {
    Sound(s) && s.phase == phase && s.model.total == |blob| && s.model.staged == |blob| && StagedModel(s) == blob
  }

  lemma EndAnswered(s: State, e: Event, f: Frame, blob: seq<byte>, last: word)
    requires StagedUpTo(s, blob, |blob|, last) && Delivers(e, f) && f.command == CMD_LOAD_MODEL_END
    ensures Possible(s, e) && Uploaded(Step(s, e).s, blob, ModelReady)
    ensures |Step(s, e).out| == 1 && Acknowledges(Step(s, e).out[0], f)
  {
    assert blob[..|blob|] == blob;
    RequestsArePossible(s, e, f);
    StepOfRequest(s, e, f);
    ReceivedStaged(s, blob, |blob|, last, e.consumed, e.resyncs);
    EndKeeps(Received(s, e.consumed, e.resyncs), f.sequence);
  }

  lemma InputAnswered(s: State, e: Event, f: Frame, blob: seq<byte>)
    requires Uploaded(s, blob, ModelReady) && Delivers(e, f) && f.command == CMD_LOAD_INPUT
    ensures Possible(s, e) && Uploaded(Step(s, e).s, blob, InputReady)
    ensures |Step(s, e).out| == 1 && Acknowledges(Step(s, e).out[0], f)
  {
    RequestsArePossible(s, e, f);
    StepOfRequest(s, e, f);
    ReceivingCounts(s, e);
    InputKeeps(Received(s, e.consumed, e.resyncs), f.sequence, f.payload);
  }

  // ---- the whole upload ----

  lemma AcknowledgedNext(g: Frame, gs: seq<Frame>, fs: seq<Frame>)
    requires fs != [] && Acknowledges(g, fs[0]) && AllAcknowledged(gs, fs[1..])
    ensures AllAcknowledged([g] + gs, fs)
  {
    assert forall i :: 0 < i < |fs| ==> fs[i] == fs[1..][i - 1];
  }

  lemma DeliveredNext(es: seq<Event>, fs: seq<Frame>)
    requires es != [] && AllDelivered(es, fs)
    ensures Delivers(es[0], fs[0]) && AllDelivered(es[1..], fs[1..])
  {
  }

  /** What a series of requests comes to: every one acknowledged, and the machine in state `t`. */
  predicate Converses(s: State, es: seq<Event>, fs: seq<Frame>, t: State) {
    Can(TALKING, s, es) && After(TALKING, s, es) == t && AllAcknowledged(Log(TALKING, s, es), fs)
  }

  lemma ConversesFirst(s: State, es: seq<Event>, fs: seq<Frame>, t: State)
    requires es != [] && fs != [] && Possible(s, es[0]) && |Step(s, es[0]).out| == 1
    requires Acknowledges(Step(s, es[0]).out[0], fs[0])
    requires Converses(Step(s, es[0]).s, es[1..], fs[1..], t)
    ensures Converses(s, es, fs, t)
  {
    var u := Step(s, es[0]).s;
    assert TALKING.can(s, es[0]) && TALKING.step(s, es[0]) == u && TALKING.logs(s, es[0]) == Step(s, es[0]).out;
    AcknowledgedNext(Step(s, es[0]).out[0], Log(TALKING, u, es[1..]), fs);
    assert Step(s, es[0]).out == [Step(s, es[0]).out[0]];
  }

  lemma {:induction false} ChunksDelivered(s: State, es: seq<Event>, fs: seq<Frame>, blob: seq<byte>, off: nat,
                                           last: word)
    returns (t: State)
    requires StagedUpTo(s, blob, off, last) && |blob| < U32
    requires fs == Numbered(ChunkCommands(blob, off), last) && AllDelivered(es, fs)
    ensures Converses(s, es, fs, t) && StagedUpTo(t, blob, |blob|, Last(ChunkCommands(blob, off), last))
    decreases |blob| - off
  {
    if off == |blob| {
      t := s;
    } else {
      DeliveredNext(es, fs);
      ChunkAnswered(s, es[0], fs[0], blob, off, last);
      var u := Step(s, es[0]).s;
      t := ChunksDelivered(u, es[1..], fs[1..], blob, off + ChunkSize(blob, off), Add32(last, 1));
      ConversesFirst(s, es, fs, t);
    }
  }

  lemma ClosingFrames(last: word)
    ensures Numbered(CLOSING, last) == [Frame(RUNNER_VERSION, CMD_LOAD_MODEL_END, 0, Add32(last, 1), []),
                                        Frame(RUNNER_VERSION, CMD_LOAD_INPUT, 0, Add32(Add32(last, 1), 1), [])]
  {
  }

  lemma ConversesOnce(s: State, e: Event, f: Frame)
    requires Possible(s, e) && |Step(s, e).out| == 1 && Acknowledges(Step(s, e).out[0], f)
    ensures Converses(s, [e], [f], Step(s, e).s)
  {
    var t := Step(s, e).s;
    assert [e][1..] == [] && [f][1..] == [];
    assert Converses(t, [], [], t);
    ConversesFirst(s, [e], [f], t);
  }

  lemma EndDelivered(s: State, e: Event, f: Frame, blob: seq<byte>, last: word) returns (u: State)
    requires StagedUpTo(s, blob, |blob|, last) && Delivers(e, f) && f.command == CMD_LOAD_MODEL_END
    ensures Converses(s, [e], [f], u) && Uploaded(u, blob, ModelReady)
  {
    EndAnswered(s, e, f, blob, last);
    ConversesOnce(s, e, f);
    u := Step(s, e).s;
  }

  lemma InputDelivered(s: State, e: Event, f: Frame, blob: seq<byte>) returns (t: State)
    requires Uploaded(s, blob, ModelReady) && Delivers(e, f) && f.command == CMD_LOAD_INPUT
    ensures Converses(s, [e], [f], t) && Uploaded(t, blob, InputReady)
  {
    InputAnswered(s, e, f, blob);
    ConversesOnce(s, e, f);
    t := Step(s, e).s;
  }

  lemma ClosingDelivered(s: State, es: seq<Event>, blob: seq<byte>, last: word) returns (t: State)
    requires StagedUpTo(s, blob, |blob|, last) && AllDelivered(es, Numbered(CLOSING, last))
    ensures Converses(s, es, Numbered(CLOSING, last), t) && Uploaded(t, blob, InputReady)
  {
    var e, e', f, f' := ClosingParts(es, last);
    var u := EndDelivered(s, e, f, blob, last);
    t := InputDelivered(u, e', f', blob);
    ConversesOn(s, [e], [e'], [f], [f'], u, t);
  }

  lemma ClosingParts(es: seq<Event>, last: word) returns (e: Event, e': Event, f: Frame, f': Frame)
    requires AllDelivered(es, Numbered(CLOSING, last))
    ensures es == [e] + [e'] && Numbered(CLOSING, last) == [f] + [f'] && Delivers(e, f) && Delivers(e', f')
    ensures f.command == CMD_LOAD_MODEL_END && f'.command == CMD_LOAD_INPUT
  {
    ClosingFrames(last);
    e, e', f, f' := es[0], es[1], Numbered(CLOSING, last)[0], Numbered(CLOSING, last)[1];
  }

  lemma AcknowledgedOn(ga: seq<Frame>, fa: seq<Frame>, gb: seq<Frame>, fb: seq<Frame>)
    requires AllAcknowledged(ga, fa) && AllAcknowledged(gb, fb)
    ensures AllAcknowledged(ga + gb, fa + fb)
  {
  }

  lemma ConversesOn(s: State, a: seq<Event>, b: seq<Event>, fa: seq<Frame>, fb: seq<Frame>, t: State, u: State)
    requires Converses(s, a, fa, t) && Converses(t, b, fb, u)
    ensures Converses(s, a + b, fa + fb, u)
  {
    InParts(TALKING, s, a, b);
    AcknowledgedOn(Log(TALKING, s, a), fa, Log(TALKING, t, b), fb);
  }

  lemma TwoParts<T>(es: seq<T>, n: nat)
    requires n <= |es|
    ensures es[..n] + es[n..] == es
  {
  }

  /** A conversation in two parts. */
  lemma InTwo(s: State, es: seq<Event>, fa: seq<Frame>, fb: seq<Frame>, u: State, t: State)
    requires |fa| <= |es| && Converses(s, es[..|fa|], fa, u) && Converses(u, es[|fa|..], fb, t)
    ensures Converses(s, es, fa + fb, t)
  {
    TwoParts(es, |fa|);
    ConversesOn(s, es[..|fa|], es[|fa|..], fa, fb, u, t);
  }

  lemma DeliveredParts(es: seq<Event>, fa: seq<Frame>, fb: seq<Frame>)
    requires AllDelivered(es, fa + fb)
    ensures AllDelivered(es[..|fa|], fa) && AllDelivered(es[|fa|..], fb)
  {
  }

  lemma PrimeFrames(blob: seq<byte>, last: word)
    requires |blob| < U32
    ensures var first, chunks := Add32(last, 1), ChunkCommands(blob, 0);
      && Numbered([BeginCommand(blob)], last)
         == [Frame(RUNNER_VERSION, CMD_LOAD_MODEL_BEGIN, 0, first, BeginCommand(blob).payload)]
      && Numbered(PrimeCommands(blob), last)
         == Numbered([BeginCommand(blob)], last) + (Numbered(chunks, first) + Numbered(CLOSING, Last(chunks, first)))
  {
    var begin, chunks := [BeginCommand(blob)], ChunkCommands(blob, 0);
    NumberedAppend(begin, chunks + CLOSING, last);
    assert begin[1..] == [];
    NumberedAppend(chunks, CLOSING, Add32(last, 1));
  }

  lemma BodyDelivered(s: State, es: seq<Event>, blob: seq<byte>, last: word) returns (t: State)
    requires StagedUpTo(s, blob, 0, last) && |blob| < U32
    requires AllDelivered(es, Numbered(ChunkCommands(blob, 0), last)
                              + Numbered(CLOSING, Last(ChunkCommands(blob, 0), last)))
    ensures Converses(s, es, Numbered(ChunkCommands(blob, 0), last)
                             + Numbered(CLOSING, Last(ChunkCommands(blob, 0), last)), t)
    ensures Uploaded(t, blob, InputReady)
  {
    var end := Last(ChunkCommands(blob, 0), last);
    var fa, fb := Numbered(ChunkCommands(blob, 0), last), Numbered(CLOSING, end);
    DeliveredParts(es, fa, fb);
    var u := ChunksDelivered(s, es[..|fa|], fa, blob, 0, last);
    t := ClosingDelivered(u, es[|fa|..], blob, end);
    InTwo(s, es, fa, fb, u, t);
  }

  /**
   For any blob that fits, in any state that accepts an upload, the host's requests are all acknowledged, staging holds
   the blob, and the machine is ready to run it.
   */
  lemma UploadDelivers(s: State, es: seq<Event>, blob: seq<byte>, last: word) returns (t: State)
    requires Sound(s) && Accepts(s.phase, CMD_LOAD_MODEL_BEGIN) && 1 <= |blob| <= STAGING_SIZE
    requires AllDelivered(es, Numbered(PrimeCommands(blob), last))
    ensures Converses(s, es, Numbered(PrimeCommands(blob), last), t) && Uploaded(t, blob, InputReady)
  {
    var f, fb := PrimeParts(blob, last);
    var e, rest := es[0], es[1..];
    DeliveredParts(es, [f], fb);
    assert es[..1] == [e];
    var u := BeginDelivered(s, e, f, blob, last);
    t := BodyDelivered(u, rest, blob, Add32(last, 1));
    InTwo(s, es, [f], fb, u, t);
  }

  lemma PrimeParts(blob: seq<byte>, last: word) returns (f: Frame, fb: seq<Frame>)
    requires |blob| < U32
    ensures f == Numbered([BeginCommand(blob)], last)[0] && Numbered(PrimeCommands(blob), last) == [f] + fb
    ensures var first := Add32(last, 1);
      fb == Numbered(ChunkCommands(blob, 0), first) + Numbered(CLOSING, Last(ChunkCommands(blob, 0), first))
  {
    PrimeFrames(blob, last);
    var first := Add32(last, 1);
    f := Numbered([BeginCommand(blob)], last)[0];
    fb := Numbered(ChunkCommands(blob, 0), first) + Numbered(CLOSING, Last(ChunkCommands(blob, 0), first));
    assert Numbered([BeginCommand(blob)], last) == [f];
  }

  lemma BeginDelivered(s: State, e: Event, f: Frame, blob: seq<byte>, last: word) returns (u: State)
    requires Sound(s) && Accepts(s.phase, CMD_LOAD_MODEL_BEGIN) && 1 <= |blob| <= STAGING_SIZE
    requires f == Numbered([BeginCommand(blob)], last)[0] && Delivers(e, f)
    ensures Converses(s, [e], [f], u) && StagedUpTo(u, blob, 0, Add32(last, 1))
  {
    BeginAnswered(s, e, blob, last);
    ConversesOnce(s, e, f);
    u := Step(s, e).s;
  }

  // ---- retransmission ----

  function ChunkOf(sequence: word, payload: Payload): Chunk
    requires |payload| >= 4
  {
    Chunk(sequence, Rd32(payload, 0), |payload| - 4, Crc(payload[4..]))
  }

  lemma AcceptedChunk(s: State, sequence: word, payload: Payload)
    requires s.model.total <= STAGING_SIZE
    ensures var d := LoadModelChunk(s, sequence, payload);
      && |d.out| == 1
      && (d.out[0].command == CMD_LOAD_MODEL_CHUNK + 0x80 ==>
            && |payload| > 4 && d.s.lastChunk == Some(ChunkOf(sequence, payload)) && d.s.model.total == s.model.total
            && d.out
               == [Ack(CMD_LOAD_MODEL_CHUNK, sequence, Triple(Rd32(payload, 0), |payload| - 4, d.s.model.staged))])
  {
  }

  lemma RepeatedIsAcknowledged(s: State, sequence: word, payload: Payload)
    requires s.model.total <= STAGING_SIZE && |payload| > 4 && s.lastChunk == Some(ChunkOf(sequence, payload))
    ensures LoadModelChunk(s, sequence, payload)
         == Acked(s, CMD_LOAD_MODEL_CHUNK, sequence, Triple(Rd32(payload, 0), |payload| - 4, s.model.staged))
  {
  }

  /** The same chunk again, right after it was accepted, is answered as it was and changes nothing but counters. */
  lemma RetransmissionChangesNothing(s: State, sequence: word, payload: Payload)
    requires s.model.total <= STAGING_SIZE
    ensures var once := LoadModelChunk(s, sequence, payload);
      && |once.out| == 1
      && (once.out[0].command == CMD_LOAD_MODEL_CHUNK + 0x80 ==>
            once.s.model.total == s.model.total
            && var twice := LoadModelChunk(once.s, sequence, payload);
               twice.out == once.out && twice.s == once.s.(counters := twice.s.counters))
  {
    AcceptedChunk(s, sequence, payload);
    var once := LoadModelChunk(s, sequence, payload);
    if once.out[0].command == CMD_LOAD_MODEL_CHUNK + 0x80 {
      RepeatedIsAcknowledged(once.s, sequence, payload);
    }
  }
}
