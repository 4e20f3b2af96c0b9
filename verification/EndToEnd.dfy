/** Host and firmware together: the upload and the RUN of one end against the machine of the other. */
module EndToEnd {
  import opened Bytes
  import opened Frames
  import opened HostStream
  import opened HostRecord
  import opened Measurement
  import opened Memory
  import opened Runner
  import opened RunHistory
  import opened Upload
  import opened FirmwareParser
  import Firmware
  import HostLink
  import Histories
  import RunRecord

  // ---- bytes and frames ----

  lemma {:induction false} ScanWire(fs: seq<Frame>)
    ensures FramesOf(Scan(Firmware.Wire(fs)).items) == fs
  {
    if fs != [] {
      ScanWire(fs[1..]);
      ScanFrame(fs[0], Firmware.Wire(fs[1..]));
    }
  }

  predicate OurVersion(fs: seq<Frame>) {
    forall i :: 0 <= i < |fs| ==> fs[i].version == RUNNER_VERSION
  }

  function HeardOf(f: Frame): Heard { Request(f.command, f.sequence, f.payload) }

  /** One frame in front of others is the first thing heard. */
  lemma HearsFirst(f: Frame, tail: seq<byte>)
    requires f.version == RUNNER_VERSION
    ensures HearAll(Encode(f) + tail) == [HeardOf(f)] + HearAll(tail)
  {
    assert MagicFree([]);
    HearsStep([], f, tail);
    assert [] + (Encode(f) + tail) == Encode(f) + tail;
  }

  lemma HearsNothing()
    ensures HearAll([]) == []
  {
    assert MagicFree([]);
    SyncStopsAtFirstMagic([]);
  }

  /** Exactly these requests. */
  predicate HeardAs(hs: seq<Heard>, fs: seq<Frame>) {
    |hs| == |fs| && forall i :: 0 <= i < |fs| ==> hs[i] == HeardOf(fs[i])
  }

  lemma HeardAsNext(f: Frame, hs: seq<Heard>, fs: seq<Frame>)
    requires HeardAs(hs, fs)
    ensures HeardAs([HeardOf(f)] + hs, [f] + fs)
  {
  }

  /** What the host writes, frame after frame, the firmware hears, request after request. */
  lemma {:induction false} HearsWire(fs: seq<Frame>)
    requires OurVersion(fs)
    ensures HeardAs(HearAll(Firmware.Wire(fs)), fs)
    decreases |fs|
  {
    if fs == [] {
      HearsNothing();
    } else {
      HearsWire(fs[1..]);
      HearsFirst(fs[0], Firmware.Wire(fs[1..]));
      HeardAsNext(fs[0], HearAll(Firmware.Wire(fs[1..])), fs[1..]);
      assert [fs[0]] + fs[1..] == fs;
    }
  }

  lemma {:induction false} NumberedIsOurs(cs: seq<Command>, last: word)
    ensures OurVersion(Numbered(cs, last))
    decreases |cs|
  {
    if cs != [] {
      NumberedIsOurs(cs[1..], Add32(last, 1));
    }
  }

  // ---- the upload, at the host ----

  /** A reply the host accepts: an answer with the words it unpacks. */
  predicate Succeeds(r: HostLink.Reply, command: byte) {
    r.Answer? && |r.frame.payload| >= Unpacked(command)
  }

  /** What a series of requests makes of the frames that arrive: whether all succeed, and the frames left unread. */
  function Exchange(fs: seq<Frame>, cs: seq<Command>, last: word): (bool, seq<Frame>)
    requires forall i :: 0 <= i < |cs| ==> cs[i].code < 0x80
    decreases |cs|
  {
    if cs == [] then (true, fs)
    else
      var (r, left) := HostLink.Await(fs, Add32(last, 1), cs[0].code);
      if Succeeds(r, cs[0].code) then Exchange(left, cs[1..], Add32(last, 1)) else (false, left)
  }

  predicate Sendable(cs: seq<Command>) {
    forall i :: 0 <= i < |cs| ==> cs[i].code < 0x7F
  }

  lemma SendableNext(c: Command, rest: seq<Command>)
    ensures Sendable([c] + rest) <==> c.code < 0x7F && Sendable(rest)
  {
    if Sendable([c] + rest) {
      assert ([c] + rest)[0] == c && forall i :: 0 <= i < |rest| ==> rest[i] == ([c] + rest)[i + 1];
    }
  }

  lemma ChunksNext(blob: seq<byte>, off: nat)
    requires off < |blob| < U32
    ensures ChunkCommands(blob, off) + CLOSING
         == [ChunkCommand(blob, off)] + (ChunkCommands(blob, off + ChunkSize(blob, off)) + CLOSING)
  {
  }

  lemma {:induction false} ChunksAreSendable(blob: seq<byte>, off: nat)
    requires off <= |blob| < U32
    ensures Sendable(ChunkCommands(blob, off) + CLOSING)
    decreases |blob| - off
  {
    if off == |blob| {
      assert ChunkCommands(blob, off) + CLOSING == CLOSING;
    } else {
      ChunksAreSendable(blob, off + ChunkSize(blob, off));
      ChunksNext(blob, off);
      SendableNext(ChunkCommand(blob, off), ChunkCommands(blob, off + ChunkSize(blob, off)) + CLOSING);
    }
  }

  /** One request of the upload. */
  method Ask(link: HostLink.RunnerLink, c: Command, ghost rest: seq<Command>) returns (ok: bool)
    requires Sendable([c] + rest) && Sendable(rest)
    modifies link`seqNo, link`buf, link`textLog, link`resyncs, link.ser
    ensures link.seqNo == Add32(old(link.seqNo), 1)
    ensures link.ser.written == old(link.ser.written) + Firmware.Wire(Numbered([c], old(link.seqNo)))
    ensures Exchange(old(link.Coming()), [c] + rest, old(link.seqNo))
         == if ok then Exchange(link.Coming(), rest, link.seqNo) else (false, link.Coming())
  {
    assert ([c] + rest)[0] == c && ([c] + rest)[1..] == rest;
    var r := link.Request(c.code, c.payload);
    ok := r.Answer? && |r.frame.payload| >= Unpacked(c.code);
    Firmware.WireOne(Frame(RUNNER_VERSION, c.code, 0, link.seqNo, c.payload));
    assert [c][1..] == [];
  }

  /** The bytes of a request and of those that follow it. */
  lemma WireNext(sent: seq<byte>, c: Command, rest: seq<Command>, last: word)
    ensures sent + Firmware.Wire(Numbered([c] + rest, last))
         == sent + Firmware.Wire(Numbered([c], last)) + Firmware.Wire(Numbered(rest, Add32(last, 1)))
  {
  }

  /** What is still to be asked, and what will have been exchanged and written when all of it has succeeded. */
  ghost predicate Remains(link: HostLink.RunnerLink, cs: seq<Command>, goal: (bool, seq<Frame>), all: seq<byte>)
    reads link, link.ser
  {
    Sendable(cs) && Exchange(link.Coming(), cs, link.seqNo) == goal
    && link.ser.written + Firmware.Wire(Numbered(cs, link.seqNo)) == all
  }

  method AskNext(link: HostLink.RunnerLink, c: Command, ghost rest: seq<Command>, ghost goal: (bool, seq<Frame>),
                 ghost all: seq<byte>)
    returns (ok: bool)
    requires Remains(link, [c] + rest, goal, all)
    modifies link`seqNo, link`buf, link`textLog, link`resyncs, link.ser
    ensures if ok then Remains(link, rest, goal, all) else (false, link.Coming()) == goal
  {
    WireNext(link.ser.written, c, rest, link.seqNo);
    SendableNext(c, rest);
    ok := Ask(link, c, rest);
  }

  /** The loop over offsets. */
  method SendChunks(link: HostLink.RunnerLink, blob: seq<byte>, ghost goal: (bool, seq<Frame>), ghost all: seq<byte>)
    returns (ok: bool)
    requires |blob| < U32 && Remains(link, ChunkCommands(blob, 0) + CLOSING, goal, all)
    modifies link`seqNo, link`buf, link`textLog, link`resyncs, link.ser
    ensures if ok then Remains(link, CLOSING, goal, all) else (false, link.Coming()) == goal
  {
    var off := 0;
    while off < |blob|
      invariant off <= |blob| && Remains(link, ChunkCommands(blob, off) + CLOSING, goal, all)
    {
      ChunksNext(blob, off);
      ghost var rest := ChunkCommands(blob, off + ChunkSize(blob, off)) + CLOSING;
      ok := AskNext(link, ChunkCommand(blob, off), rest, goal, all);
      if !ok {
        return;
      }
      off := off + ChunkSize(blob, off);
    }
    assert ChunkCommands(blob, off) + CLOSING == CLOSING;
    ok := true;
  }

  lemma PrimeIsSendable(blob: seq<byte>)
    requires |blob| < U32
    ensures Sendable(PrimeCommands(blob))
  {
    ChunksAreSendable(blob, 0);
    SendableNext(BeginCommand(blob), ChunkCommands(blob, 0) + CLOSING);
  }

  /** prime: BEGIN, the chunks in order, END, and an empty input; the first refusal or silence ends it. */
  method Prime(link: HostLink.RunnerLink, blob: seq<byte>) returns (ok: bool)
    requires |blob| < U32
    modifies link`seqNo, link`buf, link`textLog, link`resyncs, link.ser
    ensures Sendable(PrimeCommands(blob))
    ensures (ok, link.Coming()) == Exchange(old(link.Coming()), PrimeCommands(blob), old(link.seqNo))
    ensures ok ==>
      link.ser.written == old(link.ser.written) + Firmware.Wire(Numbered(PrimeCommands(blob), old(link.seqNo)))
  {
    PrimeIsSendable(blob);
    ghost var goal := Exchange(link.Coming(), PrimeCommands(blob), link.seqNo);
    ghost var all := link.ser.written + Firmware.Wire(Numbered(PrimeCommands(blob), link.seqNo));
    ok := AskNext(link, BeginCommand(blob), ChunkCommands(blob, 0) + CLOSING, goal, all);
    if ok {
      ok := SendChunks(link, blob, goal, all);
    }
    if ok {
      ok := Close(link, goal, all);
    }
  }

  method Close(link: HostLink.RunnerLink, ghost goal: (bool, seq<Frame>), ghost all: seq<byte>) returns (ok: bool)
    requires Remains(link, CLOSING, goal, all)
    modifies link`seqNo, link`buf, link`textLog, link`resyncs, link.ser
    ensures (ok, link.Coming()) == goal && (ok ==> link.ser.written == all)
  {
    assert CLOSING == [Command(CMD_LOAD_MODEL_END, [])] + [Command(CMD_LOAD_INPUT, [])];
    ok := AskNext(link, Command(CMD_LOAD_MODEL_END, []), [Command(CMD_LOAD_INPUT, [])], goal, all);
    if ok {
      assert [Command(CMD_LOAD_INPUT, [])] == [Command(CMD_LOAD_INPUT, [])] + [];
      ok := AskNext(link, Command(CMD_LOAD_INPUT, []), [], goal, all);
    }
  }

  // ---- both ends ----

  /** Acknowledgements that arrive in order make a series of requests succeed. */
  lemma {:induction false} AcksSucceed(gs: seq<Frame>, cs: seq<Command>, last: word)
    requires Sendable(cs) && AllAcknowledged(gs, Numbered(cs, last))
    ensures Exchange(gs, cs, last) == (true, [])
    decreases |cs|
  {
    if cs != [] {
      SendableNext(cs[0], cs[1..]);
      assert [cs[0]] + cs[1..] == cs;
      assert Acknowledges(gs[0], Numbered(cs, last)[0]);
      assert forall i :: 0 <= i < |cs| - 1 ==> Numbered(cs, last)[i + 1] == Numbered(cs[1..], Add32(last, 1))[i];
      AcksSucceed(gs[1..], cs[1..], Add32(last, 1));
    }
  }

  /** Events that bring what the firmware hears in some bytes. */
  predicate Hearing(es: seq<Event>, bytes: seq<byte>) {
    |es| == |HearAll(bytes)| && forall i :: 0 <= i < |es| ==> es[i].heard == HearAll(bytes)[i] && ValidEnv(es[i].env)
  }

  lemma HearingDelivers(es: seq<Event>, cs: seq<Command>, last: word)
    requires Hearing(es, Firmware.Wire(Numbered(cs, last)))
    ensures AllDelivered(es, Numbered(cs, last))
  {
    NumberedIsOurs(cs, last);
    HearsWire(Numbered(cs, last));
  }

  /** What the host reads in the bytes of some frames. */
  function Reads(fs: seq<Frame>): seq<Frame> { FramesOf(Scan(Firmware.Wire(fs)).items) }

  /**
   The upload works end to end: the bytes the host writes, heard by the firmware in a state that accepts an upload,
   leave the blob staged and the machine ready to run; and the bytes the firmware writes back satisfy every request.
   */
  lemma UploadWorks(s: State, es: seq<Event>, blob: seq<byte>, last: word) returns (t: State)
    requires Sound(s) && Accepts(s.phase, CMD_LOAD_MODEL_BEGIN) && 1 <= |blob| <= STAGING_SIZE
    requires Hearing(es, Firmware.Wire(Numbered(PrimeCommands(blob), last)))
    ensures Converses(s, es, Numbered(PrimeCommands(blob), last), t) && Uploaded(t, blob, InputReady)
    ensures Sendable(PrimeCommands(blob))
    ensures Exchange(Reads(Histories.Log(TALKING, s, es)), PrimeCommands(blob), last) == (true, [])
  {
    HearingDelivers(es, PrimeCommands(blob), last);
    t := UploadDelivers(s, es, blob, last);
    PrimeIsSendable(blob);
    ScanWire(Histories.Log(TALKING, s, es));
    AcksSucceed(Histories.Log(TALKING, s, es), PrimeCommands(blob), last);
  }

  /** The RUN request the host writes. */
  function RunRequest(sequence: word): Frame { Frame(RUNNER_VERSION, CMD_RUN, 0, sequence, []) }

  lemma RunRequestHeard(e: Event, sequence: word)
    requires Hearing([e], Firmware.Wire([RunRequest(sequence)]))
    ensures e.heard == Request(CMD_RUN, sequence, [])
  {
    HearsWire([RunRequest(sequence)]);
    assert [e][0] == e;
  }

  /** A run's own two frames complete it at the host. */
  lemma RunFramesComplete(sequence: word, o: RunRecord.Outcome, r: Record)
    requires |r.basic| == KNOWN_FIELDS
    ensures HostLink.Completes([RunAck(sequence), RunCompleteFrame(sequence, o, r)], sequence, 0, 1, o.rc)
  {
    RunCompleteRoundTrip(o.runSequence, o.flags, o.rc, r);
  }

  /**
   RUN works end to end: the request the host writes is heard as one, and if the firmware accepts it, it transmits
   exactly the ACK and the RUN_COMPLETE, on which the host returns the code the vendor's test returned.
   */
  lemma RunWorks(s: State, e: Event, sequence: word)
    requires Possible(s, e) && IsRun(s, e) && Hearing([e], Firmware.Wire([RunRequest(sequence)]))
    ensures |Step(s, e).out| == 2 && Reads(Step(s, e).out) == Step(s, e).out
    ensures HostLink.RunOn(Reads(Step(s, e).out), sequence, false).result == HostLink.Returned(e.env.run.rc)
  {
    RunRequestHeard(e, sequence);
    StepOfARun(s, e);
    var r := Received(s, e.consumed, e.resyncs);
    ScanWire(Step(s, e).out);
    var o := RunOutcome(r, e.env.run);
    RunFramesComplete(sequence, o, RecordOf(r, e.env.run));
    HostLink.CompletesReturns(Step(s, e).out, sequence, 0, 1, o.rc);
  }
}
