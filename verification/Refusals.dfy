/**
 Refusals at both ends: what the firmware refuses, the host reports as refused, and an upload says that it worked only
 when it did.
 */
module Refusals {
  import opened Bytes
  import opened Crc32
  import opened Frames
  import opened Memory
  import opened Runner
  import opened Histories
  import opened RunHistory
  import opened Upload
  import opened Answers
  import opened Requests
  import opened EndToEnd
  import HostLink

  // ---- one request ----

  /** The event brings this request. */
  predicate Asked(e: Event, command: byte, sequence: word) {
    e.heard.Request? && e.heard.command == command && e.heard.sequence == sequence
  }

  lemma FirstBehind(unread: seq<Frame>, own: seq<Frame>, later: seq<Frame>, sequence: word)
    requires NoneUnder(unread, sequence) && own != [] && own[0].sequence == sequence
    ensures FirstUnder(unread + (own + later), sequence, |unread|)
    ensures (unread + (own + later))[|unread|] == own[0]
  {
  }

  /** What the frames of an answer come to at the host, behind frames of other exchanges. */
  lemma ReplyBehind(unread: seq<Frame>, out: seq<Frame>, later: seq<Frame>, command: byte, sequence: word, error: half,
                    p: Phase)
    requires command < 0x7F && NoneUnder(unread, sequence)
    requires if error != 0 then IsRefusal(out, error, command, sequence, p) else IsAcceptance(out, command, sequence)
    ensures out != []
    ensures HostLink.Await(unread + (out + later), sequence, command).0
         == if error == 0 then HostLink.Answer(out[0]) else HostLink.Nacked(error, command, PhaseCode(p))
  {
    var fs := unread + (out + later);
    FirstBehind(unread, out, later, sequence);
    AwaitSkips(fs, sequence, command, |unread|);
  }

  /**
   The host learns exactly what the firmware decided. Behind any frames of earlier exchanges and before any later ones,
   the reply to a request is the NACK's error, command and phase if the firmware refused it, and else its answer.
   */
  lemma ReplyReachesHost(s: State, e: Event, command: byte, sequence: word, unread: seq<Frame>, later: seq<Frame>)
    requires Possible(s, e) && Asked(e, command, sequence) && command < 0x7F && NoneUnder(unread, sequence)
    ensures var error, fs := ErrorOf(s, e.heard, e.env.hw), Reads(unread + (Step(s, e).out + later));
      && Step(s, e).out != []
      && HostLink.Await(fs, sequence, command).0
         == if error == 0 then HostLink.Answer(Step(s, e).out[0])
            else HostLink.Nacked(error, command, PhaseCode(s.phase))
  {
    var out, error := Step(s, e).out, ErrorOf(s, e.heard, e.env.hw);
    AnswerIsExact(s, e);
    ScanWire(unread + (out + later));
    ReplyBehind(unread, out, later, command, sequence, error, s.phase);
  }

  lemma RunRefusalBehind(unread: seq<Frame>, out: seq<Frame>, later: seq<Frame>, sequence: word, error: half, p: Phase)
    requires IsRefusal(out, error, CMD_RUN, sequence, p)
    requires forall k :: 0 <= k < |unread| ==> HostLink.Straggler(unread[k], sequence)
    ensures HostLink.RunOn(unread + (out + later), sequence, false)
         == HostLink.RunTrace(HostLink.RunNacked(error, CMD_RUN, PhaseCode(p)), |unread|, later)
  {
    var fs := unread + (out + later);
    assert fs[|unread|] == out[0] && fs[|unread| + 1..] == later;
    var t := HostLink.RunTrace(HostLink.RunNacked(error, CMD_RUN, PhaseCode(p)), |unread|, later);
    assert Reaches(fs, sequence, |unread|, false) && Ends(out[0], sequence, false, t.result);
    ComesToIts(fs, sequence, |unread|, false, t);
  }

  /** The same of run(), which reports a refusal behind mere stragglers. */
  lemma RunRefusalReachesHost(s: State, e: Event, sequence: word, unread: seq<Frame>, later: seq<Frame>)
    requires Possible(s, e) && Asked(e, CMD_RUN, sequence) && ErrorOf(s, e.heard, e.env.hw) != 0
    requires forall k :: 0 <= k < |unread| ==> HostLink.Straggler(unread[k], sequence)
    ensures var r := HostLink.RunNacked(ErrorOf(s, e.heard, e.env.hw), CMD_RUN, PhaseCode(s.phase));
      HostLink.RunOn(Reads(unread + (Step(s, e).out + later)), sequence, false)
      == HostLink.RunTrace(r, |unread|, later)
  {
    var out, error := Step(s, e).out, ErrorOf(s, e.heard, e.env.hw);
    AnswerIsExact(s, e);
    ScanWire(unread + (out + later));
    RunRefusalBehind(unread, out, later, sequence, error, s.phase);
  }

  // ---- a series of requests ----

  /** No RUN among them, and no code that an acknowledgement could not be told from a NACK by. */
  predicate Plain(cs: seq<Command>) {
    forall i :: 0 <= i < |cs| ==> cs[i].code < 0x7F && cs[i].code != CMD_RUN
  }

  /** The events bring the first of these frames, however many. */
  predicate DeliversFront(es: seq<Event>, fs: seq<Frame>) {
    |es| <= |fs| && forall i :: 0 <= i < |es| ==> Delivers(es[i], fs[i])
  }

  lemma FrontNext(es: seq<Event>, fs: seq<Frame>)
    requires es != [] && DeliversFront(es, fs)
    ensures fs != [] && Delivers(es[0], fs[0]) && DeliversFront(es[1..], fs[1..])
  {
  }

  lemma OneReplyEach(s: State, e: Event, c: Command, last: word) returns (g: Frame)
    requires Sound(s) && c.code < 0x7F && c.code != CMD_RUN
    requires Delivers(e, Frame(RUNNER_VERSION, c.code, 0, Add32(last, 1), c.payload))
    ensures Possible(s, e) && Sound(Step(s, e).s) && Step(s, e).out == [g]
    ensures g.sequence == Add32(last, 1) && (g.command == c.code + 0x80 || g.command == 0xFF)
  {
    RequestsArePossible(s, e, Frame(RUNNER_VERSION, c.code, 0, Add32(last, 1), c.payload));
    StepIsSound(s, e);
    AnswerIsExact(s, e);
    g := Step(s, e).out[0];
  }

  /** One request of a series meets its reply. */
  lemma ExchangeOne(g: Frame, gs: seq<Frame>, c: Command, rest: seq<Command>, last: word)
    requires c.code < 0x7F && Plain([c] + rest) && Plain(rest) && g.sequence == Add32(last, 1)
    requires g.command == c.code + 0x80 || g.command == 0xFF
    ensures Exchange([g] + gs, [c] + rest, last).0
       <==> Acknowledges(g, Frame(RUNNER_VERSION, c.code, 0, Add32(last, 1), c.payload))
            && Exchange(gs, rest, Add32(last, 1)).0
  {
    assert ([g] + gs)[1..] == gs && ([c] + rest)[1..] == rest;
  }

  lemma LogFirst(s: State, es: seq<Event>, g: Frame)
    requires es != [] && Possible(s, es[0]) && Step(s, es[0]).out == [g]
    ensures Can(TALKING, s, es) <==> Can(TALKING, Step(s, es[0]).s, es[1..])
    ensures Log(TALKING, s, es) == [g] + Log(TALKING, Step(s, es[0]).s, es[1..])
    ensures After(TALKING, s, es) == After(TALKING, Step(s, es[0]).s, es[1..])
  {
    assert TALKING.can(s, es[0]) && TALKING.step(s, es[0]) == Step(s, es[0]).s && TALKING.logs(s, es[0]) == [g];
  }

  lemma AcknowledgedFirst(g: Frame, gs: seq<Frame>, f: Frame, fs: seq<Frame>)
    ensures AllAcknowledged([g] + gs, [f] + fs) <==> Acknowledges(g, f) && AllAcknowledged(gs, fs)
  {
    var a, b := [g] + gs, [f] + fs;
    assert |a| == |b| <==> |gs| == |fs|;
    assert a[0] == g && b[0] == f;
    if AllAcknowledged(a, b) {
      forall i | 0 <= i < |gs|
        ensures Acknowledges(gs[i], fs[i])
      {
        assert Acknowledges(a[i + 1], b[i + 1]);
      }
    }
  }

  /** A series of requests succeeds exactly when each was delivered and acknowledged with the words the host unpacks. */
  lemma {:induction false} ExchangeMeansAcknowledged(s: State, es: seq<Event>, cs: seq<Command>, last: word)
    requires Sound(s) && Plain(cs) && DeliversFront(es, Numbered(cs, last))
    ensures Can(TALKING, s, es)
    ensures Exchange(Log(TALKING, s, es), cs, last).0
       <==> |es| == |cs| && AllAcknowledged(Log(TALKING, s, es), Numbered(cs, last))
    decreases |es|
  {
    if es != [] {
      FrontNext(es, Numbered(cs, last));
      var c, rest := cs[0], cs[1..];
      assert cs == [c] + rest;
      var g := OneReplyEach(s, es[0], c, last);
      var t := Step(s, es[0]).s;
      LogFirst(s, es, g);
      ExchangeMeansAcknowledged(t, es[1..], rest, Add32(last, 1));
      var gs := Log(TALKING, t, es[1..]);
      ExchangeOne(g, gs, c, rest, last);
      AcknowledgedFirst(g, gs, Frame(RUNNER_VERSION, c.code, 0, Add32(last, 1), c.payload),
                        Numbered(rest, Add32(last, 1)));
    }
  }

  // ---- prime ----

  lemma {:induction false} ChunksArePlain(blob: seq<byte>, off: nat)
    requires off <= |blob| < U32
    ensures Plain(ChunkCommands(blob, off))
    decreases |blob| - off
  {
    if off < |blob| {
      ChunksArePlain(blob, off + ChunkSize(blob, off));
    }
  }

  lemma PrimeIsPlain(blob: seq<byte>)
    requires |blob| < U32
    ensures Plain(PrimeCommands(blob))
  {
    ChunksArePlain(blob, 0);
  }

  /** An announced model is acknowledged only where one is accepted, and only if it fits. */
  lemma BeginAcknowledged(s: State, e: Event, blob: seq<byte>, last: word)
    requires Sound(s) && |blob| < U32 && Possible(s, e) && Delivers(e, Numbered([BeginCommand(blob)], last)[0])
    requires |Step(s, e).out| == 1 && Step(s, e).out[0].command == CMD_LOAD_MODEL_BEGIN + 0x80
    ensures Accepts(s.phase, CMD_LOAD_MODEL_BEGIN) && 1 <= |blob| <= STAGING_SIZE
  {
    AnswerIsExact(s, e);
    TableByCommand(s.phase, CMD_LOAD_MODEL_BEGIN);
    BeginReads(blob);
  }

  /**
   An upload says that it worked if and only if it did. In any sound state, with however many of its requests delivered,
   prime succeeds on the firmware's own replies exactly when all were delivered, the phase takes a new model, and the
   blob is neither empty nor too long; and then the blob is staged, verified and ready to run.
   */
  lemma PrimeIsHonest(s: State, es: seq<Event>, blob: seq<byte>, last: word) returns (t: State)
    requires Sound(s) && |blob| < U32 && DeliversFront(es, Numbered(PrimeCommands(blob), last))
    ensures Can(TALKING, s, es) && t == After(TALKING, s, es) && Sendable(PrimeCommands(blob))
    ensures Exchange(Reads(Log(TALKING, s, es)), PrimeCommands(blob), last).0
       <==> |es| == |PrimeCommands(blob)| && s.phase in PhasesOf(0x10) && 1 <= |blob| <= STAGING_SIZE
    ensures Exchange(Reads(Log(TALKING, s, es)), PrimeCommands(blob), last).0 ==> Uploaded(t, blob, InputReady)
  {
    var cs := PrimeCommands(blob);
    PrimeIsPlain(blob);
    PrimeIsSendable(blob);
    ExchangeMeansAcknowledged(s, es, cs, last);
    ScanWire(Log(TALKING, s, es));
    TableByCommand(s.phase, CMD_LOAD_MODEL_BEGIN);
    t := After(TALKING, s, es);
    if |es| == |cs| {
      if AllAcknowledged(Log(TALKING, s, es), Numbered(cs, last)) {
        FirstAcknowledged(s, es, blob, last);
      }
      if Accepts(s.phase, CMD_LOAD_MODEL_BEGIN) && 1 <= |blob| <= STAGING_SIZE {
        t := UploadDelivers(s, es, blob, last);
      }
    }
  }

  lemma FirstAcknowledged(s: State, es: seq<Event>, blob: seq<byte>, last: word)
    requires Sound(s) && |blob| < U32 && AllDelivered(es, Numbered(PrimeCommands(blob), last))
    requires AllAcknowledged(Log(TALKING, s, es), Numbered(PrimeCommands(blob), last))
    ensures Accepts(s.phase, CMD_LOAD_MODEL_BEGIN) && 1 <= |blob| <= STAGING_SIZE
  {
    var f, rest := PrimeParts(blob, last);
    assert Delivers(es[0], f);
    var g := OneReplyEach(s, es[0], BeginCommand(blob), last);
    LogFirst(s, es, g);
    assert Acknowledges(Log(TALKING, s, es)[0], Numbered(PrimeCommands(blob), last)[0]);
    BeginAcknowledged(s, es[0], blob, last);
  }
}
