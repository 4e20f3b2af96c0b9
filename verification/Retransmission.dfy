/** An upload on a line that makes the host repeat itself. */
module Retransmission {
  import opened Bytes
  import opened Frames
  import opened Memory
  import opened Runner
  import opened RunHistory
  import opened Upload

  function Copies(f: Frame, n: nat): (fs: seq<Frame>)
    ensures |fs| == n && forall i :: 0 <= i < n ==> fs[i] == f
  {
    seq(n, _ => f)
  }

  /** Every frame, followed at once by as many copies of itself as `more` says. */
  function Repeated(fs: seq<Frame>, more: seq<nat>): seq<Frame>
    requires |fs| == |more|
  {
    if fs == [] then [] else ([fs[0]] + Copies(fs[0], more[0])) + Repeated(fs[1..], more[1..])
  }

  /** Only chunks are repeated. */
  predicate RepeatsChunks(fs: seq<Frame>, more: seq<nat>) {
    |fs| == |more| && forall i :: 0 <= i < |fs| && fs[i].command != CMD_LOAD_MODEL_CHUNK ==> more[i] == 0
  }

  lemma {:induction false} RepeatedAppend(a: seq<Frame>, b: seq<Frame>, m: seq<nat>, n: seq<nat>)
    requires |a| == |m| && |b| == |n|
    ensures Repeated(a + b, m + n) == Repeated(a, m) + Repeated(b, n)
  {
    if a == [] {
      assert a + b == b && m + n == n;
    } else {
      assert (a + b)[1..] == a[1..] + b && (m + n)[1..] == m[1..] + n;
      RepeatedAppend(a[1..], b, m[1..], n);
      Regroup([a[0]] + Copies(a[0], m[0]), Repeated(a[1..], m[1..]), Repeated(b, n));
    }
  }

  lemma {:induction false} RepeatedNot(fs: seq<Frame>, more: seq<nat>)
    requires |fs| == |more| && forall i :: 0 <= i < |fs| ==> more[i] == 0
    ensures Repeated(fs, more) == fs
  {
    if fs != [] {
      RepeatedNot(fs[1..], more[1..]);
      assert [fs[0]] + Copies(fs[0], 0) == [fs[0]];
      assert [fs[0]] + fs[1..] == fs;
    }
  }

  // ---- a chunk and its copies ----

  /** `f` was the last chunk accepted, and `off` bytes are staged. */
  predicate JustStaged(s: State, blob: seq<byte>, off: nat, f: Frame) {
    && f.command == CMD_LOAD_MODEL_CHUNK && |f.payload| > 4
    && StagedUpTo(s, blob, off, f.sequence) && s.lastChunk == Some(ChunkOf(f.sequence, f.payload))
  }

  /** An acknowledged chunk is the one the next is compared with. */
  lemma ChunkRemembered(s: State, e: Event, f: Frame)
    requires Possible(s, e) && Delivers(e, f) && f.command == CMD_LOAD_MODEL_CHUNK && s.phase == Loading
    requires s.model.total <= STAGING_SIZE && |Step(s, e).out| == 1 && Acknowledges(Step(s, e).out[0], f)
    ensures |f.payload| > 4 && Step(s, e).s.lastChunk == Some(ChunkOf(f.sequence, f.payload))
  {
    StepOfRequest(s, e, f);
    AcceptedChunk(Received(s, e.consumed, e.resyncs), f.sequence, f.payload);
  }

  lemma Opened(s: State, blob: seq<byte>, off: nat, last: word)
    requires StagedUpTo(s, blob, off, last)
    ensures s.phase == Loading && s.model.total <= STAGING_SIZE
  {
  }

  lemma NowJustStaged(u: State, blob: seq<byte>, now: nat, n: word, f: Frame)
    requires StagedUpTo(u, blob, now, n) && n == f.sequence && f.command == CMD_LOAD_MODEL_CHUNK && |f.payload| > 4
    requires u.lastChunk == Some(ChunkOf(f.sequence, f.payload))
    ensures JustStaged(u, blob, now, f)
  {
  }

  lemma ChunkJustStaged(s: State, e: Event, f: Frame, blob: seq<byte>, off: nat, last: word)
    returns (u: State, now: nat)
    requires StagedUpTo(s, blob, off, last) && off < |blob| && Delivers(e, f)
    requires f.command == CMD_LOAD_MODEL_CHUNK && f.sequence == Add32(last, 1)
    requires f.payload == ChunkCommand(blob, off).payload
    ensures now == off + ChunkSize(blob, off) && u == Step(s, e).s
    ensures Possible(s, e) && JustStaged(u, blob, now, f)
    ensures |Step(s, e).out| == 1 && Acknowledges(Step(s, e).out[0], f)
  {
    u, now := Step(s, e).s, off + ChunkSize(blob, off);
    ChunkAnswered(s, e, f, blob, off, last);
    Opened(s, blob, off, last);
    ChunkRemembered(s, e, f);
    NowJustStaged(u, blob, now, Add32(last, 1), f);
  }

  lemma CopyAnswered(s: State, e: Event, f: Frame, blob: seq<byte>, off: nat)
    requires JustStaged(s, blob, off, f) && Delivers(e, f)
    ensures Possible(s, e) && JustStaged(Step(s, e).s, blob, off, f)
    ensures |Step(s, e).out| == 1 && Acknowledges(Step(s, e).out[0], f)
  {
    RequestsArePossible(s, e, f);
    StepOfRequest(s, e, f);
    RepeatedIsAcknowledged(Received(s, e.consumed, e.resyncs), f.sequence, f.payload);
  }

  lemma {:induction false} CopiesAnswered(s: State, es: seq<Event>, f: Frame, blob: seq<byte>, off: nat)
    returns (t: State)
    requires JustStaged(s, blob, off, f) && AllDelivered(es, Copies(f, |es|))
    ensures Converses(s, es, Copies(f, |es|), t) && JustStaged(t, blob, off, f)
    decreases |es|
  {
    if es == [] {
      t := s;
    } else {
      DeliveredNext(es, Copies(f, |es|));
      assert Copies(f, |es|)[1..] == Copies(f, |es[1..]|);
      CopyAnswered(s, es[0], f, blob, off);
      t := CopiesAnswered(Step(s, es[0]).s, es[1..], f, blob, off);
      ConversesFirst(s, es, Copies(f, |es|), t);
    }
  }

  lemma ChunkOnce(s: State, e: Event, f: Frame, blob: seq<byte>, off: nat, last: word) returns (u: State, now: nat)
    requires StagedUpTo(s, blob, off, last) && off < |blob| && Delivers(e, f)
    requires f.command == CMD_LOAD_MODEL_CHUNK && f.sequence == Add32(last, 1)
    requires f.payload == ChunkCommand(blob, off).payload
    ensures now == off + ChunkSize(blob, off) && Converses(s, [e], [f], u) && JustStaged(u, blob, now, f)
  {
    u, now := ChunkJustStaged(s, e, f, blob, off, last);
    ConversesOnce(s, e, f);
  }

  lemma StillStaged(s: State, blob: seq<byte>, off: nat, f: Frame)
    requires JustStaged(s, blob, off, f)
    ensures StagedUpTo(s, blob, off, f.sequence)
  {
  }

  lemma CopiesAfter(s: State, u: State, e: Event, es: seq<Event>, f: Frame, copies: seq<Frame>, blob: seq<byte>,
                    now: nat)
    returns (t: State)
    requires Converses(s, [e], [f], u) && JustStaged(u, blob, now, f) && copies == Copies(f, |es|)
    requires AllDelivered(es, copies)
    ensures Converses(s, [e] + es, [f] + copies, t) && StagedUpTo(t, blob, now, f.sequence)
  {
    t := CopiesAnswered(u, es, f, blob, now);
    StillStaged(t, blob, now, f);
    ConversesOn(s, [e], es, [f], copies, u, t);
  }

  /** Events that bring a chunk and its copies. */
  lemma ChunkThenCopies(es: seq<Event>, f: Frame, n: nat) returns (e: Event, rest: seq<Event>)
    requires AllDelivered(es, [f] + Copies(f, n))
    ensures es == [e] + rest && Delivers(e, f) && AllDelivered(rest, Copies(f, n)) && |rest| == n
  {
    var fs := [f] + Copies(f, n);
    e, rest := es[0], es[1..];
    DeliveredNext(es, fs);
    assert fs[1..] == Copies(f, n);
  }

  // ---- the upload ----

  lemma FirstChunk(blob: seq<byte>, off: nat, last: word) returns (f: Frame, rest: seq<Frame>)
    requires off < |blob| < U32
    ensures Numbered(ChunkCommands(blob, off), last) == [f] + rest
    ensures rest == Numbered(ChunkCommands(blob, off + ChunkSize(blob, off)), Add32(last, 1))
    ensures f.command == CMD_LOAD_MODEL_CHUNK && f.sequence == Add32(last, 1)
    ensures f.payload == ChunkCommand(blob, off).payload
    ensures Last(ChunkCommands(blob, off), last)
         == Last(ChunkCommands(blob, off + ChunkSize(blob, off)), Add32(last, 1))
  {
    var cs, ds := ChunkCommands(blob, off), ChunkCommands(blob, off + ChunkSize(blob, off));
    assert cs == [ChunkCommand(blob, off)] + ds && cs[1..] == ds;
    f, rest := Numbered(cs, last)[0], Numbered(ds, Add32(last, 1));
  }

  lemma RepeatedFirst(f: Frame, rest: seq<Frame>, more: seq<nat>)
    requires |more| == |rest| + 1
    ensures Repeated([f] + rest, more) == ([f] + Copies(f, more[0])) + Repeated(rest, more[1..])
  {
    assert ([f] + rest)[1..] == rest;
  }

  /** The first chunk of what was delivered, its copies, and the rest. */
  lemma ChunkDelivered(es: seq<Event>, f: Frame, rest: seq<Frame>, more: seq<nat>)
    returns (e: Event, now: seq<Event>, later: seq<Event>)
    requires |more| == |rest| + 1 && AllDelivered(es, Repeated([f] + rest, more))
    ensures es == ([e] + now) + later && Delivers(e, f)
    ensures |now| == more[0] && AllDelivered(now, Copies(f, more[0]))
    ensures AllDelivered(later, Repeated(rest, more[1..]))
  {
    RepeatedFirst(f, rest, more);
    var fa, fb := [f] + Copies(f, more[0]), Repeated(rest, more[1..]);
    DeliveredParts(es, fa, fb);
    e, now := ChunkThenCopies(es[..|fa|], f, more[0]);
    later := es[|fa|..];
  }

  lemma ChunkAndCopies(s: State, e: Event, es: seq<Event>, f: Frame, copies: seq<Frame>, blob: seq<byte>, off: nat,
                       last: word)
    returns (u: State, now: nat)
    requires StagedUpTo(s, blob, off, last) && off < |blob| && Delivers(e, f)
    requires f.command == CMD_LOAD_MODEL_CHUNK && f.sequence == Add32(last, 1)
    requires f.payload == ChunkCommand(blob, off).payload
    requires copies == Copies(f, |es|) && AllDelivered(es, copies)
    ensures now == off + ChunkSize(blob, off)
    ensures Converses(s, [e] + es, [f] + copies, u) && StagedUpTo(u, blob, now, f.sequence)
  {
    var w: State;
    w, now := ChunkOnce(s, e, f, blob, off, last);
    u := CopiesAfter(s, w, e, es, f, copies, blob, now);
  }

  lemma {:induction false} ChunksRepeated(s: State, es: seq<Event>, fs: seq<Frame>, more: seq<nat>, blob: seq<byte>,
                                          off: nat, last: word)
    returns (t: State)
    requires StagedUpTo(s, blob, off, last) && |blob| < U32 && fs == Numbered(ChunkCommands(blob, off), last)
    requires |more| == |fs| && AllDelivered(es, Repeated(fs, more))
    ensures Converses(s, es, Repeated(fs, more), t) && StagedUpTo(t, blob, |blob|, Last(ChunkCommands(blob, off), last))
    decreases |blob| - off
  {
    if off == |blob| {
      t := s;
    } else {
      var f, rest := FirstChunk(blob, off, last);
      var e, now, later := ChunkDelivered(es, f, rest, more);
      var copies := Copies(f, |now|);
      var u, next := ChunkAndCopies(s, e, now, f, copies, blob, off, last);
      t := ChunksRepeated(u, later, rest, more[1..], blob, next, f.sequence);
      RepeatedFirst(f, rest, more);
      ConversesOn(s, [e] + now, later, [f] + copies, Repeated(rest, more[1..]), u, t);
    }
  }

  lemma RepeatedInThree(fa: seq<Frame>, fb: seq<Frame>, fc: seq<Frame>, more: seq<nat>) returns (middle: seq<nat>)
    requires |fa| == 1 && |fc| == 2 && RepeatsChunks(fa + (fb + fc), more)
    requires fa[0].command != CMD_LOAD_MODEL_CHUNK && fc[0].command != CMD_LOAD_MODEL_CHUNK
    requires fc[1].command != CMD_LOAD_MODEL_CHUNK
    ensures |middle| == |fb| && Repeated(fa + (fb + fc), more) == fa + (Repeated(fb, middle) + fc)
  {
    var n, fs := |fb|, fa + (fb + fc);
    var ma, mb, mc := more[..1], more[1..1 + n], more[1 + n..];
    middle := mb;
    assert more == ma + (mb + mc);
    assert fs[0] == fa[0] && fs[1 + n] == fc[0] && fs[1 + n + 1] == fc[1];
    RepeatedAppend(fa, fb + fc, ma, mb + mc);
    RepeatedAppend(fb, fc, mb, mc);
    RepeatedNot(fa, ma);
    RepeatedNot(fc, mc);
  }

  /** The frames of an upload, of which only the chunks in the middle are repeated. */
  lemma UploadRepeated(blob: seq<byte>, last: word, more: seq<nat>)
    returns (fa: seq<Frame>, fb: seq<Frame>, fc: seq<Frame>, middle: seq<nat>)
    requires |blob| < U32 && RepeatsChunks(Numbered(PrimeCommands(blob), last), more)
    ensures var chunks, first := ChunkCommands(blob, 0), Add32(last, 1);
      && fa == Numbered([BeginCommand(blob)], last) && fb == Numbered(chunks, first)
      && fc == Numbered(CLOSING, Last(chunks, first))
      && |fa| == 1 && |middle| == |fb|
      && Repeated(Numbered(PrimeCommands(blob), last), more) == fa + (Repeated(fb, middle) + fc)
  {
    PrimeFrames(blob, last);
    var chunks, first := ChunkCommands(blob, 0), Add32(last, 1);
    fa, fb, fc := Numbered([BeginCommand(blob)], last), Numbered(chunks, first), Numbered(CLOSING, Last(chunks, first));
    ClosingFrames(Last(chunks, first));
    middle := RepeatedInThree(fa, fb, fc, more);
  }

  lemma BodyRepeated(s: State, es: seq<Event>, blob: seq<byte>, last: word, more: seq<nat>) returns (t: State)
    requires StagedUpTo(s, blob, 0, last) && |blob| < U32 && |more| == |ChunkCommands(blob, 0)|
    requires AllDelivered(es, Repeated(Numbered(ChunkCommands(blob, 0), last), more)
                              + Numbered(CLOSING, Last(ChunkCommands(blob, 0), last)))
    ensures Converses(s, es, Repeated(Numbered(ChunkCommands(blob, 0), last), more)
                             + Numbered(CLOSING, Last(ChunkCommands(blob, 0), last)), t)
    ensures Uploaded(t, blob, InputReady)
  {
    var end := Last(ChunkCommands(blob, 0), last);
    var fa, fb := Repeated(Numbered(ChunkCommands(blob, 0), last), more), Numbered(CLOSING, end);
    DeliveredParts(es, fa, fb);
    var u := ChunksRepeated(s, es[..|fa|], Numbered(ChunkCommands(blob, 0), last), more, blob, 0, last);
    t := ClosingDelivered(u, es[|fa|..], blob, end);
    InTwo(s, es, fa, fb, u, t);
  }

  /**
   An upload in which any chunk is sent again, at once and any number of times, comes to the same: every frame, copies
   included, is acknowledged, and the machine ends with exactly the blob staged, ready to run.
   */
  lemma UploadWithRepeats(s: State, es: seq<Event>, blob: seq<byte>, last: word, more: seq<nat>) returns (t: State)
    requires Sound(s) && Accepts(s.phase, CMD_LOAD_MODEL_BEGIN) && 1 <= |blob| <= STAGING_SIZE
    requires RepeatsChunks(Numbered(PrimeCommands(blob), last), more)
    requires AllDelivered(es, Repeated(Numbered(PrimeCommands(blob), last), more))
    ensures Converses(s, es, Repeated(Numbered(PrimeCommands(blob), last), more), t) && Uploaded(t, blob, InputReady)
  {
    var fa, fb, fc, middle := UploadRepeated(blob, last, more);
    var body := Repeated(fb, middle) + fc;
    DeliveredParts(es, fa, body);
    var u := BeginDelivered(s, es[0], fa[0], blob, last);
    assert es[..|fa|] == [es[0]] && fa == [fa[0]];
    t := BodyRepeated(u, es[|fa|..], blob, Add32(last, 1), middle);
    InTwo(s, es, fa, body, u, t);
  }
}
